# RestfulController routing core, modelled in Dafny

This project models the RESTful routing filter of Hasor MVC (`RestfulController`). The filter
works in four stages:

- At start-up, `init` collects every action that declares a restful mapping template such as
  `/users/{id}`, across every action namespace. It sorts them ascending by template, ignoring
  case, with a stable sort, into the route table `defineArray`.
- For each request, `doFilter` removes the context-path prefix from the request URI. It then
  looks up the first route in table order whose compiled pattern matches the whole remaining
  path. If no route matches, the request goes down the filter chain.
- When a route matches, `getParams` builds the action's parameters. It collects the
  placeholder names of the template with the regular expression `(?:\{(\w+)\}){1,}`, and the
  capture groups of the compiled pattern applied to the path. It pairs names and captures by
  position, folds repeated values per name into a duplicate-free list in first-seen order,
  and overrides the request's own parameter map with those lists.
- `getRequestDispatcher` returns a dispatcher for a target URI, or null when no route
  matches it. The dispatcher's `include` and `forward` run the target action with parameters
  taken from the request captured when the dispatcher was made. Both set the request
  attribute `javax.servlet.forward.servlet_path` for the duration of the call and always
  remove it. `forward` first refuses a committed response, then resets the buffer. It runs
  the action on a wrapper whose `getRequestURI` reports the target URI.

Files, one module each:

- `text.dfy` (`Text`): `String.compareToIgnoreCase` and the `\w` character class.
- `template.dfy` (`Template`): mapping templates as segment lists, and the key scan performed
  by `Matcher.find` with `(?:\{(\w+)\}){1,}`.
- `pattern.dfy` (`Pattern`): the compiled match pattern as segments. A literal matches
  itself; a placeholder is the group `([^/]+)`, greedy with backtracking. The module gives
  the full match and its captures.
- `params.dfy` (`Params`): the per-name folding of path values and the merge over the request
  parameters.
- `routes.dfy` (`Routes`): collecting the restful actions, the stable case-insensitive sort,
  and the first-match lookup.
- `controller.dfy` (`Controller`): the imperative filter. It has the classes `Request`,
  `Response`, `RestfulController` and `Dispatcher`, with the loops of `init`,
  `getActionDefine` and `getParams`.

## Conventions and assumptions

- **Handlers.** The action pipeline is outside the model: `createInvoke(...).invoke(...)`.
  - An action run is recorded as an `Invocation` value. It holds the handler and the request
    object the action sees (`Physical` or `ForwardWrapper`). It also holds the merged
    parameters and the request attributes at that moment.
  - How the handler ends is a parameter, `handlerExit`. So is how the filter chain ends,
    `chainExit`.
- **The compiled pattern.** `ActionDefineImpl.getRestfulMappingMatches` is not part of this
  model. Each route therefore carries its compiled pattern as a segment list, given apart
  from its template.
  - The round-trip lemmas relate the two by building the template with `Render` from the same
    segments.
  - Literal characters are matched literally; unescaped regular-expression metacharacters are
    not modelled.
- **The capture step.** `varM.find()` at line 99 runs after the full match at line 124 has
  succeeded. It is modelled as the captures of that full match.
  - When the path does not match and the pattern has groups, `group(1)` throws
    `IllegalStateException`; this is modelled as `NoMatchFound`.
  - When the path does not match and the pattern has no groups, the capture list is empty.
- **Sorting.** `Collections.sort` is modelled by a stable insertion sort, `SortByTemplate`.
  `Routes.StableSortUnique` shows that any sort that is ordered and stable gives the same
  list, so this choice does not matter.
- **Behaviour of the code at its edges.** The model follows `RestfulController.java` on these
  points:
  - `forward` on a committed response throws a `ServletException` with the message given at
    line 161. It does not throw an `IllegalStateException`.
  - Extraction fails, with an index error, only when there are fewer captures than keys.
    Extra captures are ignored. No other count check exists.
  - `include` runs the action on the physical request. Only `forward` wraps the request so
    that it reports the new URI.
  - Adjacent placeholders such as `{a}{b}` are consumed by one `find`. Only the last name,
    `b`, becomes a key: `Template.AdjacentPlaceholdersKeepLast`. So a template with adjacent
    placeholders has fewer keys than placeholders.

## Model

| member | source | states |
|---|---|---|
| Text.CharCompareIgnoreCase | src/org.hasor.mvc/src/main/java/org/hasor/mvc/controller/support/RestfulController.java:62 | One character step of `compareToIgnoreCase` is the difference of the two characters after upper-casing and then lower-casing (ASCII letters). |
| Text.CompareAntisymmetric | src/org.hasor.mvc/src/main/java/org/hasor/mvc/controller/support/RestfulController.java:59-64 | Swapping the two templates negates the comparator's result. |
| Text.CompareZeroIff | src/org.hasor.mvc/src/main/java/org/hasor/mvc/controller/support/RestfulController.java:59-64 | Two templates compare equal exactly when their case-folded forms are the same string. |
| Text.CompareCongruent | src/org.hasor.mvc/src/main/java/org/hasor/mvc/controller/support/RestfulController.java:59-64 | The comparator depends only on the case-folded form of the right operand. |
| Text.CompareTransitive | src/org.hasor.mvc/src/main/java/org/hasor/mvc/controller/support/RestfulController.java:59-64 | If a compares at most b, and b at most c, then a compares at most c. |
| Text.CompareTotal | src/org.hasor.mvc/src/main/java/org/hasor/mvc/controller/support/RestfulController.java:59-64 | Of any two templates, one compares at most the other, so the comparator is a total preorder. |
| Template.WordRun | src/org.hasor.mvc/src/main/java/org/hasor/mvc/controller/support/RestfulController.java:92 | The greedy `\w+` length: every character in it is a word character, and the next one, if any, is not. |
| Template.PlaceholderLen | src/org.hasor.mvc/src/main/java/org/hasor/mvc/controller/support/RestfulController.java:92 | The length of the `\{(\w+)\}` match at the start of a string: it runs from `{` to `}` with only word characters between. It is 0 exactly when no such match exists, and no other length matches. |
| Template.RunLastName | src/org.hasor.mvc/src/main/java/org/hasor/mvc/controller/support/RestfulController.java:92-98 | `group(1)` of a match is a non-empty string of word characters. |
| Template.RunLastNameIsLast | src/org.hasor.mvc/src/main/java/org/hasor/mvc/controller/support/RestfulController.java:92-98 | `group(1)` is the name inside the last placeholder of the run: that placeholder starts at `LastStart` and ends where the whole `(?:...){1,}` match ends. |
| Template.KeysOfRender | src/org.hasor.mvc/src/main/java/org/hasor/mvc/controller/support/RestfulController.java:92-98 | For a well-formed template, the key list is the last name of each run of adjacent placeholders, left to right. |
| Template.SeparatedRunNames | src/org.hasor.mvc/src/main/java/org/hasor/mvc/controller/support/RestfulController.java:92-98 | When no two placeholders are adjacent, every placeholder is its own run. |
| Template.KeysAreVarNames | src/org.hasor.mvc/src/main/java/org/hasor/mvc/controller/support/RestfulController.java:92-98 | For a well-formed template whose placeholders are separated by literal text, the keys are exactly the placeholder names in order, duplicates kept. |
| Template.AdjacentPlaceholdersKeepLast | src/org.hasor.mvc/src/main/java/org/hasor/mvc/controller/support/RestfulController.java:92 | `{a}{b}` gives the single key `b`. |
| Template.KeysAfterPlaceholder | src/org.hasor.mvc/src/main/java/org/hasor/mvc/controller/support/RestfulController.java:96-98 | A placeholder followed by another match start joins that run, so only the run's last name counts; otherwise it contributes its own name. |
| Template.Keys | src/org.hasor.mvc/src/main/java/org/hasor/mvc/controller/support/RestfulController.java:92-98 | Every key the `find` loop collects is a non-empty string of word characters. |
| Controller.RepeatedRouteShape | src/org.hasor.mvc/src/main/java/org/hasor/mvc/controller/support/RestfulController.java:97-98 | For any name `n`, `/{n}/{n}` gives the keys `n`, `n` (a repeated name is kept once per occurrence), and its pattern on `/x/y` captures `x`, `y`. |
| Pattern.SegmentRun | src/org.hasor.mvc/src/main/java/org/hasor/mvc/controller/support/RestfulController.java:124 | The first candidate of a greedy `[^/]+` is the longest prefix free of `/`, ending at a `/` or at the end. |
| Pattern.Match | src/org.hasor.mvc/src/main/java/org/hasor/mvc/controller/support/RestfulController.java:124 | A successful full match yields exactly one capture per group of the pattern. |
| Pattern.TryRun | src/org.hasor.mvc/src/main/java/org/hasor/mvc/controller/support/RestfulController.java:124 | Backtracking over the candidate lengths of one `([^/]+)`: a success yields that group's capture and one per group of the rest of the pattern. |
| Pattern.MatchCaptures | src/org.hasor.mvc/src/main/java/org/hasor/mvc/controller/support/RestfulController.java:99-101 | A successful full match has exactly `groupCount` captures, each non-empty and free of `/`. |
| Pattern.MatchSound | src/org.hasor.mvc/src/main/java/org/hasor/mvc/controller/support/RestfulController.java:124 | Putting the captures of a match back into the pattern rebuilds the matched path exactly. |
| Pattern.MatchFill | src/org.hasor.mvc/src/main/java/org/hasor/mvc/controller/support/RestfulController.java:99-101 | Round trip: fill each placeholder with a capture, where every placeholder is followed by `/` or the end. The path matches, and the match returns exactly those captures. |
| Params.DedupElements | src/org.hasor.mvc/src/main/java/org/hasor/mvc/controller/support/RestfulController.java:107-111 | The add-if-absent fold has no duplicates and holds exactly the values it was given. |
| Params.DedupFirstSeen | src/org.hasor.mvc/src/main/java/org/hasor/mvc/controller/support/RestfulController.java:107-111 | The fold keeps values in the order they were first seen. |
| Params.GroupStep | src/org.hasor.mvc/src/main/java/org/hasor/mvc/controller/support/RestfulController.java:104-112 | One more pair (k, v) changes only k's list: v is appended unless already present, and an absent k starts from the empty list. |
| Params.GroupSpec | src/org.hasor.mvc/src/main/java/org/hasor/mvc/controller/support/RestfulController.java:103-112 | The path-variable map holds exactly the bound names. Each list holds exactly that name's values, without duplicates, in first-seen order. |
| Params.GroupBindingsSpec | src/org.hasor.mvc/src/main/java/org/hasor/mvc/controller/support/RestfulController.java:103-112 | On positional pairs: the names are the keys. Name k's list holds, once each, exactly the values at the positions where the key is k. |
| Params.GroupOfOne | src/org.hasor.mvc/src/main/java/org/hasor/mvc/controller/support/RestfulController.java:104-112 | A single pair gives a one-entry map with a one-value list. |
| Params.RepeatedValueFolded | src/org.hasor.mvc/src/main/java/org/hasor/mvc/controller/support/RestfulController.java:109-110 | A name bound twice to the same value gets that value once. |
| Params.DistinctValuesKept | src/org.hasor.mvc/src/main/java/org/hasor/mvc/controller/support/RestfulController.java:109-110 | A name bound to two different values keeps both, first-seen first. |
| Params.Merge | src/org.hasor.mvc/src/main/java/org/hasor/mvc/controller/support/RestfulController.java:113-119 | `putAll` then `put`: the merged map has exactly the names of both maps. A path variable's value replaces the request's; other request names keep their values. |
| Routes.RestfulInMembers | src/org.hasor.mvc/src/main/java/org/hasor/mvc/controller/support/RestfulController.java:54-56 | A namespace contributes exactly its actions whose restful mapping is not null. |
| Routes.RestfulAllMembers | src/org.hasor.mvc/src/main/java/org/hasor/mvc/controller/support/RestfulController.java:53-57 | The collected list holds exactly the actions with a mapping, from every namespace. |
| Routes.RestfulIn | src/org.hasor.mvc/src/main/java/org/hasor/mvc/controller/support/RestfulController.java:54-56 | The filter over one namespace keeps at most as many routes as there are actions. |
| Routes.SortByTemplate | src/org.hasor.mvc/src/main/java/org/hasor/mvc/controller/support/RestfulController.java:59-65 | The sort keeps the length of the route list. |
| Routes.SortPermutes | src/org.hasor.mvc/src/main/java/org/hasor/mvc/controller/support/RestfulController.java:59-65 | The sorted table is a permutation of the collected routes (same multiset). |
| Routes.SortSorted | src/org.hasor.mvc/src/main/java/org/hasor/mvc/controller/support/RestfulController.java:59-65 | The sorted table is ascending under `compareToIgnoreCase` on the templates. |
| Routes.SortStable | src/org.hasor.mvc/src/main/java/org/hasor/mvc/controller/support/RestfulController.java:59-65 | Routes whose templates compare equal keep their registration order. |
| Routes.StableSortUnique | src/org.hasor.mvc/src/main/java/org/hasor/mvc/controller/support/RestfulController.java:59-64 | Two ascending, stably ordered arrangements of the same routes are equal, so any stable sort gives this table. |
| Routes.FirstMatch | src/org.hasor.mvc/src/main/java/org/hasor/mvc/controller/support/RestfulController.java:122-127 | The lowest index whose pattern matches the whole path. None exactly when no route matches. |
| Routes.Lookup | src/org.hasor.mvc/src/main/java/org/hasor/mvc/controller/support/RestfulController.java:122-127 | A route is found exactly when some route in the table matches the path. The route found is in the table and matches the path. |
| Routes.LookupEarliestTemplate | src/org.hasor.mvc/src/main/java/org/hasor/mvc/controller/support/RestfulController.java:122-127 | In a sorted table, a path that any route matches gets a route whose template sorts no later than that route's: the earliest template wins. |
| Controller.ScanKeys | src/org.hasor.mvc/src/main/java/org/hasor/mvc/controller/support/RestfulController.java:93-98 | The `while (keyM.find())` loop produces exactly the key list of the template. |
| Controller.CollectCaptures | src/org.hasor.mvc/src/main/java/org/hasor/mvc/controller/support/RestfulController.java:94-101 | The capture loop gives the captures of the match. On no match it is empty without groups, and `IllegalStateException` with groups. |
| Controller.Captures | src/org.hasor.mvc/src/main/java/org/hasor/mvc/controller/support/RestfulController.java:99-101 | Reading the groups fails, with the no-match error, exactly when the path does not match and the pattern has groups. Otherwise there is one capture per group. |
| Controller.ExtractParams | src/org.hasor.mvc/src/main/java/org/hasor/mvc/controller/support/RestfulController.java:90-121 | `getParams` fails only with the no-match or the index error. On success, every request parameter name is still present. |
| Controller.GroupByName | src/org.hasor.mvc/src/main/java/org/hasor/mvc/controller/support/RestfulController.java:103-112 | The zip-and-fold loop builds the grouped map of the positional pairs. With fewer captures than keys it throws the index error. |
| Controller.MergeParams | src/org.hasor.mvc/src/main/java/org/hasor/mvc/controller/support/RestfulController.java:113-120 | `putAll`, then `put` for every path variable, gives the request map overridden by the path-variable map. |
| Controller.GetParams | src/org.hasor.mvc/src/main/java/org/hasor/mvc/controller/support/RestfulController.java:90-121 | `getParams` returns, or throws, exactly what `ExtractParams` specifies. |
| Controller.ExtractParamsSpec | src/org.hasor.mvc/src/main/java/org/hasor/mvc/controller/support/RestfulController.java:99-119 | After a match, extraction fails exactly when keys outnumber captures. Otherwise every request key is kept, and non-variables are unchanged. Each variable maps, duplicate-free, to exactly its captured values, in first-seen order; request values are discarded. |
| Controller.ExtractFromFilledPath | src/org.hasor.mvc/src/main/java/org/hasor/mvc/controller/support/RestfulController.java:90-121 | Round trip: a path made by filling a template's placeholders yields those values, bound to the names in order and merged over the request. |
| Controller.RepeatedValueExample | src/org.hasor.mvc/src/main/java/org/hasor/mvc/controller/support/RestfulController.java:103-119 | `/{n}/{n}` on `/x/x` sets `n` to `[x]`. |
| Controller.DistinctValuesExample | src/org.hasor.mvc/src/main/java/org/hasor/mvc/controller/support/RestfulController.java:103-119 | `/{n}/{n}` on `/x/y`, with x different from y, sets `n` to `[x, y]`. |
| Controller.PathVariableOverridesRequest | src/org.hasor.mvc/src/main/java/org/hasor/mvc/controller/support/RestfulController.java:113-119 | `/{n}` on `/x` sets `n` to `[x]`, whatever the request held for `n`. |
| Controller.Request.SetAttribute | src/org.hasor.mvc/src/main/java/org/hasor/mvc/controller/support/RestfulController.java:149 | `setAttribute` binds the name and changes no other attribute. |
| Controller.Request.RemoveAttribute | src/org.hasor.mvc/src/main/java/org/hasor/mvc/controller/support/RestfulController.java:155 | `removeAttribute` unbinds the name and changes no other attribute. |
| Controller.Response.ResetBuffer | src/org.hasor.mvc/src/main/java/org/hasor/mvc/controller/support/RestfulController.java:163 | On an uncommitted response, the buffered output is discarded. |
| Controller.RequestView.RequestUri | src/org.hasor.mvc/src/main/java/org/hasor/mvc/controller/support/RestfulController.java:184-193 | The physical request reports its own URI; the forward wrapper reports the target URI. |
| Controller.RestfulController.constructor | src/org.hasor.mvc/src/main/java/org/hasor/mvc/controller/support/RestfulController.java:46 | A new filter has an empty route table. |
| Controller.RestfulController.Init | src/org.hasor.mvc/src/main/java/org/hasor/mvc/controller/support/RestfulController.java:49-66 | The nested loops and sort store the stable sort of the restful actions of every namespace, which is ascending. |
| Controller.RestfulController.GetActionDefine | src/org.hasor.mvc/src/main/java/org/hasor/mvc/controller/support/RestfulController.java:122-127 | A definition is returned exactly when some route matches the path. It is the first match in table order, preceded by no matching route. On a valid (sorted) table, its template sorts no later than that of any matching route. |
| Controller.RestfulController.DoFilter | src/org.hasor.mvc/src/main/java/org/hasor/mvc/controller/support/RestfulController.java:70-89 | Routing uses the URI without its context path; too long a context path is a substring error. No match goes down the chain. Extraction errors propagate. A match runs one action; an IOException-caused ServletException is rethrown as that IOException, anything else passes unchanged. |
| Controller.RestfulController.GetRequestDispatcher | src/org.hasor.mvc/src/main/java/org/hasor/mvc/controller/support/RestfulController.java:139-146 | Null exactly when no route matches the target URI. Otherwise a new dispatcher holds that route, the target URI and the captured request. |
| Controller.Dispatcher.Include | src/org.hasor.mvc/src/main/java/org/hasor/mvc/controller/support/RestfulController.java:148-157 | The action sees the dispatch attribute set and the physical request, with parameters from the captured request. Afterwards the attribute is absent on every exit path, and no other attribute changes. |
| Controller.Dispatcher.Forward | src/org.hasor.mvc/src/main/java/org/hasor/mvc/controller/support/RestfulController.java:159-179 | A committed response is refused with the source's ServletException: no action, no state change. Otherwise the buffer is emptied and the action runs on a wrapper reporting the target URI, with the attribute set. Afterwards the attribute is absent on every exit path. |

## Left out

- The regular-expression engine is replaced by the segment model of `Pattern`. Literals are matched character for character; escaping and metacharacters in templates are not modelled.
- How `ActionDefineImpl` compiles a template into its match pattern is not part of this model. A route's pattern is given as data, not computed from its template.
- Guice injection, `AppContext.getInstance`, `ActionManager` and the namespace enumeration are left out. `init` receives the namespaces' actions as a sequence of sequences.
- The action pipeline (`createInvoke(...).invoke(...)`) is abstracted: its outcome is a parameter, and its effects on the request and response are not modelled.
- `destroy`, the real `FilterChain`, what `resetBuffer` writes on the wire, and the `HttpServletRequestWrapper` delegation are left out. Only the reported URI of the forward wrapper is modelled.
- The `instanceof HttpServletRequest` fallback in `forward` (line 169) is left out; in the model the request is always an HTTP request.
- Controller.RestfulController.constructor: `defineArray` starts as the empty sequence, not null, so a lookup before `init` finds nothing instead of throwing a `NullPointerException`.
- Strings are sequences of Dafny `char`, which are Unicode scalar values, whereas Java strings are sequences of UTF-16 code units. For text outside the Basic Multilingual Plane, the model therefore differs in two ways. `compareToIgnoreCase` compares surrogate halves one at a time, so its order can differ from the model's. `substring(getContextPath().length())` counts code units, so it can cut the path at a different place.
- Text.CharCompareIgnoreCase: the case mapping covers the ASCII letters only, not the full Unicode tables of `Character.toUpperCase` and `Character.toLowerCase`.
- Routes.SortByTemplate: `Collections.sort` is modelled by a stable insertion sort of the same result, not by the merge sort itself.
- Controller.RestfulController.Init: `defineArray` is a sequence, not a Java array, so aliasing of the table is not modelled.
- Parameter values are lists of strings; the `Object`/`String[]` typing of the Java map is not modelled.
- Concurrency: the code has none.
