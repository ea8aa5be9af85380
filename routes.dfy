/**
 * The route table: the actions that have a restful mapping, sorted by mapping template
 * ignoring case with a stable sort, and the first-match lookup over it.
 */
module Routes {
  import opened Text
  import opened Template
  import opened Pattern

  /** Identifies an action's handler; how it is created and run is outside this model. */
  type HandlerId = nat

  /** A registered action: its restful mapping (None for null), its compiled match pattern, its handler. */
  datatype Action = Action(mapping: Option<string>, matches: seq<Segment>, handler: HandlerId)

  /** An action that has a restful mapping, as it is kept in the route table. */
  datatype Route = Route(template: string, matches: seq<Segment>, handler: HandlerId)

  function AsRoute(a: Action): Route
    requires a.mapping.Some?
  {
    Route(a.mapping.value, a.matches, a.handler)
  }

  /** The routes of one namespace's actions, in registration order. */
  function RestfulIn(actions: seq<Action>): (routes: seq<Route>)
    ensures |routes| <= |actions|
  {
    if |actions| == 0 then []
    else
      var last := actions[|actions| - 1];
      RestfulIn(actions[..|actions| - 1]) + (if last.mapping.Some? then [AsRoute(last)] else [])
  }

  /** The routes of all namespaces, namespace after namespace. */
  function RestfulAll(namespaces: seq<seq<Action>>): seq<Route> {
    if |namespaces| == 0 then []
    else RestfulAll(namespaces[..|namespaces| - 1]) + RestfulIn(namespaces[|namespaces| - 1])
  }

  /** The comparator: `o1.getRestfulMapping().compareToIgnoreCase(o2.getRestfulMapping())`. */
  predicate Precedes(a: Route, b: Route) {
    CompareIgnoreCase(a.template, b.template) <= 0
  }

  predicate Sorted(rs: seq<Route>) {
    forall i, j :: 0 <= i < j < |rs| ==> Precedes(rs[i], rs[j])
  }

  /** The routes whose template equals `t` ignoring case, in their order in `rs`. */
  function SameTemplate(rs: seq<Route>, t: string): seq<Route> {
    if |rs| == 0 then []
    else (if CompareIgnoreCase(rs[0].template, t) == 0 then [rs[0]] else []) + SameTemplate(rs[1..], t)
  }

  /** A stable sort keeps the relative order of routes whose templates compare equal. */
  ghost predicate StablyOrdered(output: seq<Route>, input: seq<Route>) {
    forall t :: SameTemplate(output, t) == SameTemplate(input, t)
  }

  /** Insertion before the first route that `x` precedes. */
  function Insert(x: Route, rs: seq<Route>): (r: seq<Route>)
    ensures |r| == |rs| + 1
  {
    if |rs| == 0 then [x]
    else if Precedes(x, rs[0]) then [x] + rs
    else [rs[0]] + Insert(x, rs[1..])
  }

  /** A stable insertion sort; every stable sort, Collections.sort among them, gives this result. */
  function SortByTemplate(rs: seq<Route>): (sorted: seq<Route>)
    ensures |sorted| == |rs|
  {
    if |rs| == 0 then [] else Insert(rs[0], SortByTemplate(rs[1..]))
  }

  // ---------------------------------------------------------------------------
  // Collection
  // ---------------------------------------------------------------------------

  /** A namespace contributes exactly its actions that have a mapping. */
  lemma {:induction false} RestfulInMembers(actions: seq<Action>)
    ensures forall r :: r in RestfulIn(actions) <==>
      exists j :: 0 <= j < |actions| && actions[j].mapping.Some? && r == AsRoute(actions[j])
  {
    if |actions| > 0 {
      var p := actions[..|actions| - 1];
      RestfulInMembers(p);
      forall r | r in RestfulIn(actions)
        ensures exists j :: 0 <= j < |actions| && actions[j].mapping.Some? && r == AsRoute(actions[j])
      {
        if r in RestfulIn(p) {
          var j :| 0 <= j < |p| && p[j].mapping.Some? && r == AsRoute(p[j]);
          assert actions[j] == p[j];
        }
      }
      forall r, j | 0 <= j < |actions| && actions[j].mapping.Some? && r == AsRoute(actions[j])
        ensures r in RestfulIn(actions)
      {
        if j < |p| {
          assert p[j] == actions[j];
        }
      }
    }
  }

  /** The collected list holds exactly the actions with a mapping, over all namespaces. */
  lemma {:induction false} RestfulAllMembers(namespaces: seq<seq<Action>>)
    ensures forall r :: r in RestfulAll(namespaces) <==>
      exists i, j :: 0 <= i < |namespaces| && 0 <= j < |namespaces[i]| &&
        namespaces[i][j].mapping.Some? && r == AsRoute(namespaces[i][j])
  {
    if |namespaces| > 0 {
      var p, last := namespaces[..|namespaces| - 1], namespaces[|namespaces| - 1];
      RestfulAllMembers(p);
      RestfulInMembers(last);
      forall r | r in RestfulAll(namespaces)
        ensures exists i, j :: (0 <= i < |namespaces| && 0 <= j < |namespaces[i]| &&
          namespaces[i][j].mapping.Some? && r == AsRoute(namespaces[i][j]))
      {
        if r in RestfulAll(p) {
          var i, j :| 0 <= i < |p| && 0 <= j < |p[i]| && p[i][j].mapping.Some? && r == AsRoute(p[i][j]);
          assert namespaces[i] == p[i];
        } else {
          var j :| 0 <= j < |last| && last[j].mapping.Some? && r == AsRoute(last[j]);
          assert namespaces[|namespaces| - 1] == last;
        }
      }
      forall r, i, j | 0 <= i < |namespaces| && 0 <= j < |namespaces[i]| &&
          namespaces[i][j].mapping.Some? && r == AsRoute(namespaces[i][j])
        ensures r in RestfulAll(namespaces)
      {
        if i < |p| {
          assert p[i] == namespaces[i];
        } else {
          assert last == namespaces[i];
        }
      }
    }
  }

  // ---------------------------------------------------------------------------
  // Sorting
  // ---------------------------------------------------------------------------

  lemma {:induction false} InsertPermutes(x: Route, rs: seq<Route>)
    ensures multiset(Insert(x, rs)) == multiset(rs) + multiset{x}
  {
    if |rs| > 0 && !Precedes(x, rs[0]) {
      InsertPermutes(x, rs[1..]);
      assert rs == [rs[0]] + rs[1..];
    }
  }

  lemma {:induction false} InsertMembers(x: Route, rs: seq<Route>)
    ensures forall y :: y in Insert(x, rs) <==> y == x || y in rs
  {
    if |rs| > 0 && !Precedes(x, rs[0]) {
      InsertMembers(x, rs[1..]);
      assert rs == [rs[0]] + rs[1..];
    }
  }

  lemma {:induction false} InsertSorted(x: Route, rs: seq<Route>)
    requires Sorted(rs)
    ensures Sorted(Insert(x, rs))
  {
    if |rs| > 0 {
      if Precedes(x, rs[0]) {
        forall j | 0 <= j < |rs| ensures Precedes(x, rs[j]) {
          if j > 0 { CompareTransitive(x.template, rs[0].template, rs[j].template); }
        }
      } else {
        var tail := rs[1..];
        InsertSorted(x, tail);
        InsertPermutes(x, tail);
        CompareAntisymmetric(x.template, rs[0].template);
        var ins := Insert(x, tail);
        InsertMembers(x, tail);
        forall j | 0 <= j < |ins| ensures Precedes(rs[0], ins[j]) {
          assert ins[j] in ins;
          if ins[j] != x {
            var k :| 0 <= k < |tail| && tail[k] == ins[j];
            assert rs[k + 1] == tail[k];
          }
        }
      }
    }
  }

  lemma SameClass(a: string, b: string, t: string)
    requires CompareIgnoreCase(a, t) == 0 && CompareIgnoreCase(b, t) == 0
    ensures CompareIgnoreCase(a, b) == 0
  {
    CompareZeroIff(a, t);
    CompareZeroIff(b, t);
    CompareZeroIff(a, b);
  }

  /** Two routes in strictly descending order cannot both have template `t`. */
  lemma NotBothSameTemplate(x: Route, a: Route, t: string)
    requires !Precedes(x, a)
    ensures CompareIgnoreCase(x.template, t) != 0 || CompareIgnoreCase(a.template, t) != 0
  {
    if CompareIgnoreCase(x.template, t) == 0 && CompareIgnoreCase(a.template, t) == 0 {
      SameClass(x.template, a.template, t);
      assert false;
    }
  }

  lemma SameTemplateCons(a: Route, rest: seq<Route>, t: string)
    ensures SameTemplate([a] + rest, t) ==
      (if CompareIgnoreCase(a.template, t) == 0 then [a] else []) + SameTemplate(rest, t)
  {
    assert ([a] + rest)[1..] == rest;
  }

  /** Inserting `x` puts it first among the routes of its own template, and moves no other route. */
  lemma {:induction false} InsertSameTemplate(x: Route, rs: seq<Route>, t: string)
    ensures SameTemplate(Insert(x, rs), t) ==
      (if CompareIgnoreCase(x.template, t) == 0 then [x] else []) + SameTemplate(rs, t)
  {
    if |rs| == 0 || Precedes(x, rs[0]) {
      SameTemplateCons(x, rs, t);
    } else {
      var a, tail := rs[0], rs[1..];
      assert rs == [a] + tail;
      InsertSameTemplate(x, tail, t);
      SameTemplateCons(a, Insert(x, tail), t);
      SameTemplateCons(a, tail, t);
      NotBothSameTemplate(x, a, t);
    }
  }

  /** The sorted table holds the same routes, each as often. */
  lemma {:induction false} SortPermutes(rs: seq<Route>)
    ensures multiset(SortByTemplate(rs)) == multiset(rs)
  {
    if |rs| > 0 {
      SortPermutes(rs[1..]);
      InsertPermutes(rs[0], SortByTemplate(rs[1..]));
      assert rs == [rs[0]] + rs[1..];
    }
  }

  /** The sorted table is ascending by template, ignoring case. */
  lemma {:induction false} SortSorted(rs: seq<Route>)
    ensures Sorted(SortByTemplate(rs))
  {
    if |rs| > 0 {
      SortSorted(rs[1..]);
      InsertSorted(rs[0], SortByTemplate(rs[1..]));
    }
  }

  /** Routes with equal templates keep their registration order. */
  lemma {:induction false} SortStable(rs: seq<Route>)
    ensures StablyOrdered(SortByTemplate(rs), rs)
  {
    if |rs| > 0 {
      SortStable(rs[1..]);
      forall t ensures SameTemplate(SortByTemplate(rs), t) == SameTemplate(rs, t) {
        InsertSameTemplate(rs[0], SortByTemplate(rs[1..]), t);
      }
    }
  }

  lemma SameTemplateOfSelf(rs: seq<Route>)
    requires |rs| > 0
    ensures SameTemplate(rs, rs[0].template) == [rs[0]] + SameTemplate(rs[1..], rs[0].template)
  {
    CompareZeroIff(rs[0].template, rs[0].template);
  }

  lemma {:induction false} SameTemplateMembers(rs: seq<Route>, t: string)
    ensures forall r :: r in SameTemplate(rs, t) <==> r in rs && CompareIgnoreCase(r.template, t) == 0
  {
    if |rs| > 0 {
      SameTemplateMembers(rs[1..], t);
      assert rs == [rs[0]] + rs[1..];
    }
  }

  /**
   * Sorted and stable determine the result: two sorted lists that agree on the order of
   * every template's routes are equal. So any stable sort yields SortByTemplate's result.
   */
  lemma {:induction false} StableSortUnique(a: seq<Route>, b: seq<Route>)
    requires Sorted(a) && Sorted(b)
    requires StablyOrdered(a, b)
    ensures a == b
  {
    if |a| > 0 && |b| > 0 {
      var x, y := a[0], b[0];
      SameTemplateOfSelf(a);
      SameTemplateOfSelf(b);
      assert y in SameTemplate(a, y.template);
      SameTemplateMembers(a, y.template);
      assert x in SameTemplate(b, x.template);
      SameTemplateMembers(b, x.template);
      assert Precedes(x, y) by {
        var k :| 0 <= k < |a| && a[k] == y;
        if k > 0 { assert Precedes(a[0], a[k]); }
        else { CompareZeroIff(x.template, x.template); }
      }
      assert Precedes(y, x) by {
        var k :| 0 <= k < |b| && b[k] == x;
        if k > 0 { assert Precedes(b[0], b[k]); }
        else { CompareZeroIff(y.template, y.template); }
      }
      CompareAntisymmetric(x.template, y.template);
      CompareZeroIff(x.template, y.template);
      CompareCongruent(y.template, x.template, y.template);
      CompareCongruent(x.template, x.template, y.template);
      assert CompareIgnoreCase(y.template, x.template) == 0;
      assert SameTemplate(b, x.template) == [y] + SameTemplate(b[1..], x.template);
      assert SameTemplate(a, x.template) == SameTemplate(b, x.template);
      assert x == SameTemplate(a, x.template)[0] == SameTemplate(b, x.template)[0] == y;
      forall t ensures SameTemplate(a[1..], t) == SameTemplate(b[1..], t) {
        var e := if CompareIgnoreCase(x.template, t) == 0 then [x] else [];
        assert SameTemplate(a, t) == e + SameTemplate(a[1..], t);
        assert SameTemplate(b, t) == e + SameTemplate(b[1..], t);
        assert SameTemplate(a, t) == SameTemplate(b, t);
        assert SameTemplate(a[1..], t) == SameTemplate(a, t)[|e|..];
        assert SameTemplate(b[1..], t) == SameTemplate(b, t)[|e|..];
      }
      StableSortUnique(a[1..], b[1..]);
      assert a == [x] + a[1..] && b == [y] + b[1..];
    } else if |a| > 0 {
      SameTemplateOfSelf(a);
    } else if |b| > 0 {
      SameTemplateOfSelf(b);
    }
  }

  // ---------------------------------------------------------------------------
  // First-match lookup
  // ---------------------------------------------------------------------------

  /** The lowest index whose route's pattern matches the whole path, or None. */
  function FirstMatch(rs: seq<Route>, path: string): (r: Option<nat>)
    ensures r.Some? ==> r.value < |rs| && Matches(rs[r.value].matches, path)
    ensures r.Some? ==> forall j :: 0 <= j < r.value ==> !Matches(rs[j].matches, path)
    ensures r.None? <==> forall j :: 0 <= j < |rs| ==> !Matches(rs[j].matches, path)
  {
    if |rs| == 0 then None
    else if Matches(rs[0].matches, path) then Some(0)
    else match FirstMatch(rs[1..], path)
      case None => None
      case Some(i) => Some(i + 1)
  }

  /** The route the table selects for a path. */
  function Lookup(rs: seq<Route>, path: string): (r: Option<Route>)
    ensures r.Some? <==> exists j :: 0 <= j < |rs| && Matches(rs[j].matches, path)
    ensures r.Some? ==> r.value in rs && Matches(r.value.matches, path)
  {
    match FirstMatch(rs, path)
    case None => None
    case Some(i) => Some(rs[i])
  }

  /**
   * Tie-break: in a sorted table the selected route's template sorts at or before the
   * template of every other route whose pattern matches the path.
   */
  lemma LookupEarliestTemplate(rs: seq<Route>, path: string, j: nat)
    requires Sorted(rs)
    requires j < |rs| && Matches(rs[j].matches, path)
    ensures Lookup(rs, path).Some?
    ensures CompareIgnoreCase(Lookup(rs, path).value.template, rs[j].template) <= 0
  {
    var i := FirstMatch(rs, path).value;
    if i == j {
      CompareZeroIff(rs[i].template, rs[j].template);
    }
  }
}
