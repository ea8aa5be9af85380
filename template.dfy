/**
 * Restful mapping templates such as `/users/{id}/orders/{orderId}`, and the scan that
 * collects their placeholder names with the regular expression `(?:\{(\w+)\}){1,}`.
 */
module Template {
  import opened Text

  /** A piece of a template: literal text, or a `{name}` placeholder. */
  datatype Segment = Lit(text: string) | Var(name: string)

  function SegmentText(g: Segment): string {
    match g
    case Lit(t) => t
    case Var(n) => "{" + n + "}"
  }

  /** The template text a segment list is written as. */
  function Render(segs: seq<Segment>): string {
    if |segs| == 0 then "" else SegmentText(segs[0]) + Render(segs[1..])
  }

  /** Every placeholder name, left to right. */
  function VarNames(segs: seq<Segment>): seq<string> {
    if |segs| == 0 then []
    else match segs[0]
      case Lit(_) => VarNames(segs[1..])
      case Var(n) => [n] + VarNames(segs[1..])
  }

  /**
   * The name of the last placeholder of each maximal run of adjacent placeholders:
   * what a repeated group reports for its capturing group.
   */
  function RunNames(segs: seq<Segment>): seq<string> {
    if |segs| == 0 then []
    else match segs[0]
      case Lit(_) => RunNames(segs[1..])
      case Var(n) =>
        if |segs| > 1 && segs[1].Var? then RunNames(segs[1..]) else [n] + RunNames(segs[1..])
  }

  /** Literals are non-empty and free of `{`; names are non-empty runs of word characters. */
  predicate WellFormed(segs: seq<Segment>) {
    forall i :: 0 <= i < |segs| ==>
      match segs[i]
      case Lit(t) => |t| > 0 && '{' !in t
      case Var(n) => |n| > 0 && forall c :: c in n ==> IsWordChar(c)
  }

  /** No two placeholders stand next to each other. */
  predicate Separated(segs: seq<Segment>) {
    forall i :: 0 <= i < |segs| - 1 && segs[i].Var? ==> segs[i + 1].Lit?
  }

  // ---------------------------------------------------------------------------
  // The key scan: Matcher.find with `(?:\{(\w+)\}){1,}`, then group(1)
  // ---------------------------------------------------------------------------

  /** The length of the longest prefix of `s` made of word characters (greedy `\w+`). */
  function WordRun(s: string): (n: nat)
    ensures n <= |s|
    ensures forall i :: 0 <= i < n ==> IsWordChar(s[i])
    ensures n < |s| ==> !IsWordChar(s[n])
  {
    if |s| > 0 && IsWordChar(s[0]) then 1 + WordRun(s[1..]) else 0
  }

  /** A `\{(\w+)\}` match of length `m` starts `s`: `{`, word characters only, `}`. */
  predicate PlaceholderAt(s: string, m: nat) {
    3 <= m <= |s| && s[0] == '{' && s[m - 1] == '}' && forall i :: 1 <= i < m - 1 ==> IsWordChar(s[i])
  }

  /**
   * The length of the `\{(\w+)\}` match at the start of `s`, or 0 exactly when there is none.
   * A match is unique, since `}` is not a word character.
   */
  function PlaceholderLen(s: string): (n: nat)
    ensures n == 0 || PlaceholderAt(s, n)
    ensures forall m :: PlaceholderAt(s, m) ==> n == m
  {
    if |s| >= 3 && s[0] == '{' then
      var w := WordRun(s[1..]);
      if w > 0 && 1 + w < |s| && s[1 + w] == '}' then w + 2 else 0
    else 0
  }

  /** The length of the greedy `(?: ... ){1,}` match of adjacent placeholders at the start of `s`. */
  function RunLen(s: string): (n: nat)
    requires PlaceholderLen(s) > 0
    ensures PlaceholderLen(s) <= n <= |s|
    decreases |s|
  {
    var k := PlaceholderLen(s);
    if PlaceholderLen(s[k..]) > 0 then k + RunLen(s[k..]) else k
  }

  /** What group(1) reports for that match: the name inside its last placeholder. */
  function RunLastName(s: string): (name: string)
    requires PlaceholderLen(s) > 0
    ensures |name| > 0 && forall c :: c in name ==> IsWordChar(c)
    decreases |s|
  {
    var k := PlaceholderLen(s);
    if PlaceholderLen(s[k..]) > 0 then RunLastName(s[k..]) else s[1..k - 1]
  }

  /** A placeholder starts at `j` in `s`, ends at `e`, and holds `name`. */
  predicate PlaceholderSpan(s: string, j: nat, e: nat, name: string) {
    j + 3 <= e <= |s| && PlaceholderLen(s[j..]) == e - j && name == s[j + 1..e - 1]
  }

  lemma PlaceholderSpanShift(s: string, k: nat, j: nat, e: nat, name: string)
    requires k <= |s| && PlaceholderSpan(s[k..], j, e, name)
    ensures PlaceholderSpan(s, k + j, k + e, name)
  {
    assert s[k..][j..] == s[k + j..];
    assert s[k..][j + 1..e - 1] == s[k + j + 1..k + e - 1];
  }

  /** Where the last placeholder of the run at the start of `s` begins. */
  function LastStart(s: string): nat
    requires PlaceholderLen(s) > 0
    decreases |s|
  {
    var k := PlaceholderLen(s);
    if PlaceholderLen(s[k..]) > 0 then k + LastStart(s[k..]) else 0
  }

  /**
   * The name group(1) reports is the one inside the last placeholder of the run: a
   * placeholder that starts within the run and ends where the run ends.
   */
  lemma {:induction false} RunLastNameIsLast(s: string)
    requires PlaceholderLen(s) > 0
    ensures PlaceholderSpan(s, LastStart(s), RunLen(s), RunLastName(s))
    decreases |s|
  {
    var k := PlaceholderLen(s);
    if PlaceholderLen(s[k..]) > 0 {
      RunLastNameIsLast(s[k..]);
      LastSpanOfLongerRun(s);
    } else {
      LastSpanOfSingleRun(s);
    }
  }

  lemma LastSpanOfLongerRun(s: string)
    requires PlaceholderLen(s) > 0
    requires var t := s[PlaceholderLen(s)..];
      PlaceholderLen(t) > 0 && PlaceholderSpan(t, LastStart(t), RunLen(t), RunLastName(t))
    ensures PlaceholderSpan(s, LastStart(s), RunLen(s), RunLastName(s))
  {
    var k := PlaceholderLen(s);
    var t := s[k..];
    RunStep(s);
    SpanStep(s, k, LastStart(t), RunLen(t), RunLastName(t), LastStart(s), RunLen(s), RunLastName(s));
  }

  lemma SpanStep(s: string, k: nat, j: nat, e: nat, name: string, j': nat, e': nat, name': string)
    requires k <= |s| && PlaceholderSpan(s[k..], j, e, name)
    requires j' == k + j && e' == k + e && name' == name
    ensures PlaceholderSpan(s, j', e', name')
  {
    PlaceholderSpanShift(s, k, j, e, name);
  }

  /** A run that continues after its first placeholder: every quantity is the tail's, shifted. */
  lemma RunStep(s: string)
    requires PlaceholderLen(s) > 0 && PlaceholderLen(s[PlaceholderLen(s)..]) > 0
    ensures var k := PlaceholderLen(s); var t := s[k..];
      && RunLen(s) == k + RunLen(t)
      && LastStart(s) == k + LastStart(t)
      && RunLastName(s) == RunLastName(t)
  {
  }

  lemma LastSpanOfSingleRun(s: string)
    requires PlaceholderLen(s) > 0 && PlaceholderLen(s[PlaceholderLen(s)..]) == 0
    ensures PlaceholderSpan(s, LastStart(s), RunLen(s), RunLastName(s))
  {
    var k := PlaceholderLen(s);
    assert RunLen(s) == k && LastStart(s) == 0;
    assert RunLastName(s) == s[1..k - 1];
    assert s[0..] == s;
  }

  /**
   * The key list of a template: each successful find contributes its group(1), and the
   * next find resumes after the match; where no match starts, the scan moves on one character.
   */
  function Keys(s: string): (keys: seq<string>)
    ensures forall i :: 0 <= i < |keys| ==> |keys[i]| > 0 && forall c :: c in keys[i] ==> IsWordChar(c)
    decreases |s|
  {
    if |s| == 0 then []
    else if PlaceholderLen(s) > 0 then [RunLastName(s)] + Keys(s[RunLen(s)..])
    else Keys(s[1..])
  }

  // ---------------------------------------------------------------------------
  // The key scan on rendered templates
  // ---------------------------------------------------------------------------

  lemma {:induction false} WordRunOfName(n: string, rest: string)
    requires forall c :: c in n ==> IsWordChar(c)
    requires |rest| > 0 && !IsWordChar(rest[0])
    ensures WordRun(n + rest) == |n|
  {
    if |n| > 0 {
      assert n[0] in n;
      assert (n + rest)[1..] == n[1..] + rest;
      forall c | c in n[1..] ensures IsWordChar(c) { assert c in n; }
      WordRunOfName(n[1..], rest);
    }
  }

  lemma PlaceholderOfVar(n: string, rest: string)
    requires |n| > 0 && forall c :: c in n ==> IsWordChar(c)
    ensures PlaceholderLen(SegmentText(Var(n)) + rest) == |n| + 2
    ensures var s := SegmentText(Var(n)) + rest;
      s[1..|n| + 1] == n && s[|n| + 2..] == rest
  {
    var s := "{" + n + "}" + rest;
    assert s[1..] == n + ("}" + rest);
    WordRunOfName(n, "}" + rest);
    assert s[1 + |n|] == '}';
  }

  /** Literal text without `{` contributes no keys. */
  lemma {:induction false} KeysSkipLiteral(x: string, y: string)
    requires '{' !in x
    ensures Keys(x + y) == Keys(y)
  {
    if |x| > 0 {
      assert (x + y)[0] == x[0] && x[0] in x;
      assert (x + y)[1..] == x[1..] + y;
      assert '{' !in x[1..] by {
        forall i | 0 <= i < |x[1..]| ensures x[1..][i] != '{' { assert x[1..][i] == x[i + 1]; }
      }
      KeysSkipLiteral(x[1..], y);
    } else {
      assert x + y == y;
    }
  }

  /** Where a rendered list starts, a placeholder match starts exactly when it starts with a Var. */
  lemma PlaceholderAtRender(segs: seq<Segment>)
    requires WellFormed(segs)
    ensures PlaceholderLen(Render(segs)) > 0 <==> (|segs| > 0 && segs[0].Var?)
  {
    if |segs| > 0 {
      match segs[0]
      case Lit(t) =>
        assert Render(segs) == t + Render(segs[1..]);
        assert t[0] in t;
        assert Render(segs)[0] == t[0];
      case Var(n) =>
        PlaceholderOfVar(n, Render(segs[1..]));
    }
  }

  lemma WellFormedTail(segs: seq<Segment>)
    requires WellFormed(segs) && |segs| > 0
    ensures WellFormed(segs[1..])
  {
    forall i | 0 <= i < |segs[1..]| ensures segs[1..][i] == segs[i + 1] { }
  }

  /** A placeholder right before another match start joins that run. */
  lemma PlaceholderJoinsRun(n: string, r: string)
    requires |n| > 0 && forall c :: c in n ==> IsWordChar(c)
    requires PlaceholderLen(r) > 0
    ensures Keys(SegmentText(Var(n)) + r) == Keys(r)
  {
    var s := SegmentText(Var(n)) + r;
    PlaceholderOfVar(n, r);
    var k := |n| + 2;
    assert s[k..] == r;
    assert RunLen(s) == k + RunLen(r);
    assert RunLastName(s) == RunLastName(r);
    assert s[RunLen(s)..] == r[RunLen(r)..];
  }

  /** A placeholder not followed by another match start is a run of its own. */
  lemma PlaceholderEndsRun(n: string, r: string)
    requires |n| > 0 && forall c :: c in n ==> IsWordChar(c)
    requires PlaceholderLen(r) == 0
    ensures Keys(SegmentText(Var(n)) + r) == [n] + Keys(r)
  {
    var s := SegmentText(Var(n)) + r;
    PlaceholderOfVar(n, r);
    var k := |n| + 2;
    assert s[k..] == r;
    assert RunLen(s) == k;
    assert RunLastName(s) == n;
  }

  /**
   * One placeholder followed by text `r`: it joins the run starting in `r` when there is
   * one (so only that run's last name counts), and gives its own name otherwise.
   */
  lemma KeysAfterPlaceholder(n: string, r: string)
    requires |n| > 0 && forall c :: c in n ==> IsWordChar(c)
    ensures Keys(SegmentText(Var(n)) + r) ==
      if PlaceholderLen(r) > 0 then Keys(r) else [n] + Keys(r)
  {
    if PlaceholderLen(r) > 0 {
      PlaceholderJoinsRun(n, r);
    } else {
      PlaceholderEndsRun(n, r);
    }
  }

  /**
   * The key list of a rendered template is the list of run names: placeholders separated
   * by literal text each give their own name, a run of adjacent placeholders only its last.
   */
  lemma {:induction false} KeysOfRender(segs: seq<Segment>)
    requires WellFormed(segs)
    ensures Keys(Render(segs)) == RunNames(segs)
  {
    if |segs| > 0 {
      WellFormedTail(segs);
      var rest := segs[1..];
      KeysOfRender(rest);
      match segs[0]
      case Lit(t) =>
        KeysSkipLiteral(t, Render(rest));
      case Var(n) =>
        PlaceholderAtRender(rest);
        KeysAfterPlaceholder(n, Render(rest));
    }
  }

  /** Without adjacent placeholders, there is one key per placeholder, left to right. */
  lemma {:induction false} SeparatedRunNames(segs: seq<Segment>)
    requires Separated(segs)
    ensures RunNames(segs) == VarNames(segs)
  {
    if |segs| > 0 {
      assert Separated(segs[1..]) by {
        forall i | 0 <= i < |segs[1..]| - 1 && segs[1..][i].Var? ensures segs[1..][i + 1].Lit? {
          assert segs[i + 1].Var?;
        }
      }
      SeparatedRunNames(segs[1..]);
    }
  }

  /** Separated placeholders of a well-formed template: the key list is exactly the names in order. */
  lemma KeysAreVarNames(segs: seq<Segment>)
    requires WellFormed(segs) && Separated(segs)
    ensures Keys(Render(segs)) == VarNames(segs)
  {
    KeysOfRender(segs);
    SeparatedRunNames(segs);
  }

  /** The adjacent-placeholder quirk: `{a}{b}` yields the single key `b`. */
  lemma AdjacentPlaceholdersKeepLast()
    ensures Keys("{a}{b}") == ["b"]
  {
    var segs := [Var("a"), Var("b")];
    assert Render(segs) == "{a}{b}" by {
      assert Render(segs[1..][1..]) == "";
    }
    KeysOfRender(segs);
    assert RunNames(segs[1..]) == ["b"];
  }
}
