/**
 * Parameter maps, the per-name lists of path-variable values, and the merge of those
 * lists over the request's own parameters.
 */
module Params {

  /** A parameter map: name to its values, as ServletRequest.getParameterMap gives it. */
  type ParamMap = map<string, seq<string>>

  /** One path variable bound to one captured value. */
  type Binding = (string, string)

  predicate NoDup(s: seq<string>) {
    forall i, j :: 0 <= i < j < |s| ==> s[i] != s[j]
  }

  /** Adding to a value list unless it already contains the value. */
  function AddIfAbsent(list: seq<string>, v: string): seq<string> {
    if v in list then list else list + [v]
  }

  /** Folding a value sequence, front to back, into a list without duplicates. */
  function Dedup(s: seq<string>): seq<string> {
    if |s| == 0 then [] else AddIfAbsent(Dedup(s[..|s| - 1]), s[|s| - 1])
  }

  /** The position of the first occurrence of `x` in `s`. */
  function FirstIndex(s: seq<string>, x: string): (i: nat)
    requires x in s
    ensures i < |s| && s[i] == x
    ensures forall j :: 0 <= j < i ==> s[j] != x
  {
    if s[0] == x then 0 else 1 + FirstIndex(s[1..], x)
  }

  /** The list keeps first-seen order: earlier entries were first seen earlier in `s`. */
  predicate FirstSeenOrder(s: seq<string>, d: seq<string>)
    requires forall x :: x in d ==> x in s
  {
    forall i, j :: 0 <= i < j < |d| ==> FirstIndex(s, d[i]) < FirstIndex(s, d[j])
  }

  /** The values bound to `k`, in binding order (repeats included). */
  function ValuesOf(k: string, b: seq<Binding>): seq<string> {
    if |b| == 0 then []
    else ValuesOf(k, b[..|b| - 1]) + (if b[|b| - 1].0 == k then [b[|b| - 1].1] else [])
  }

  /** The names that occur in a binding list. */
  function NamesOf(b: seq<Binding>): set<string> {
    set i | 0 <= i < |b| :: b[i].0
  }

  /** The path-variable map: each bound name to its values without duplicates. */
  function Group(b: seq<Binding>): ParamMap {
    map k | k in NamesOf(b) :: Dedup(ValuesOf(k, b))
  }

  /** Key i bound to value i, positionally. */
  function Bindings(keys: seq<string>, vals: seq<string>): (b: seq<Binding>)
    requires |keys| <= |vals|
    ensures |b| == |keys|
    ensures forall i :: 0 <= i < |keys| ==> b[i] == (keys[i], vals[i])
  {
    seq(|keys|, i requires 0 <= i < |keys| => (keys[i], vals[i]))
  }

  /** The request's parameters overridden by the path variables (putAll, then put per name). */
  function Merge(request: ParamMap, path: ParamMap): (m: ParamMap)
    ensures forall k :: k in m <==> k in request || k in path
    ensures forall k :: k in path ==> m[k] == path[k]
    ensures forall k :: k in request && k !in path ==> m[k] == request[k]
  {
    request + path
  }

  // ---------------------------------------------------------------------------
  // Deduplication
  // ---------------------------------------------------------------------------

  /** The folded list has no duplicates and exactly the values of the input. */
  lemma {:induction false} DedupElements(s: seq<string>)
    ensures NoDup(Dedup(s))
    ensures forall x :: x in Dedup(s) <==> x in s
  {
    if |s| > 0 {
      var p := s[..|s| - 1];
      DedupElements(p);
      assert s == p + [s[|s| - 1]];
    }
  }

  lemma FirstIndexOfPrefix(p: seq<string>, x: string, y: string)
    requires y in p
    ensures FirstIndex(p + [x], y) == FirstIndex(p, y)
  {
    var s := p + [x];
    var i, j := FirstIndex(s, y), FirstIndex(p, y);
    assert s[j] == y;
    assert p[i] == y;
  }

  /** The folded list keeps the order in which values were first seen. */
  lemma {:induction false} DedupFirstSeen(s: seq<string>)
    ensures forall x :: x in Dedup(s) ==> x in s
    ensures FirstSeenOrder(s, Dedup(s))
  {
    DedupElements(s);
    if |s| > 0 {
      var p, x := s[..|s| - 1], s[|s| - 1];
      assert s == p + [x];
      DedupFirstSeen(p);
      DedupElements(p);
      var d, d' := Dedup(s), Dedup(p);
      forall i, j | 0 <= i < j < |d| ensures FirstIndex(s, d[i]) < FirstIndex(s, d[j]) {
        FirstIndexOfPrefix(p, x, d[i]);
        if j < |d'| {
          FirstIndexOfPrefix(p, x, d[j]);
        } else {
          assert d[j] == x && x !in p;
          assert FirstIndex(s, x) == |p|;
        }
      }
    }
  }

  // ---------------------------------------------------------------------------
  // Grouping bindings by name
  // ---------------------------------------------------------------------------

  lemma {:induction false} ValuesOfMembers(k: string, b: seq<Binding>)
    ensures forall v :: v in ValuesOf(k, b) <==> (k, v) in b
  {
    if |b| > 0 {
      var p := b[..|b| - 1];
      ValuesOfMembers(k, p);
      assert b == p + [b[|b| - 1]];
    }
  }

  lemma ValuesOfAbsent(k: string, b: seq<Binding>)
    requires k !in NamesOf(b)
    ensures ValuesOf(k, b) == []
  {
    ValuesOfMembers(k, b);
  }

  lemma NamesStep(b: seq<Binding>, k: string, v: string)
    ensures NamesOf(b + [(k, v)]) == NamesOf(b) + {k}
  {
    var b' := b + [(k, v)];
    forall n | n in NamesOf(b') ensures n in NamesOf(b) + {k} {
      var i :| 0 <= i < |b'| && b'[i].0 == n;
      if i < |b| { assert b[i].0 == n; }
    }
    forall n | n in NamesOf(b) ensures n in NamesOf(b') {
      var i :| 0 <= i < |b| && b[i].0 == n;
      assert b'[i].0 == n;
    }
    assert b'[|b|].0 == k;
  }

  lemma ValuesOfStep(b: seq<Binding>, k: string, v: string, n: string)
    ensures ValuesOf(n, b + [(k, v)]) == ValuesOf(n, b) + (if n == k then [v] else [])
  {
    assert (b + [(k, v)])[..|b|] == b;
  }

  lemma GroupAtStep(b: seq<Binding>, k: string, v: string)
    ensures Dedup(ValuesOf(k, b + [(k, v)])) == AddIfAbsent(if k in Group(b) then Group(b)[k] else [], v)
  {
    if k !in NamesOf(b) {
      ValuesOfAbsent(k, b);
    }
    var vs := ValuesOf(k, b);
    ValuesOfStep(b, k, v, k);
    assert (vs + [v])[..|vs|] == vs;
  }

  /** One more binding updates only its own name's list, folding the value in. */
  lemma GroupStep(b: seq<Binding>, k: string, v: string)
    ensures Group(b + [(k, v)]) == Group(b)[k := AddIfAbsent(if k in Group(b) then Group(b)[k] else [], v)]
  {
    var b' := b + [(k, v)];
    var g, g' := Group(b), Group(b');
    var h := g[k := AddIfAbsent(if k in g then g[k] else [], v)];
    NamesStep(b, k, v);
    GroupAtStep(b, k, v);
    assert g'.Keys == h.Keys;
    assert g'[k] == h[k];
    forall n | n in g' && n != k ensures g'[n] == h[n] {
      ValuesOfStep(b, k, v, n);
      assert ValuesOf(n, b') == ValuesOf(n, b);
      assert n in NamesOf(b);
      assert g'[n] == Dedup(ValuesOf(n, b'));
      assert g[n] == Dedup(ValuesOf(n, b));
    }
    assert forall n :: n in g' ==> g'[n] == h[n];
  }

  /**
   * The path-variable map binds exactly the bound names; each list holds exactly the
   * values bound to that name, without duplicates, in first-seen order.
   */
  lemma GroupSpec(b: seq<Binding>, k: string)
    ensures k in Group(b) <==> exists i :: 0 <= i < |b| && b[i].0 == k
    ensures k in Group(b) ==> NoDup(Group(b)[k])
    ensures k in Group(b) ==> forall v :: v in Group(b)[k] <==> (k, v) in b
    ensures k in Group(b) ==> forall v :: v in Group(b)[k] ==> v in ValuesOf(k, b)
    ensures k in Group(b) ==> FirstSeenOrder(ValuesOf(k, b), Group(b)[k])
  {
    DedupElements(ValuesOf(k, b));
    DedupFirstSeen(ValuesOf(k, b));
    ValuesOfMembers(k, b);
  }

  /**
   * Positional bindings grouped by name: the names are exactly the keys, and each name's
   * list holds, without duplicates, exactly the values at the positions of that name.
   */
  lemma GroupBindingsSpec(keys: seq<string>, vals: seq<string>, k: string)
    requires |keys| <= |vals|
    ensures k in Group(Bindings(keys, vals)) <==> k in keys
    ensures k in keys ==> NoDup(Group(Bindings(keys, vals))[k])
    ensures k in keys ==> forall v :: v in Group(Bindings(keys, vals))[k] <==>
      exists i :: 0 <= i < |keys| && keys[i] == k && vals[i] == v
  {
    var b := Bindings(keys, vals);
    GroupSpec(b, k);
    if k in keys {
      var i0 :| 0 <= i0 < |keys| && keys[i0] == k;
      assert b[i0].0 == k;
    }
    if k in Group(b) {
      var i0 :| 0 <= i0 < |b| && b[i0].0 == k;
      assert keys[i0] == k;
    }
    forall v ensures (k, v) in b <==> exists i :: 0 <= i < |keys| && keys[i] == k && vals[i] == v {
      if (k, v) in b {
        var i :| 0 <= i < |b| && b[i] == (k, v);
        assert keys[i] == k && vals[i] == v;
      }
      if exists i :: 0 <= i < |keys| && keys[i] == k && vals[i] == v {
        var i :| 0 <= i < |keys| && keys[i] == k && vals[i] == v;
        assert b[i] == (k, v);
      }
    }
  }

  lemma MergeOverrides(request: ParamMap, k: string, list: seq<string>)
    ensures Merge(request, map[k := list]) == request[k := list]
  {
  }

  lemma GroupOfOne(k: string, v: string)
    ensures Group([(k, v)]) == map[k := [v]]
  {
    assert NamesOf([]) == {};
    var none: seq<Binding> := [];
    assert Group(none) == map[];
    assert k !in Group(none);
    assert none + [(k, v)] == [(k, v)];
    GroupStep(none, k, v);
    assert AddIfAbsent([], v) == [v];
  }

  /** A name bound to the same value twice gets that value once. */
  lemma RepeatedValueFolded(k: string, v: string)
    ensures Group(Bindings([k, k], [v, v])) == map[k := [v]]
  {
    var b := Bindings([k, k], [v, v]);
    assert b == [(k, v)] + [(k, v)];
    GroupOfOne(k, v);
    GroupStep([(k, v)], k, v);
    assert AddIfAbsent([v], v) == [v];
  }

  /** A name bound to two different values keeps both, in first-seen order. */
  lemma DistinctValuesKept(k: string, v: string, w: string)
    requires v != w
    ensures Group(Bindings([k, k], [v, w])) == map[k := [v, w]]
  {
    var b := Bindings([k, k], [v, w]);
    assert b == [(k, v)] + [(k, w)];
    GroupOfOne(k, v);
    GroupStep([(k, v)], k, w);
    assert AddIfAbsent([v], w) == [v, w];
  }
}
