/**
 * The compiled match pattern of a route, as a segment list: a literal matches its own
 * characters and a placeholder is the capturing group `([^/]+)`, greedy with backtracking.
 * Full-string matching and the captures of that match, as `String.matches` and the
 * matcher's groups report them for patterns of this shape.
 */
module Pattern {
  import opened Template

  datatype Option<T> = None | Some(value: T)

  /** The number of capturing groups of a pattern (Matcher.groupCount). */
  function GroupCount(p: seq<Segment>): nat {
    if |p| == 0 then 0 else (if p[0].Var? then 1 else 0) + GroupCount(p[1..])
  }

  /** The length of the longest prefix of `s` free of `/`: the first candidate of greedy `[^/]+`. */
  function SegmentRun(s: string): (n: nat)
    ensures n <= |s|
    ensures forall i :: 0 <= i < n ==> s[i] != '/'
    ensures n < |s| ==> s[n] == '/'
  {
    if |s| > 0 && s[0] != '/' then 1 + SegmentRun(s[1..]) else 0
  }

  /** The captures of a full match of `p` against all of `s`, or None. */
  function Match(p: seq<Segment>, s: string): (r: Option<seq<string>>)
    ensures r.Some? ==> |r.value| == GroupCount(p)
    decreases |p|, |s| + 1
  {
    if |p| == 0 then (if |s| == 0 then Some([]) else None)
    else match p[0]
      case Lit(t) => if t <= s then Match(p[1..], s[|t|..]) else None
      case Var(_) => TryRun(p[1..], s, SegmentRun(s))
  }

  /** Backtracking over a placeholder: try a capture of length k, then shorter ones. */
  function TryRun(rest: seq<Segment>, s: string, k: nat): (r: Option<seq<string>>)
    requires k <= |s|
    ensures r.Some? ==> |r.value| == 1 + GroupCount(rest)
    decreases |rest| + 1, k
  {
    if k == 0 then None
    else match Match(rest, s[k..])
      case Some(c) => Some([s[..k]] + c)
      case None => TryRun(rest, s, k - 1)
  }

  /** `path.matches(pattern)`: the whole path matches. */
  predicate Matches(p: seq<Segment>, s: string) {
    Match(p, s).Some?
  }

  /** A capture is what `[^/]+` can match: non-empty and free of `/`. */
  predicate IsCapture(v: string) {
    |v| > 0 && '/' !in v
  }

  /** The path obtained by putting `vals` into the placeholders of `p`, in order. */
  function Fill(p: seq<Segment>, vals: seq<string>): string
    requires |vals| == GroupCount(p)
  {
    if |p| == 0 then ""
    else match p[0]
      case Lit(t) => t + Fill(p[1..], vals)
      case Var(_) => vals[0] + Fill(p[1..], vals[1..])
  }

  /** Every literal that follows a placeholder starts with `/`. */
  predicate SlashSeparated(p: seq<Segment>) {
    forall i :: 0 <= i < |p| - 1 && p[i].Var? ==> (p[i + 1].Lit? && |p[i + 1].text| > 0 && p[i + 1].text[0] == '/')
  }

  // ---------------------------------------------------------------------------
  // Properties of the match
  // ---------------------------------------------------------------------------

  /** A successful match has one capture per group, each a valid `[^/]+` capture. */
  lemma {:induction false} MatchCaptures(p: seq<Segment>, s: string)
    requires Match(p, s).Some?
    ensures |Match(p, s).value| == GroupCount(p)
    ensures forall i :: 0 <= i < GroupCount(p) ==> IsCapture(Match(p, s).value[i])
    decreases |p|, |s| + 1
  {
    if |p| > 0 {
      match p[0]
      case Lit(t) => MatchCaptures(p[1..], s[|t|..]);
      case Var(_) => TryRunCaptures(p[1..], s, SegmentRun(s));
    }
  }

  lemma {:induction false} TryRunCaptures(rest: seq<Segment>, s: string, k: nat)
    requires k <= SegmentRun(s)
    requires TryRun(rest, s, k).Some?
    ensures |TryRun(rest, s, k).value| == 1 + GroupCount(rest)
    ensures forall i :: 0 <= i < 1 + GroupCount(rest) ==> IsCapture(TryRun(rest, s, k).value[i])
    decreases |rest| + 1, k
  {
    match Match(rest, s[k..])
    case Some(c) =>
      MatchCaptures(rest, s[k..]);
      var r := TryRun(rest, s, k).value;
      assert r == [s[..k]] + c;
      assert '/' !in s[..k] by {
        forall i | 0 <= i < k ensures s[..k][i] != '/' { assert s[..k][i] == s[i]; }
      }
    case None =>
      TryRunCaptures(rest, s, k - 1);
  }

  /** A match is sound: putting the captures back into the pattern rebuilds the path. */
  lemma {:induction false} MatchSound(p: seq<Segment>, s: string)
    requires Match(p, s).Some?
    ensures |Match(p, s).value| == GroupCount(p)
    ensures Fill(p, Match(p, s).value) == s
    decreases |p|, |s| + 1
  {
    MatchCaptures(p, s);
    if |p| > 0 {
      match p[0]
      case Lit(t) =>
        MatchSound(p[1..], s[|t|..]);
        assert s == t + s[|t|..];
      case Var(_) =>
        TryRunSound(p[1..], s, SegmentRun(s));
    }
  }

  lemma {:induction false} TryRunSound(rest: seq<Segment>, s: string, k: nat)
    requires k <= |s|
    requires TryRun(rest, s, k).Some?
    ensures |TryRun(rest, s, k).value| == 1 + GroupCount(rest)
    ensures var r := TryRun(rest, s, k).value; r[0] + Fill(rest, r[1..]) == s
    decreases |rest| + 1, k
  {
    match Match(rest, s[k..])
    case Some(c) =>
      MatchSound(rest, s[k..]);
      var r := TryRun(rest, s, k).value;
      assert r == [s[..k]] + c && r[1..] == c;
      assert s == s[..k] + s[k..];
    case None =>
      TryRunSound(rest, s, k - 1);
  }

  lemma {:induction false} SegmentRunOfCapture(v: string, tail: string)
    requires '/' !in v
    requires |tail| == 0 || tail[0] == '/'
    ensures SegmentRun(v + tail) == |v|
  {
    if |v| > 0 {
      assert v[0] in v;
      assert (v + tail)[1..] == v[1..] + tail;
      assert '/' !in v[1..] by {
        forall i | 0 <= i < |v| - 1 ensures v[1..][i] != '/' { assert v[1..][i] == v[i + 1]; }
      }
      SegmentRunOfCapture(v[1..], tail);
    } else {
      assert v + tail == tail;
    }
  }

  lemma FillEmptyOrSlash(p: seq<Segment>, vals: seq<string>)
    requires |vals| == GroupCount(p)
    requires |p| > 0 ==> p[0].Lit? && |p[0].text| > 0 && p[0].text[0] == '/'
    ensures var f := Fill(p, vals); |f| == 0 || f[0] == '/'
  {
  }

  lemma SlashSeparatedTail(p: seq<Segment>)
    requires SlashSeparated(p) && |p| > 0
    ensures SlashSeparated(p[1..])
  {
    forall i | 0 <= i < |p[1..]| - 1 && p[1..][i].Var?
      ensures p[1..][i + 1].Lit? && |p[1..][i + 1].text| > 0 && p[1..][i + 1].text[0] == '/'
    {
      assert p[1..][i] == p[i + 1] && p[1..][i + 1] == p[i + 2];
    }
  }

  /**
   * Round trip: when every placeholder is followed by the end or by a `/`, a path built by
   * filling the placeholders with captures matches, and the match recovers exactly those values.
   */
  lemma {:induction false} MatchFill(p: seq<Segment>, vals: seq<string>)
    requires SlashSeparated(p)
    requires |vals| == GroupCount(p)
    requires forall i :: 0 <= i < |vals| ==> IsCapture(vals[i])
    ensures Match(p, Fill(p, vals)) == Some(vals)
  {
    if |p| > 0 {
      SlashSeparatedTail(p);
      var s := Fill(p, vals);
      match p[0]
      case Lit(t) =>
        MatchFill(p[1..], vals);
        assert s == t + Fill(p[1..], vals);
        assert s[|t|..] == Fill(p[1..], vals);
      case Var(_) =>
        var f := Fill(p[1..], vals[1..]);
        assert s == vals[0] + f;
        FillEmptyOrSlash(p[1..], vals[1..]);
        SegmentRunOfCapture(vals[0], f);
        MatchFill(p[1..], vals[1..]);
        assert s[|vals[0]|..] == f && s[..|vals[0]|] == vals[0];
        assert [vals[0]] + vals[1..] == vals;
    }
  }
}
