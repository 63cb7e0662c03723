/** The occurrence scan that the binary analysers of the repository share:
    `pos = data.find(pattern, pos)` in a loop, a report per hit with some of
    the bytes around it, then `pos += len(pattern)`, so that hits of one
    pattern never overlap; several patterns are scanned one after the other
    in the order of their list. */
module Search {
  import opened Bytes

  /** `data[p:p+len(pat)] == pat`, with the match lying inside the data. */
  predicate OccursAt(data: seq<byte>, pat: seq<byte>, p: int)
  {
    0 <= p && p + |pat| <= |data| && data[p..p + |pat|] == pat
  }

  /** The first `n` bytes of `pat` sit at `data[p..]`, compared from the
      last of them back. */
  predicate MatchesAt(data: seq<byte>, pat: seq<byte>, p: nat, n: nat)
    requires n <= |pat| && p + |pat| <= |data|
  {
    n == 0 || (data[p + n - 1] == pat[n - 1] && MatchesAt(data, pat, p, n - 1))
  }

  lemma {:induction false} MatchesAtAgrees(data: seq<byte>, pat: seq<byte>, p: nat, n: nat)
    requires n <= |pat| && p + |pat| <= |data|
    ensures MatchesAt(data, pat, p, n) <==> forall i :: 0 <= i < n ==> data[p + i] == pat[i]
  {
    if n > 0 {
      MatchesAtAgrees(data, pat, p, n - 1);
    }
  }

  /** The byte-by-byte comparison is the slice comparison. */
  lemma MatchesAtIsOccurrence(data: seq<byte>, pat: seq<byte>, p: nat)
    requires p + |pat| <= |data|
    ensures MatchesAt(data, pat, p, |pat|) <==> OccursAt(data, pat, p)
  {
    MatchesAtAgrees(data, pat, p, |pat|);
    if OccursAt(data, pat, p) {
      forall i | 0 <= i < |pat|
        ensures data[p + i] == pat[i]
      {
        assert data[p..p + |pat|][i] == data[p + i];
      }
    }
  }

  /** Python's `data.find(pat, from)`: the first occurrence at or after
      `from`, or -1 when there is none. */
  function Find(data: seq<byte>, pat: seq<byte>, from: nat): (r: int)
    requires from <= |data|
    ensures r == -1 || (from <= r && r + |pat| <= |data|)
    decreases |data| - from
  {
    if from + |pat| > |data| then -1
    else if MatchesAt(data, pat, from, |pat|) then from
    else if from == |data| then -1
    else Find(data, pat, from + 1)
  }

  /** `find` answers with the first occurrence at or after `from`, and with
      -1 exactly when there is none. */
  lemma {:induction false} FindSound(data: seq<byte>, pat: seq<byte>, from: nat)
    requires from <= |data|
    ensures Find(data, pat, from) == -1 ||
      (from <= Find(data, pat, from) && OccursAt(data, pat, Find(data, pat, from)))
    ensures forall q :: from <= q < Find(data, pat, from) ==> !OccursAt(data, pat, q)
    ensures Find(data, pat, from) == -1 ==> forall q :: from <= q ==> !OccursAt(data, pat, q)
    decreases |data| - from
  {
    if from + |pat| <= |data| {
      MatchesAtIsOccurrence(data, pat, from);
      if !MatchesAt(data, pat, from, |pat|) && from < |data| {
        FindSound(data, pat, from + 1);
      }
    }
  }

  /** The positions the scan loop reports when started at `from`: each
      occurrence found, then the search resumes just past it. */
  function Occurrences(data: seq<byte>, pat: seq<byte>, from: nat): seq<nat>
    requires |pat| > 0 && from <= |data|
    decreases |data| - from
  {
    var p := Find(data, pat, from);
    if p == -1 then [] else [p] + Occurrences(data, pat, p + |pat|)
  }

  /** Every reported position is a true occurrence at or after `from`, and
      the positions increase by at least the pattern's length: the reports
      never overlap. */
  lemma {:induction false} OccurrencesSound(data: seq<byte>, pat: seq<byte>, from: nat)
    requires |pat| > 0 && from <= |data|
    ensures forall k :: 0 <= k < |Occurrences(data, pat, from)| ==>
      from <= Occurrences(data, pat, from)[k] && OccursAt(data, pat, Occurrences(data, pat, from)[k])
    ensures forall k, l :: 0 <= k < l < |Occurrences(data, pat, from)| ==>
      Occurrences(data, pat, from)[k] + |pat| <= Occurrences(data, pat, from)[l]
    decreases |data| - from
  {
    var r := Occurrences(data, pat, from);
    var p := Find(data, pat, from);
    FindSound(data, pat, from);
    if p != -1 {
      var rest := Occurrences(data, pat, p + |pat|);
      OccurrencesSound(data, pat, p + |pat|);
      assert r == [p] + rest;
      forall k | 0 <= k < |r|
        ensures from <= r[k] && OccursAt(data, pat, r[k])
      {
        if k > 0 {
          assert r[k] == rest[k - 1];
          assert from <= r[k];
        } else {
          assert r[k] == p;
          assert from <= p;
        }
      }
      forall k, l | 0 <= k < l < |r|
        ensures r[k] + |pat| <= r[l]
      {
        assert r[l] == rest[l - 1];
        if k > 0 {
          assert r[k] == rest[k - 1];
        }
      }
    }
  }

  /** The reported occurrence that covers an occurrence at `q`. */
  lemma {:induction false} CoveringOccurrence(data: seq<byte>, pat: seq<byte>, from: nat, q: int) returns (k: nat)
    requires |pat| > 0 && from <= |data|
    requires from <= q && OccursAt(data, pat, q)
    ensures k < |Occurrences(data, pat, from)|
    ensures Occurrences(data, pat, from)[k] <= q < Occurrences(data, pat, from)[k] + |pat|
    decreases |data| - from
  {
    var p := Find(data, pat, from);
    FindSound(data, pat, from);
    assert p != -1;
    var rest := Occurrences(data, pat, p + |pat|);
    assert Occurrences(data, pat, from) == [p] + rest;
    if q < p + |pat| {
      k := 0;
    } else {
      var j := CoveringOccurrence(data, pat, p + |pat|, q);
      k := j + 1;
    }
  }

  /** Nothing is missed: every occurrence at or after `from` is either
      reported or overlaps the reported occurrence that starts before it. */
  lemma OccurrencesCover(data: seq<byte>, pat: seq<byte>, from: nat, q: int)
    requires |pat| > 0 && from <= |data|
    requires from <= q && OccursAt(data, pat, q)
    ensures exists k :: (0 <= k < |Occurrences(data, pat, from)| &&
      Occurrences(data, pat, from)[k] <= q < Occurrences(data, pat, from)[k] + |pat|)
  {
    var k := CoveringOccurrence(data, pat, from, q);
  }

  /** Python's `data[a:b]` for non-negative bounds: both ends are cut back
      to the length of the data. */
  function Slice(data: seq<byte>, a: nat, b: nat): (r: seq<byte>)
    ensures |r| == Max(0, Min(b, |data|) - a)
    ensures forall k :: 0 <= k < |r| ==> r[k] == data[a + k]
  {
    var lo := Min(a, |data|);
    data[lo..Max(lo, Min(b, |data|))]
  }

  /** How much of the data a report keeps: `radius` bytes on either side of
      the match, or `length` bytes from the start of the match on. */
  datatype ContextRule = Around(radius: nat) | Ahead(length: nat)

  function Context(data: seq<byte>, pat: seq<byte>, p: nat, rule: ContextRule): seq<byte>
  {
    match rule
    case Around(radius) => Slice(data, Max(0, p - radius), p + |pat| + radius)
    case Ahead(length) => Slice(data, p, p + length)
  }

  /** Window `c` around the match of `pat` at `p` holds the match, at most
      `radius` bytes into the window, and is never longer than the match
      plus both margins. */
  predicate HoldsMatchAround(pat: seq<byte>, p: nat, c: seq<byte>, radius: nat)
  {
    var lead := p - Max(0, p - radius);
    lead <= radius && |c| <= |pat| + 2 * radius &&
    lead + |pat| <= |c| && c[lead..lead + |pat|] == pat
  }

  lemma AroundContextHoldsMatch(data: seq<byte>, pat: seq<byte>, p: nat, radius: nat)
    requires OccursAt(data, pat, p)
    ensures HoldsMatchAround(pat, p, Context(data, pat, p, Around(radius)), radius)
  {
    var c := Context(data, pat, p, Around(radius));
    var lo := Max(0, p - radius);
    var lead := p - lo;
    forall k | 0 <= k < |pat|
      ensures c[lead + k] == pat[k]
    {
      assert c[lead + k] == data[lo + lead + k];
      assert data[p..p + |pat|][k] == data[p + k];
    }
  }

  /** A block taken from the match on begins with the match when it is at
      least as long, and holds the rest of the data when that is shorter. */
  lemma AheadContextStartsWithMatch(data: seq<byte>, pat: seq<byte>, p: nat, length: nat)
    requires OccursAt(data, pat, p)
    ensures var c := Context(data, pat, p, Ahead(length));
      |c| == Min(length, |data| - p) &&
      (|pat| <= length ==> c[..|pat|] == pat) &&
      (length < |pat| ==> c == pat[..length])
  {
    var c := Context(data, pat, p, Ahead(length));
    forall k | 0 <= k < Min(length, |pat|)
      ensures c[k] == pat[k]
    {
      assert data[p..p + |pat|][k] == data[p + k];
    }
  }

  /** One report: the pattern, where it was found and the kept bytes. */
  datatype Hit = Hit(pattern: seq<byte>, position: nat, context: seq<byte>)

  /** The reports of a whole scan for one pattern, in scan order. */
  function Hits(data: seq<byte>, pat: seq<byte>, rule: ContextRule): seq<Hit>
    requires |pat| > 0
  {
    var occ := Occurrences(data, pat, 0);
    seq(|occ|, k requires 0 <= k < |occ| => Hit(pat, occ[k], Context(data, pat, occ[k], rule)))
  }

  /** Each report of a scan names its pattern, a true occurrence of it and
      the context the rule cuts around that occurrence; the reports come in
      increasing, non-overlapping positions. */
  lemma HitsSound(data: seq<byte>, pat: seq<byte>, rule: ContextRule)
    requires |pat| > 0
    ensures Reports(data, [pat], rule, Hits(data, pat, rule))
    ensures forall k, l :: 0 <= k < l < |Hits(data, pat, rule)| ==>
      Hits(data, pat, rule)[k].position + |pat| <= Hits(data, pat, rule)[l].position
  {
    var occ := Occurrences(data, pat, 0);
    var r := Hits(data, pat, rule);
    OccurrencesSound(data, pat, 0);
    assert |r| == |occ|;
    assert forall k :: 0 <= k < |r| ==> r[k] == Hit(pat, occ[k], Context(data, pat, occ[k], rule));
  }

  /** Every occurrence of the pattern is reported or overlaps a report. */
  lemma HitsCover(data: seq<byte>, pat: seq<byte>, rule: ContextRule, q: int)
    requires |pat| > 0 && OccursAt(data, pat, q)
    ensures exists k :: (0 <= k < |Hits(data, pat, rule)| &&
      Hits(data, pat, rule)[k].position <= q < Hits(data, pat, rule)[k].position + |pat|)
  {
    var k := CoveringOccurrence(data, pat, 0, q);
    assert Hits(data, pat, rule)[k].position == Occurrences(data, pat, 0)[k];
  }

  /** Every report names one of the patterns, a true occurrence of it and
      the context the rule cuts around that occurrence. */
  predicate Reports(data: seq<byte>, pats: seq<seq<byte>>, rule: ContextRule, r: seq<Hit>)
  {
    forall k :: 0 <= k < |r| ==>
      r[k].pattern in pats && OccursAt(data, r[k].pattern, r[k].position) &&
      r[k].context == Context(data, r[k].pattern, r[k].position, rule)
  }

  predicate NonEmptyPatterns(pats: seq<seq<byte>>)
  {
    forall k :: 0 <= k < |pats| ==> |pats[k]| > 0
  }

  /** The reports of the scans of several patterns, one pattern after the
      other in list order. */
  function AllHits(data: seq<byte>, pats: seq<seq<byte>>, rule: ContextRule): seq<Hit>
    requires NonEmptyPatterns(pats)
  {
    if pats == [] then []
    else AllHits(data, pats[..|pats| - 1], rule) + Hits(data, pats[|pats| - 1], rule)
  }

  /** Each report of a multi-pattern scan is a true occurrence of one of
      the patterns, with the context the rule cuts around it. */
  lemma {:induction false} AllHitsSound(data: seq<byte>, pats: seq<seq<byte>>, rule: ContextRule)
    requires NonEmptyPatterns(pats)
    ensures Reports(data, pats, rule, AllHits(data, pats, rule))
  {
    if pats != [] {
      var n := |pats| - 1;
      var init := pats[..n];
      var r := AllHits(data, pats, rule);
      var front := AllHits(data, init, rule);
      var back := Hits(data, pats[n], rule);
      AllHitsSound(data, init, rule);
      HitsSound(data, pats[n], rule);
      assert r == front + back;
      forall k | 0 <= k < |r|
        ensures r[k].pattern in pats && OccursAt(data, r[k].pattern, r[k].position) &&
          r[k].context == Context(data, r[k].pattern, r[k].position, rule)
      {
        if k < |front| {
          assert r[k] == front[k];
          var y :| 0 <= y < n && init[y] == front[k].pattern;
          assert pats[y] == init[y];
        } else {
          assert r[k] == back[k - |front|];
        }
      }
    }
  }

  /** The `k`-th report of a multi-pattern scan with windows of `radius`
      bytes either side: a true occurrence of one of the patterns, whose
      window holds it and is at most `2 * radius` bytes longer. */
  lemma AroundReport(data: seq<byte>, pats: seq<seq<byte>>, radius: nat, k: nat)
    requires NonEmptyPatterns(pats) && k < |AllHits(data, pats, Around(radius))|
    ensures AllHits(data, pats, Around(radius))[k].pattern in pats
    ensures OccursAt(data, AllHits(data, pats, Around(radius))[k].pattern, AllHits(data, pats, Around(radius))[k].position)
    ensures var h := AllHits(data, pats, Around(radius))[k];
      h.context == Slice(data, Max(0, h.position - radius), h.position + |h.pattern| + radius) &&
      HoldsMatchAround(h.pattern, h.position, h.context, radius)
  {
    var r := AllHits(data, pats, Around(radius));
    AllHitsSound(data, pats, Around(radius));
    AroundContextHoldsMatch(data, r[k].pattern, r[k].position, radius);
  }

  /** The `k`-th report of a multi-pattern scan keeping `length` bytes from
      the match on: a true occurrence of one of the patterns, whose block is
      as long as the data allows and starts with the match when it can. */
  lemma AheadReport(data: seq<byte>, pats: seq<seq<byte>>, length: nat, k: nat)
    requires NonEmptyPatterns(pats) && k < |AllHits(data, pats, Ahead(length))|
    ensures var h := AllHits(data, pats, Ahead(length))[k];
      h.pattern in pats && OccursAt(data, h.pattern, h.position) &&
      |h.context| == Min(length, |data| - h.position) &&
      (|h.pattern| <= length ==> h.context[..|h.pattern|] == h.pattern)
  {
    var r := AllHits(data, pats, Ahead(length));
    AllHitsSound(data, pats, Ahead(length));
    AheadContextStartsWithMatch(data, r[k].pattern, r[k].position, length);
  }

  /** With distinct patterns, every report of an earlier pattern precedes
      every report of a later one. */
  lemma {:induction false} GroupedInListOrder(data: seq<byte>, pats: seq<seq<byte>>, rule: ContextRule, i: nat, j: nat, a: nat, b: nat)
    requires NonEmptyPatterns(pats)
    requires forall x, y :: 0 <= x < y < |pats| ==> pats[x] != pats[y]
    requires i < j < |pats|
    requires a < |AllHits(data, pats, rule)| && AllHits(data, pats, rule)[a].pattern == pats[i]
    requires b < |AllHits(data, pats, rule)| && AllHits(data, pats, rule)[b].pattern == pats[j]
    ensures a < b
    decreases |pats|
  {
    var n := |pats| - 1;
    var init := pats[..n];
    var all := AllHits(data, pats, rule);
    var split := |AllHits(data, init, rule)|;
    LastPatternLast(data, pats, rule, a);
    LastPatternLast(data, pats, rule, b);
    assert forall y :: 0 <= y < n ==> init[y] != pats[n];
    assert pats[i] != pats[n];
    assert a < split;
    if j < n {
      assert pats[j] != pats[n];
      assert init[i] == pats[i] && init[j] == pats[j];
      GroupedInListOrder(data, init, rule, i, j, a, b);
    }
  }

  /** The reports of the last pattern of the list come after all others. */
  lemma LastPatternLast(data: seq<byte>, pats: seq<seq<byte>>, rule: ContextRule, a: nat)
    requires NonEmptyPatterns(pats) && pats != []
    requires a < |AllHits(data, pats, rule)|
    ensures var n := |pats| - 1;
      if a < |AllHits(data, pats[..n], rule)|
      then AllHits(data, pats, rule)[a] == AllHits(data, pats[..n], rule)[a] &&
        AllHits(data, pats, rule)[a].pattern in pats[..n]
      else AllHits(data, pats, rule)[a].pattern == pats[n]
  {
    var n := |pats| - 1;
    AllHitsSound(data, pats[..n], rule);
    HitsSound(data, pats[n], rule);
  }

  /** The scan loop for one pattern. */
  method ScanPattern(data: seq<byte>, pat: seq<byte>, rule: ContextRule) returns (hits: seq<Hit>)
    requires |pat| > 0
    ensures hits == Hits(data, pat, rule)
  {
    hits := [];
    ghost var found: seq<nat> := [];
    var pos := 0;
    while true
      invariant 0 <= pos <= |data|
      invariant found + Occurrences(data, pat, pos) == Occurrences(data, pat, 0)
      invariant |hits| == |found|
      invariant forall k :: 0 <= k < |hits| ==> hits[k] == Hit(pat, found[k], Context(data, pat, found[k], rule))
      decreases |data| - pos
    {
      ghost var old_pos := pos;
      pos := Find(data, pat, pos);
      if pos == -1 {
        break;
      }
      assert Occurrences(data, pat, old_pos) == [pos] + Occurrences(data, pat, pos + |pat|);
      assert found + [pos] + Occurrences(data, pat, pos + |pat|) == found + Occurrences(data, pat, old_pos);
      hits := hits + [Hit(pat, pos, Context(data, pat, pos, rule))];
      found := found + [pos];
      pos := pos + |pat|;
    }
  }

  /** The scan loops for a list of patterns, run in list order. */
  method ScanPatterns(data: seq<byte>, pats: seq<seq<byte>>, rule: ContextRule) returns (hits: seq<Hit>)
    requires NonEmptyPatterns(pats)
    ensures hits == AllHits(data, pats, rule)
  {
    hits := [];
    for i := 0 to |pats|
      invariant hits == AllHits(data, pats[..i], rule)
    {
      var more := ScanPattern(data, pats[i], rule);
      assert pats[..i + 1][..i] == pats[..i];
      hits := hits + more;
    }
    assert pats[..|pats|] == pats;
  }
}
