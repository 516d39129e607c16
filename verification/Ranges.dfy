/** The test of requested byte ranges, which rewrites the requested ranges in
    place, and what acceptance is worth to the code that serves them. */
module Ranges {

  /** First and last byte position; -1 for one left out. */
  datatype Range = Range(first: int, last: int)

  const RANGE_MAX_COUNT := 1024

  /** A requested range over content of length n, positions filled in.  A range
      that leaves out both ends becomes one byte too long. */
  function Normal(r: Range, n: nat): Range {
    var whole := if r.first == -1 && r.last == -1 then Range(0, n) else r;
    var suffix := if whole.first == -1 then Range(n - whole.last, n - 1) else whole;
    if suffix.last == -1 then Range(suffix.first, n - 1) else suffix
  }

  function NormalAll(rs: seq<Range>, n: nat): (ns: seq<Range>)
    ensures |ns| == |rs| && forall i :: 0 <= i < |rs| ==> ns[i] == Normal(rs[i], n)
  {
    if rs == [] then [] else NormalAll(rs[..|rs| - 1], n) + [Normal(rs[|rs| - 1], n)]
  }

  // ---- what is accepted ----

  predicate Inside(r: Range, n: nat) {
    0 <= r.first <= r.last < n
  }

  predicate Meet(r: Range, s: Range) {
    r.first <= s.last && s.first <= r.last
  }

  /** Range i shares a byte with an earlier one. */
  predicate Overlaps(rs: seq<Range>, i: nat)
    requires i < |rs|
  {
    exists j :: 0 <= j < i && Meet(rs[j], rs[i])
  }

  function OverlapCount(rs: seq<Range>): nat {
    if rs == [] then 0
    else OverlapCount(rs[..|rs| - 1]) + if Overlaps(rs, |rs| - 1) then 1 else 0
  }

  predicate Ascending(rs: seq<Range>) {
    forall i, j :: 0 <= i < j < |rs| ==> rs[i].first < rs[j].first
  }

  /** Every range lies in the content, starts ascend strictly, and at most two
      ranges overlap an earlier one. */
  predicate Acceptable(rs: seq<Range>, n: nat) {
    && (forall i :: 0 <= i < |rs| ==> Inside(rs[i], n))
    && Ascending(rs)
    && OverlapCount(rs) <= 2
  }

  // ---- the check in place ----

  function LastFirst(rs: seq<Range>): int {
    if rs == [] then -1 else rs[|rs| - 1].first
  }

  function MaxLast(rs: seq<Range>): (m: int)
    ensures forall r :: r in rs ==> r.last <= m
    ensures m == -1 || exists r :: r in rs && r.last == m
  {
    if rs == [] then -1
    else
      var m, r := MaxLast(rs[..|rs| - 1]), rs[|rs| - 1];
      assert rs == rs[..|rs| - 1] + [r];
      if r.last > m then r.last else m
  }

  lemma PrefixAcceptable(rs: seq<Range>, r: Range, n: nat)
    requires Acceptable(rs + [r], n)
    ensures Acceptable(rs, n)
  {
    var all := rs + [r];
    assert all[..|rs|] == rs;
    forall i | 0 <= i < |rs| ensures Inside(rs[i], n) {
      assert all[i] == rs[i];
    }
    forall i, j | 0 <= i < j < |rs| ensures rs[i].first < rs[j].first {
      assert all[i] == rs[i] && all[j] == rs[j];
    }
  }

  /** The running maximum decides overlap, because starts ascend. */
  lemma OverlapByMax(rs: seq<Range>, r: Range, n: nat)
    requires Acceptable(rs, n) && Inside(r, n) && LastFirst(rs) < r.first
    ensures Overlaps(rs + [r], |rs|) <==> r.first <= MaxLast(rs)
  {
    var all := rs + [r];
    forall j | 0 <= j < |rs| ensures Meet(all[j], all[|rs|]) <==> r.first <= rs[j].last {
      assert all[j] == rs[j];
      assert rs[j].first <= LastFirst(rs);
    }
    if r.first <= MaxLast(rs) {
      var s :| s in rs && s.last == MaxLast(rs);
      var j :| 0 <= j < |rs| && rs[j] == s;
      assert Meet(all[j], all[|rs|]);
    }
  }

  lemma AppendedLasts(rs: seq<Range>, r: Range)
    ensures LastFirst(rs + [r]) == r.first
    ensures MaxLast(rs + [r]) == if r.last > MaxLast(rs) then r.last else MaxLast(rs)
  {
    assert (rs + [r])[..|rs|] == rs;
  }

  lemma AppendedOverlaps(rs: seq<Range>, r: Range, n: nat)
    requires Acceptable(rs, n) && Inside(r, n) && LastFirst(rs) < r.first
    ensures OverlapCount(rs + [r]) == OverlapCount(rs) + if r.first <= MaxLast(rs) then 1 else 0
  {
    hide Acceptable, Inside, Overlaps, MaxLast, LastFirst;
    OverlapByMax(rs, r, n);
    assert (rs + [r])[..|rs|] == rs;
  }

  lemma AppendedAscending(rs: seq<Range>, r: Range)
    requires Ascending(rs)
    ensures Ascending(rs + [r]) <==> rs == [] || LastFirst(rs) < r.first
  {
    var all := rs + [r];
    if rs != [] && Ascending(all) {
      assert all[|rs| - 1].first < all[|rs|].first;
    }
  }

  lemma AppendedInside(rs: seq<Range>, r: Range, n: nat)
    requires forall i :: 0 <= i < |rs| ==> Inside(rs[i], n)
    ensures (forall i :: 0 <= i < |rs + [r]| ==> Inside((rs + [r])[i], n)) <==> Inside(r, n)
    ensures LastFirst(rs) < 0 <==> rs == []
  {
    assert (rs + [r])[|rs|] == r;
  }

  /** Appending a range to acceptable ones, by the running values alone. */
  lemma OneMore(rs: seq<Range>, r: Range, n: nat)
    requires Acceptable(rs, n)
    ensures Acceptable(rs + [r], n) <==>
      && Inside(r, n) && LastFirst(rs) < r.first
      && (r.first <= MaxLast(rs) ==> OverlapCount(rs) < 2)
  {
    hide Ascending, OverlapCount, MaxLast, LastFirst;
    AppendedInside(rs, r, n);
    AppendedAscending(rs, r);
    if Inside(r, n) && LastFirst(rs) < r.first {
      AppendedOverlaps(rs, r, n);
    }
  }

  function Accepts(status: int, ranges: seq<Range>, n: nat): bool {
    ranges == [] || !(200 <= status < 300) ||
    (|ranges| <= RANGE_MAX_COUNT && Acceptable(NormalAll(ranges, n), n))
  }

  /** The check of one request: an error means the ranges are not satisfiable.
      The ranges looked at are left filled in. */
  method RangeError(ranges: array<Range>, status: int, contentLength: nat, bodySize: nat)
    returns (error: bool)
    modifies ranges
    ensures var n := if contentLength != 0 then contentLength else bodySize;
            var ns := NormalAll(old(ranges[..]), n);
            && error == !Accepts(status, old(ranges[..]), n)
            && (!(200 <= status < 300) || ranges.Length > RANGE_MAX_COUNT ==> ranges[..] == old(ranges[..]))
            && (200 <= status < 300 && !error ==>
                  && ranges[..] == ns
                  && forall i, k: int :: 0 <= i < ranges.Length ==>
                       (Serves(ranges[..][i], n, k) <==> Asks(old(ranges[..])[i], n, k)))
            && (200 <= status < 300 && ranges.Length <= RANGE_MAX_COUNT && error ==>
                  exists k :: 0 < k <= |ns| && Acceptable(ns[..k - 1], n) && !Acceptable(ns[..k], n)
                              && ranges[..] == ns[..k] + old(ranges[..])[k..])
  {
    var n := if contentLength != 0 then contentLength else bodySize;
    if ranges.Length == 0 || !(200 <= status < 300) {
      return false;
    }
    if ranges.Length > RANGE_MAX_COUNT {
      return true;
    }
    hide Acceptable, Serves, Asks, NormalAll;
    ghost var asked := ranges[..];
    error := Scan(ranges, n);
    if !error {
      AcceptedServesWhatWasAsked(status, asked, n);
    }
  }

  lemma AcceptablePrefix(rs: seq<Range>, k: nat, n: nat)
    requires k <= |rs| && Acceptable(rs, n)
    ensures Acceptable(rs[..k], n)
    decreases |rs|
  {
    if k == |rs| {
      assert rs[..k] == rs;
    } else {
      var p := rs[..|rs| - 1];
      assert rs == p + [rs[|rs| - 1]];
      PrefixAcceptable(p, rs[|rs| - 1], n);
      AcceptablePrefix(p, k, n);
      assert p[..k] == rs[..k];
    }
  }

  method Scan(ranges: array<Range>, n: nat) returns (error: bool)
    modifies ranges
    ensures var was := old(ranges[..]);
            var ns := NormalAll(was, n);
            && error == !Acceptable(ns, n)
            && (!error ==> ranges[..] == ns)
            && (error ==> exists k :: 0 < k <= |ns| && Acceptable(ns[..k - 1], n) && !Acceptable(ns[..k], n)
                                      && ranges[..] == ns[..k] + was[k..])
  {
    hide Acceptable, Normal, NormalAll, Inside, OverlapCount, MaxLast, LastFirst;
    ghost var was := ranges[..];
    ghost var ns := NormalAll(was, n);
    EmptyAcceptable(n);
    var prevFirst, prevLast, overlapping := -1, -1, 0;
    for i := 0 to ranges.Length
      invariant ranges[..] == ns[..i] + was[i..]
      invariant Acceptable(ns[..i], n)
      invariant prevFirst == LastFirst(ns[..i]) && prevLast == MaxLast(ns[..i])
      invariant overlapping == OverlapCount(ns[..i])
    {
      FillIn(ranges, i, n, ns, was);
      var r := ranges[i];
      assert ns[..i + 1] == ns[..i] + [r];
      OneMore(ns[..i], r, n);
      AppendedLasts(ns[..i], r);
      var bad := Faulty(r, n, prevFirst, prevLast, overlapping);
      if bad {
        if Acceptable(ns, n) {
          AcceptablePrefix(ns, i + 1, n);
        }
        assert ns[..i + 1 - 1] == ns[..i];
        return true;
      }
      AppendedOverlaps(ns[..i], r, n);
      if r.first <= prevLast {
        overlapping := overlapping + 1;
      }
      prevFirst := if prevFirst > r.first then prevFirst else r.first;
      prevLast := if prevLast > r.last then prevLast else r.last;
    }
    assert ns[..ranges.Length] == ns;
    return false;
  }

  lemma EmptyAcceptable(n: nat)
    ensures Acceptable([], n) && LastFirst([]) == -1 && MaxLast([]) == -1 && OverlapCount([]) == 0
  {
  }

  /** Fills in the positions left out of range i. */
  method FillIn(ranges: array<Range>, i: nat, n: nat, ghost ns: seq<Range>, ghost was: seq<Range>)
    requires i < ranges.Length && |ns| == |was| == ranges.Length
    requires ranges[..] == ns[..i] + was[i..] && ns[i] == Normal(was[i], n)
    modifies ranges
    ensures ranges[i] == ns[i] && ranges[..] == ns[..i + 1] + was[i + 1..]
  {
    assert ranges[i] == ranges[..][i] == was[i];
    if ranges[i].first == -1 && ranges[i].last == -1 {
      ranges[i] := Range(0, n);
    }
    if ranges[i].first == -1 {
      ranges[i] := Range(n - ranges[i].last, n - 1);
    }
    if ranges[i].last == -1 {
      ranges[i] := Range(ranges[i].first, n - 1);
    }
  }

  method Faulty(r: Range, n: nat, prevFirst: int, prevLast: int, overlapping: nat) returns (bad: bool)
    ensures !bad <==> Inside(r, n) && prevFirst < r.first && (r.first <= prevLast ==> overlapping < 2)
  {
    if !(0 <= r.first && r.first <= r.last && r.last <= n - 1) {
      return true;
    }
    if r.first <= prevFirst {
      return true;
    }
    return r.first <= prevLast && overlapping + 1 > 2;
  }

  // ---- what acceptance is worth ----

  /** The offset and length served for a range; the requires are the assertions
      the function opens with. */
  function OffsetAndLength(r: Range, n: nat): (ol: (nat, nat))
    requires r.first != -1 && r.last != -1
    requires 0 <= r.first < n
    requires r.first <= r.last < n
    ensures ol.1 > 0 && ol.0 + ol.1 <= n
  {
    (r.first, r.last - r.first + 1)
  }

  /** The stretch served for a filled-in range holds byte k. */
  predicate Serves(r: Range, n: nat, k: int) {
    Inside(r, n) && var ol := OffsetAndLength(r, n); ol.0 <= k < ol.0 + ol.1
  }

  /** The bytes a requested range stands for: from the first to the last one
      named, from the first on, or as many as named at the end. */
  predicate Asks(r: Range, n: nat, k: int) {
    if r.first == -1 then r.last != -1 && n - r.last <= k < n
    else if r.last == -1 then r.first <= k < n
    else r.first <= k <= r.last
  }

  lemma FilledInServes(r: Range, n: nat, k: int)
    requires Inside(Normal(r, n), n)
    ensures Serves(Normal(r, n), n, k) <==> Asks(r, n, k)
  {
  }

  /** In an accepted request every range, after it was filled in, stands for
      exactly the bytes asked for. */
  lemma AcceptedServesWhatWasAsked(status: int, ranges: seq<Range>, n: nat)
    requires 200 <= status < 300 && Accepts(status, ranges, n)
    ensures forall i, k: int :: 0 <= i < |ranges| ==> (Serves(NormalAll(ranges, n)[i], n, k) <==> Asks(ranges[i], n, k))
  {
    forall i, k: int | 0 <= i < |ranges|
      ensures Serves(NormalAll(ranges, n)[i], n, k) <==> Asks(ranges[i], n, k)
    {
      FilledInServes(ranges[i], n, k);
    }
  }

  function TotalLength(rs: seq<Range>, n: nat): nat
    requires forall i :: 0 <= i < |rs| ==> Inside(rs[i], n)
  {
    if rs == [] then 0
    else
      assert Inside(rs[|rs| - 1], n);
      TotalLength(rs[..|rs| - 1], n) + OffsetAndLength(rs[|rs| - 1], n).1
  }

  /** Bytes served at most, by the number of ranges that overlap an earlier one. */
  function Budget(overlaps: nat, n: nat): int {
    if overlaps == 0 then n else if overlaps == 1 then 2 * n - 1 else 3 * n - 3
  }

  lemma {:induction false} TotalSoFar(rs: seq<Range>, n: nat)
    requires Acceptable(rs, n)
    ensures TotalLength(rs, n) <= Budget(OverlapCount(rs), n) - n + MaxLast(rs) + 1
    ensures rs != [] ==> LastFirst(rs) >= OverlapCount(rs)
    ensures MaxLast(rs) < n
  {
    hide Ascending, Overlaps, Meet, LastFirst;
    if rs == [] {
      EmptyAcceptable(n);
    } else {
      var p, r := rs[..|rs| - 1], rs[|rs| - 1];
      assert rs == p + [r];
      PrefixAcceptable(p, r, n);
      EmptyAcceptable(n);
      TotalSoFar(p, n);
      OneMore(p, r, n);
      AppendedLasts(p, r);
      AppendedOverlaps(p, r, n);
    }
  }

  /** An accepted request serves at most three times the content, and exactly so
      much less as the overlapping ranges must start later. */
  lemma AcceptedIsBounded(status: int, ranges: seq<Range>, n: nat)
    requires 200 <= status < 300 && Accepts(status, ranges, n)
    ensures var ns := NormalAll(ranges, n);
            && (forall i :: 0 <= i < |ns| ==> Inside(ns[i], n))
            && TotalLength(ns, n) <= Budget(OverlapCount(ns), n) <= 3 * n
            && (n > 1 ==> TotalLength(ns, n) <= 3 * n - 3)
  {
    hide Ascending, Overlaps, Normal, NormalAll, TotalLength, OverlapCount;
    EmptyAcceptable(n);
    TotalSoFar(NormalAll(ranges, n), n);
  }

  /** The bound is met: three ranges to the end from the first three bytes. */
  lemma BoundIsTight(n: nat)
    requires n > 2
    ensures var rs := [Range(0, -1), Range(1, -1), Range(2, -1)];
            && Accepts(206, rs, n)
            && NormalAll(rs, n) == [Range(0, n - 1), Range(1, n - 1), Range(2, n - 1)]
            && TotalLength(NormalAll(rs, n), n) == 3 * n - 3
  {
    var rs := [Range(0, -1), Range(1, -1), Range(2, -1)];
    var ns := [Range(0, n - 1), Range(1, n - 1), Range(2, n - 1)];
    assert NormalAll(rs, n) == ns;
    assert ns[..2][..1] == [ns[0]] && ns[..1] == [ns[0]] && ns[..2] == [ns[0], ns[1]];
    assert [ns[0]][..0] == [] && [ns[0], ns[1]][..1] == [ns[0]];
    assert OverlapCount([ns[0]]) == 0;
    assert OverlapCount(ns[..2]) <= 1;
    assert TotalLength([ns[0]], n) == n;
    assert TotalLength([ns[0], ns[1]], n) == 2 * n - 1;
  }

  lemma OneRange(r: Range, n: nat)
    ensures Acceptable([r], n) <==> Inside(r, n)
  {
    EmptyAcceptable(n);
    assert [] + [r] == [r];
    OneMore([], r, n);
  }

  /** A request for a suffix alone is accepted exactly if the content has that
      many bytes; a range without either end never is. */
  lemma SuffixAccepted(last: int, n: nat)
    requires last >= -1
    ensures Accepts(206, [Range(-1, last)], n) <==> 1 <= last <= n
  {
    OneRange(Normal(Range(-1, last), n), n);
    assert NormalAll([Range(-1, last)], n) == [Normal(Range(-1, last), n)];
  }
}
