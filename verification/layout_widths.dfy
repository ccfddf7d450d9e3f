/** Width arithmetic of the solver: greedy compression, fair growth, equal division and
    weighted distribution of free space. */
module LayoutWidths {
  import opened Basics
  import opened Sorting

  // ----- compression -----

  /** An element that may be compressed: its compression priority and its position. */
  datatype Candidate = Candidate(priority: int, index: nat)

  /** Lower priority is compressed first; among equals, the trailing element first. */
  predicate CompressedBefore(a: Candidate, b: Candidate) {
    a.priority < b.priority || (a.priority == b.priority && a.index >= b.index)
  }

  function CompressionOrder(candidates: seq<Candidate>): seq<Candidate> {
    Sort(CompressedBefore, candidates)
  }

  lemma {:induction false} CompressionOrderSorts(candidates: seq<Candidate>)
    ensures SortedBy(CompressedBefore, CompressionOrder(candidates))
    ensures multiset(CompressionOrder(candidates)) == multiset(candidates)
  {
    SortSorts(CompressedBefore, candidates);
  }

  /** No two entries speak about the same element. */
  ghost predicate DistinctIndices(order: seq<Candidate>) {
    forall i, j :: 0 <= i < j < |order| ==> order[i].index != order[j].index
  }

  ghost predicate Mentions(order: seq<Candidate>, index: nat) {
    exists k :: 0 <= k < |order| && order[k].index == index
  }

  lemma {:induction false} SameIndexSameCandidate(candidates: seq<Candidate>, a: Candidate, b: Candidate)
    requires DistinctIndices(candidates) && a in candidates && b in candidates && a.index == b.index
    ensures a == b
  {
    var i :| 0 <= i < |candidates| && candidates[i] == a;
    var j :| 0 <= j < |candidates| && candidates[j] == b;
    assert i == j;
  }

  /** Sorting the candidates neither loses nor repeats an element of the bar. */
  lemma {:induction false} OrderKeepsIndices(candidates: seq<Candidate>)
    requires DistinctIndices(candidates)
    ensures DistinctIndices(CompressionOrder(candidates))
    ensures forall c :: c in CompressionOrder(candidates) <==> c in candidates
    ensures forall i: nat :: Mentions(CompressionOrder(candidates), i) <==> Mentions(candidates, i)
  {
    var order := CompressionOrder(candidates);
    SortSorts(CompressedBefore, candidates);
    SortKeepsDistinct(CompressedBefore, candidates);
    forall c ensures c in order <==> c in candidates {
      SortKeepsMembers(CompressedBefore, candidates, c);
    }
    forall a, b | 0 <= a < b < |order| ensures order[a].index != order[b].index {
      assert order[a] in candidates && order[b] in candidates && order[a] != order[b];
      if order[a].index == order[b].index {
        SameIndexSameCandidate(candidates, order[a], order[b]);
      }
    }
    forall i: nat ensures Mentions(order, i) <==> Mentions(candidates, i) {
      if Mentions(order, i) {
        var k :| 0 <= k < |order| && order[k].index == i;
        assert order[k] in candidates;
        var j :| 0 <= j < |candidates| && candidates[j] == order[k];
      }
      if Mentions(candidates, i) {
        var k :| 0 <= k < |candidates| && candidates[k].index == i;
        assert candidates[k] in order;
        var j :| 0 <= j < |order| && order[j] == candidates[k];
      }
    }
  }

  ghost predicate Compressible(order: seq<Candidate>, widths: seq<nat>, minima: seq<nat>) {
    && |minima| == |widths|
    && (forall i :: 0 <= i < |widths| ==> minima[i] <= widths[i])
    && (forall c :: c in order ==> c.index < |widths|)
  }

  function Compress(order: seq<Candidate>, widths: seq<nat>, minima: seq<nat>, excess: nat): seq<nat>
    requires Compressible(order, widths, minima)
    decreases |order|
  {
    if order == [] || excess == 0 then
      widths
    else
      var index := order[0].index;
      var reduction := Min(widths[index] - minima[index], excess);
      Compress(order[1..], widths[index := widths[index] - reduction], minima, excess - reduction)
  }

  lemma {:induction false} MentionsTail(order: seq<Candidate>, index: nat)
    requires order != []
    ensures Mentions(order, index) <==> order[0].index == index || Mentions(order[1..], index)
  {
    var tail := order[1..];
    if Mentions(order, index) && order[0].index != index {
      var k :| 0 <= k < |order| && order[k].index == index;
      assert tail[k - 1].index == index;
    }
    if Mentions(tail, index) {
      var k :| 0 <= k < |tail| && tail[k].index == index;
      assert order[k + 1].index == index;
    }
  }

  lemma {:induction false} DistinctTail(order: seq<Candidate>)
    requires order != [] && DistinctIndices(order)
    ensures DistinctIndices(order[1..]) && !Mentions(order[1..], order[0].index)
  {
    var tail := order[1..];
    assert forall k :: 0 <= k < |tail| ==> tail[k] == order[k + 1];
  }

  /** Compression stays between the minima and the given widths and touches only candidates. */
  lemma {:induction false} CompressBounds(order: seq<Candidate>, widths: seq<nat>, minima: seq<nat>, excess: nat)
    requires Compressible(order, widths, minima)
    ensures |Compress(order, widths, minima, excess)| == |widths|
    ensures forall i :: 0 <= i < |widths| ==> minima[i] <= Compress(order, widths, minima, excess)[i] <= widths[i]
    ensures forall i :: 0 <= i < |widths| && !Mentions(order, i) ==> Compress(order, widths, minima, excess)[i] == widths[i]
    decreases |order|
  {
    if order == [] || excess == 0 {
    } else {
      var index := order[0].index;
      var reduction := Min(widths[index] - minima[index], excess);
      var next := widths[index := widths[index] - reduction];
      CompressBounds(order[1..], next, minima, excess - reduction);
      forall i | 0 <= i < |widths| && !Mentions(order, i)
        ensures Compress(order, widths, minima, excess)[i] == widths[i]
      {
        MentionsTail(order, i);
      }
    }
  }

  lemma {:induction false} CompressStep(order: seq<Candidate>, widths: seq<nat>, minima: seq<nat>, excess: nat)
    returns (next: seq<nat>, rest: nat)
    requires Compressible(order, widths, minima) && order != [] && excess > 0
    ensures var index := order[0].index;
            && |next| == |widths| && next == widths[index := next[index]]
            && minima[index] <= next[index] && next[index] + (excess - rest) == widths[index]
            && rest <= excess && (rest > 0 ==> next[index] == minima[index])
    ensures Compressible(order[1..], next, minima)
    ensures Compress(order, widths, minima, excess) == Compress(order[1..], next, minima, rest)
  {
    var index := order[0].index;
    var reduction := Min(widths[index] - minima[index], excess);
    next, rest := widths[index := widths[index] - reduction], excess - reduction;
  }

  /** Every candidate is exhausted before a later one is touched. */
  lemma {:induction false} CompressIsGreedy(order: seq<Candidate>, widths: seq<nat>, minima: seq<nat>, excess: nat, a: nat, b: nat)
    requires Compressible(order, widths, minima) && DistinctIndices(order)
    requires a < b < |order|
    ensures var r := Compress(order, widths, minima, excess);
            |r| == |widths| && (r[order[b].index] < widths[order[b].index] ==> r[order[a].index] == minima[order[a].index])
    decreases |order|
  {
    if excess > 0 {
      var tail := order[1..];
      var next, rest := CompressStep(order, widths, minima, excess);
      DistinctTail(order);
      assert order[b] == tail[b - 1] && order[b].index != order[0].index;
      CompressBounds(tail, next, minima, rest);
      if a > 0 {
        assert order[a] == tail[a - 1];
        CompressIsGreedy(tail, next, minima, rest, a - 1, b - 1);
      }
    }
  }

  ghost predicate Exhausted(order: seq<Candidate>, minima: seq<nat>, r: seq<nat>) {
    |r| == |minima| && forall i :: 0 <= i < |r| && Mentions(order, i) ==> r[i] == minima[i]
  }

  /** Compression removes exactly the excess, unless every candidate is already at its minimum. */
  lemma {:induction false} CompressTotal(order: seq<Candidate>, widths: seq<nat>, minima: seq<nat>, excess: nat)
    requires Compressible(order, widths, minima) && DistinctIndices(order)
    ensures var r := Compress(order, widths, minima, excess);
            Sum(r) + excess == Sum(widths) || (Sum(r) + excess > Sum(widths) && Exhausted(order, minima, r))
    decreases |order|
  {
    CompressBounds(order, widths, minima, excess);
    if order != [] && excess > 0 {
      var tail := order[1..];
      var index := order[0].index;
      var next, rest := CompressStep(order, widths, minima, excess);
      DistinctTail(order);
      SumUpdate(widths, index, next[index]);
      CompressTotal(tail, next, minima, rest);
      CompressBounds(tail, next, minima, rest);
      var r := Compress(order, widths, minima, excess);
      if Exhausted(tail, minima, r) && rest > 0 {
        forall i | 0 <= i < |r| && Mentions(order, i) ensures r[i] == minima[i] {
          MentionsTail(order, i);
        }
      }
    }
  }

  /** When everything outside the order already sits at its minimum and the minima leave room for
      it, compression removes the excess exactly: the solver's `debug_assert_eq!(excess, 0)`. */
  lemma {:induction false} CompressRemovesExcess(order: seq<Candidate>, widths: seq<nat>, minima: seq<nat>, excess: nat)
    requires Compressible(order, widths, minima) && DistinctIndices(order)
    requires Sum(minima) + excess <= Sum(widths)
    requires forall i :: 0 <= i < |widths| ==> widths[i] == minima[i] || Mentions(order, i)
    ensures Sum(Compress(order, widths, minima, excess)) + excess == Sum(widths)
  {
    var r := Compress(order, widths, minima, excess);
    CompressTotal(order, widths, minima, excess);
    CompressBounds(order, widths, minima, excess);
    if Exhausted(order, minima, r) {
      assert r == minima;
    }
  }

  // ----- growth -----

  ghost predicate Growable(widths: seq<nat>, maxima: seq<nat>) {
    && |widths| == |maxima|
    && forall i :: 0 <= i < |widths| ==> widths[i] <= maxima[i]
  }

  /** Positions from `i` on that still have room, in order. */
  function GrowableFrom(widths: seq<nat>, maxima: seq<nat>, i: nat): seq<nat>
    requires |widths| == |maxima| && i <= |widths|
    decreases |widths| - i
  {
    if i == |widths| then []
    else if widths[i] < maxima[i] then [i] + GrowableFrom(widths, maxima, i + 1)
    else GrowableFrom(widths, maxima, i + 1)
  }

  lemma {:induction false} GrowableFromFacts(widths: seq<nat>, maxima: seq<nat>, i: nat)
    requires |widths| == |maxima| && i <= |widths|
    ensures forall k :: 0 <= k < |GrowableFrom(widths, maxima, i)| ==>
              i <= GrowableFrom(widths, maxima, i)[k] < |widths|
              && widths[GrowableFrom(widths, maxima, i)[k]] < maxima[GrowableFrom(widths, maxima, i)[k]]
    ensures GrowableFrom(widths, maxima, i) == [] ==> forall j :: i <= j < |widths| ==> widths[j] >= maxima[j]
    decreases |widths| - i
  {
    if i < |widths| {
      GrowableFromFacts(widths, maxima, i + 1);
    }
  }

  /** One pass over the growable positions: each takes at most `share`, its room, and what is left. */
  function GrowRound(growable: seq<nat>, widths: seq<nat>, maxima: seq<nat>, share: nat, left: nat): (r: (seq<nat>, nat))
    requires Growable(widths, maxima)
    requires forall k :: 0 <= k < |growable| ==> growable[k] < |widths|
    ensures Growable(r.0, maxima) && r.1 <= left
    ensures growable != [] && share > 0 && left > 0 && widths[growable[0]] < maxima[growable[0]] ==> r.1 < left
    decreases |growable|
  {
    if growable == [] || left == 0 then
      (widths, left)
    else
      var index := growable[0];
      var addition := Min(Min(maxima[index] - widths[index], share), left);
      GrowRound(growable[1..], widths[index := widths[index] + addition], maxima, share, left - addition)
  }

  function Grow(widths: seq<nat>, maxima: seq<nat>, extra: nat): seq<nat>
    requires Growable(widths, maxima)
    decreases extra
  {
    var growable := GrowableFrom(widths, maxima, 0);
    if extra == 0 || growable == [] then
      widths
    else
      GrowableFromFacts(widths, maxima, 0);
      var round := GrowRound(growable, widths, maxima, Share(extra, |growable|), extra);
      Grow(round.0, maxima, round.1)
  }

  /** Water level `level`, with one extra pixel for the positions below `lead`. */
  function Filled(widths: seq<nat>, maxima: seq<nat>, level: nat, lead: nat): (r: seq<nat>)
    requires Growable(widths, maxima)
    ensures |r| == |widths|
    ensures forall i :: 0 <= i < |widths| ==>
              r[i] == Min(maxima[i], widths[i] + level + (if i < lead then 1 else 0))
  {
    seq(|widths|, i requires 0 <= i < |widths| =>
      Min(maxima[i], widths[i] + level + (if i < lead then 1 else 0)))
  }

  /** A round moves width from what is left to the children and loses none. */
  lemma {:induction false} RoundConserves(growable: seq<nat>, widths: seq<nat>, maxima: seq<nat>, share: nat, left: nat)
    requires Growable(widths, maxima)
    requires forall k :: 0 <= k < |growable| ==> growable[k] < |widths|
    ensures var r := GrowRound(growable, widths, maxima, share, left); Sum(r.0) + r.1 == Sum(widths) + left
    decreases |growable|
  {
    if growable != [] && left > 0 {
      var index := growable[0];
      var addition := Min(Min(maxima[index] - widths[index], share), left);
      SumUpdate(widths, index, widths[index] + addition);
      RoundConserves(growable[1..], widths[index := widths[index] + addition], maxima, share, left - addition);
    }
  }

  /** What a full share for every growable position from `i` on costs. */
  function FullCost(widths: seq<nat>, maxima: seq<nat>, i: nat, share: nat): nat
    requires |widths| == |maxima| && i <= |widths|
    decreases |widths| - i
  {
    if i == |widths| then 0
    else (if widths[i] < maxima[i] then share else 0) + FullCost(widths, maxima, i + 1, share)
  }

  lemma {:induction false} FullCostIsProduct(widths: seq<nat>, maxima: seq<nat>, i: nat, share: nat)
    requires |widths| == |maxima| && i <= |widths|
    ensures FullCost(widths, maxima, i, share) == share * |GrowableFrom(widths, maxima, i)|
    decreases |widths| - i
  {
    if i < |widths| {
      FullCostIsProduct(widths, maxima, i + 1, share);
      MulSucc(share, |GrowableFrom(widths, maxima, i + 1)|);
    }
  }

  /** The same round, walking positions instead of a list of growable ones. */
  function RoundFrom(widths: seq<nat>, maxima: seq<nat>, i: nat, share: nat, left: nat): (r: seq<nat>)
    requires Growable(widths, maxima) && i <= |widths|
    ensures |r| == |widths|
    decreases |widths| - i
  {
    if i == |widths| then widths
    else
      var addition := Min(Min(maxima[i] - widths[i], share), left);
      RoundFrom(widths[i := widths[i] + addition], maxima, i + 1, share, left - addition)
  }

  lemma {:induction false} RoundFromNothing(widths: seq<nat>, maxima: seq<nat>, i: nat, share: nat)
    requires Growable(widths, maxima) && i <= |widths|
    ensures RoundFrom(widths, maxima, i, share, 0) == widths
    decreases |widths| - i
  {
    if i < |widths| {
      assert widths[i := widths[i] + 0] == widths;
      RoundFromNothing(widths, maxima, i + 1, share);
    }
  }

  lemma {:induction false} GrowRoundStep(index: nat, rest: seq<nat>, widths: seq<nat>, maxima: seq<nat>, share: nat, left: nat)
    requires Growable(widths, maxima) && left > 0 && index < |widths|
    requires forall k :: 0 <= k < |rest| ==> rest[k] < |widths|
    ensures var addition := Min(Min(maxima[index] - widths[index], share), left);
            GrowRound([index] + rest, widths, maxima, share, left)
            == GrowRound(rest, widths[index := widths[index] + addition], maxima, share, left - addition)
  {
    assert ([index] + rest)[1..] == rest;
  }

  lemma {:induction false} RoundByPosition(from: seq<nat>, widths: seq<nat>, maxima: seq<nat>, i: nat, share: nat, left: nat)
    requires Growable(from, maxima) && Growable(widths, maxima) && i <= |from|
    requires forall j :: i <= j < |from| ==> widths[j] == from[j]
    requires forall k :: 0 <= k < |GrowableFrom(from, maxima, i)| ==> GrowableFrom(from, maxima, i)[k] < |from|
    ensures GrowRound(GrowableFrom(from, maxima, i), widths, maxima, share, left).0 == RoundFrom(widths, maxima, i, share, left)
    decreases |from| - i
  {
    if i == |from| {
    } else if left == 0 {
      RoundFromNothing(widths, maxima, i, share);
    } else {
      var rest := GrowableFrom(from, maxima, i + 1);
      GrowableFromFacts(from, maxima, i + 1);
      var addition := Min(Min(maxima[i] - widths[i], share), left);
      var next := widths[i := widths[i] + addition];
      RoundByPosition(from, next, maxima, i + 1, share, left - addition);
      assert RoundFrom(widths, maxima, i, share, left) == RoundFrom(next, maxima, i + 1, share, left - addition);
      if from[i] < maxima[i] {
        GrowRoundStep(i, rest, widths, maxima, share, left);
        assert GrowableFrom(from, maxima, i) == [i] + rest;
      } else {
        assert next == widths && addition == 0;
        assert GrowableFrom(from, maxima, i) == rest;
      }
    }
  }

  lemma {:induction false} RoundFromKeepsPrefix(widths: seq<nat>, maxima: seq<nat>, i: nat, share: nat, left: nat, j: nat)
    requires Growable(widths, maxima) && j < i <= |widths|
    ensures RoundFrom(widths, maxima, i, share, left)[j] == widths[j]
    decreases |widths| - i
  {
    if i < |widths| {
      var addition := Min(Min(maxima[i] - widths[i], share), left);
      RoundFromKeepsPrefix(widths[i := widths[i] + addition], maxima, i + 1, share, left - addition, j);
    }
  }

  /** A round that can afford a full share for everyone raises the level uniformly. */
  lemma {:induction false} FullRound(widths: seq<nat>, maxima: seq<nat>, i: nat, share: nat, left: nat, j: nat)
    requires Growable(widths, maxima) && i <= j < |widths|
    requires FullCost(widths, maxima, i, share) <= left
    ensures RoundFrom(widths, maxima, i, share, left)[j] == Min(maxima[j], widths[j] + share)
    decreases |widths| - i
  {
    var addition := Min(Min(maxima[i] - widths[i], share), left);
    var next := widths[i := widths[i] + addition];
    if i == j {
      RoundFromKeepsPrefix(next, maxima, i + 1, share, left - addition, j);
    } else {
      FullCostFrame(widths, next, maxima, i + 1, share);
      FullRound(next, maxima, i + 1, share, left - addition, j);
    }
  }

  lemma {:induction false} FullCostFrame(a: seq<nat>, b: seq<nat>, maxima: seq<nat>, i: nat, share: nat)
    requires |a| == |b| == |maxima| && i <= |a|
    requires forall j :: i <= j < |a| ==> a[j] == b[j]
    ensures FullCost(a, maxima, i, share) == FullCost(b, maxima, i, share)
    decreases |a| - i
  {
    if i < |a| {
      FullCostFrame(a, b, maxima, i + 1, share);
    }
  }

  /** A last round with fewer pixels than growable positions gives one each to a prefix of them. */
  lemma {:induction false} LastRound(widths: seq<nat>, maxima: seq<nat>, i: nat, left: nat) returns (lead: nat)
    requires Growable(widths, maxima) && i <= |widths|
    requires left <= FullCost(widths, maxima, i, 1)
    ensures i <= lead <= |widths|
    ensures var r := RoundFrom(widths, maxima, i, 1, left);
            forall j :: i <= j < |widths| ==> r[j] == if j < lead then Min(maxima[j], widths[j] + 1) else widths[j]
    decreases |widths| - i
  {
    if left == 0 || i == |widths| {
      lead := i;
      RoundFromNothing(widths, maxima, i, 1);
    } else {
      var addition := Min(Min(maxima[i] - widths[i], 1), left);
      var next := widths[i := widths[i] + addition];
      FullCostFrame(widths, next, maxima, i + 1, 1);
      RoundFromKeepsPrefix(next, maxima, i + 1, 1, left - addition, i);
      lead := LastRound(next, maxima, i + 1, left - addition);
    }
  }

  ghost predicate StrictlyIncreasing(s: seq<nat>) {
    forall a, b :: 0 <= a < b < |s| ==> s[a] < s[b]
  }

  /** With at least one growable position per pixel, a unit round hands out everything. */
  lemma {:induction false} UnitRoundSpends(growable: seq<nat>, widths: seq<nat>, maxima: seq<nat>, left: nat)
    requires Growable(widths, maxima) && left <= |growable|
    requires forall k :: 0 <= k < |growable| ==> growable[k] < |widths| && widths[growable[k]] < maxima[growable[k]]
    requires StrictlyIncreasing(growable)
    ensures GrowRound(growable, widths, maxima, 1, left).1 == 0
    decreases |growable|
  {
    if growable != [] && left > 0 {
      var index := growable[0];
      UnitRoundSpends(growable[1..], widths[index := widths[index] + 1], maxima, left - 1);
    }
  }

  lemma {:induction false} GrowableFromIncreases(widths: seq<nat>, maxima: seq<nat>, i: nat)
    requires |widths| == |maxima| && i <= |widths|
    ensures StrictlyIncreasing(GrowableFrom(widths, maxima, i))
    decreases |widths| - i
  {
    if i < |widths| {
      var rest := GrowableFrom(widths, maxima, i + 1);
      GrowableFromIncreases(widths, maxima, i + 1);
      GrowableFromFacts(widths, maxima, i + 1);
      var g := GrowableFrom(widths, maxima, i);
      if widths[i] < maxima[i] {
        forall a, b | 0 <= a < b < |g| ensures g[a] < g[b] {
          assert g[b] == rest[b - 1] && i < rest[b - 1];
          if a > 0 {
            assert g[a] == rest[a - 1];
          }
        }
      }
    }
  }

  function Share(extra: nat, count: nat): nat
    requires count > 0
  {
    Max(extra / count, 1)
  }

  lemma {:induction false} ShareFacts(extra: nat, count: nat)
    requires count > 0
    ensures extra < count ==> Share(extra, count) == 1
    ensures extra >= count ==> Share(extra, count) * count <= extra
    ensures Share(extra, count) > 0
  {
  }

  lemma {:induction false} RaiseLevel(base: seq<nat>, widths: seq<nat>, maxima: seq<nat>, level: nat, share: nat, next: seq<nat>)
    requires Growable(base, maxima) && widths == Filled(base, maxima, level, 0) && |next| == |base|
    requires forall j :: 0 <= j < |base| ==> next[j] == Min(maxima[j], widths[j] + share)
    ensures next == Filled(base, maxima, level + share, 0)
  {
  }

  lemma {:induction false} RaiseLead(base: seq<nat>, widths: seq<nat>, maxima: seq<nat>, level: nat, lead: nat, next: seq<nat>)
    requires Growable(base, maxima) && widths == Filled(base, maxima, level, 0) && |next| == |base|
    requires forall j :: 0 <= j < |base| ==> next[j] == if j < lead then Min(maxima[j], widths[j] + 1) else widths[j]
    ensures next == Filled(base, maxima, level, lead)
  {
  }

  /** The last, partial round adds one pixel to a prefix and finishes. */
  lemma {:induction false} GrowLastStep(base: seq<nat>, widths: seq<nat>, maxima: seq<nat>, level: nat, extra: nat) returns (lead: nat)
    requires Growable(base, maxima) && widths == Filled(base, maxima, level, 0)
    requires 0 < extra < |GrowableFrom(widths, maxima, 0)|
    ensures lead <= |base|
    ensures Grow(widths, maxima, extra) == Filled(base, maxima, level, lead)
  {
    var growable := GrowableFrom(widths, maxima, 0);
    GrowableFromFacts(widths, maxima, 0);
    GrowableFromIncreases(widths, maxima, 0);
    ShareFacts(extra, |growable|);
    FullCostIsProduct(widths, maxima, 0, 1);
    RoundByPosition(widths, widths, maxima, 0, 1, extra);
    lead := LastRound(widths, maxima, 0, extra);
    UnitRoundSpends(growable, widths, maxima, extra);
    var round := GrowRound(growable, widths, maxima, 1, extra);
    RaiseLead(base, widths, maxima, level, lead, round.0);
    assert Grow(widths, maxima, extra) == Grow(round.0, maxima, 0);
  }

  /** A full round raises the level by the share. */
  lemma {:induction false} GrowFullStep(base: seq<nat>, widths: seq<nat>, maxima: seq<nat>, level: nat, extra: nat)
    requires Growable(base, maxima) && widths == Filled(base, maxima, level, 0)
    requires 0 < |GrowableFrom(widths, maxima, 0)| <= extra
    requires forall k :: 0 <= k < |GrowableFrom(widths, maxima, 0)| ==> GrowableFrom(widths, maxima, 0)[k] < |widths|
    ensures var growable := GrowableFrom(widths, maxima, 0);
            var share := Share(extra, |growable|);
            GrowRound(growable, widths, maxima, share, extra).0 == Filled(base, maxima, level + share, 0)
  {
    var growable := GrowableFrom(widths, maxima, 0);
    var share := Share(extra, |growable|);
    ShareFacts(extra, |growable|);
    FullCostIsProduct(widths, maxima, 0, share);
    RoundByPosition(widths, widths, maxima, 0, share, extra);
    var next := RoundFrom(widths, maxima, 0, share, extra);
    forall j | 0 <= j < |widths| ensures next[j] == Min(maxima[j], widths[j] + share) {
      FullRound(widths, maxima, 0, share, extra, j);
    }
    RaiseLevel(base, widths, maxima, level, share, next);
  }

  /** Growing a level surface leaves a level surface, with at most one leading pixel of difference. */
  lemma {:induction false} GrowFromLevel(base: seq<nat>, widths: seq<nat>, maxima: seq<nat>, level: nat, extra: nat)
    returns (finalLevel: nat, lead: nat)
    requires Growable(base, maxima) && widths == Filled(base, maxima, level, 0)
    ensures lead <= |base|
    ensures Grow(widths, maxima, extra) == Filled(base, maxima, finalLevel, lead)
    decreases extra
  {
    var growable := GrowableFrom(widths, maxima, 0);
    GrowableFromFacts(widths, maxima, 0);
    if extra == 0 || growable == [] {
      finalLevel, lead := level, 0;
    } else if extra < |growable| {
      finalLevel := level;
      lead := GrowLastStep(base, widths, maxima, level, extra);
    } else {
      var share := Share(extra, |growable|);
      GrowFullStep(base, widths, maxima, level, extra);
      var round := GrowRound(growable, widths, maxima, share, extra);
      finalLevel, lead := GrowFromLevel(base, round.0, maxima, level + share, round.1);
    }
  }

  /** Growth hands out all the extra width unless every child reaches its maximum. */
  lemma {:induction false} GrowTotal(widths: seq<nat>, maxima: seq<nat>, extra: nat)
    requires Growable(widths, maxima)
    ensures Growable(Grow(widths, maxima, extra), maxima)
    ensures Sum(Grow(widths, maxima, extra)) == Sum(widths) + extra
            || (Sum(Grow(widths, maxima, extra)) < Sum(widths) + extra && Grow(widths, maxima, extra) == maxima)
    decreases extra
  {
    var growable := GrowableFrom(widths, maxima, 0);
    GrowableFromFacts(widths, maxima, 0);
    if extra == 0 {
    } else if growable == [] {
      assert widths == maxima;
    } else {
      var share := Share(extra, |growable|);
      RoundConserves(growable, widths, maxima, share, extra);
      var round := GrowRound(growable, widths, maxima, share, extra);
      GrowTotal(round.0, maxima, round.1);
    }
  }

  lemma {:induction false} GrowOnlyWidens(widths: seq<nat>, maxima: seq<nat>, extra: nat)
    requires Growable(widths, maxima)
    ensures Growable(widths, Grow(widths, maxima, extra))
  {
    assert widths == Filled(widths, maxima, 0, 0);
    var level, lead := GrowFromLevel(widths, widths, maxima, 0, extra);
  }

  /** `grow_widths` is max-min fair: for some level every child grows by the level or by its room,
      a prefix of the still growable ones by one more; and it hands out all the extra width unless
      every child is at its maximum. */
  lemma {:induction false} GrowIsFair(widths: seq<nat>, maxima: seq<nat>, extra: nat)
    requires Growable(widths, maxima)
    ensures exists level: nat, lead: nat :: lead <= |widths| && Grow(widths, maxima, extra) == Filled(widths, maxima, level, lead)
    ensures Sum(Grow(widths, maxima, extra)) == Min(Sum(widths) + extra, Sum(maxima))
  {
    assert widths == Filled(widths, maxima, 0, 0);
    var level, lead := GrowFromLevel(widths, widths, maxima, 0, extra);
    GrowTotal(widths, maxima, extra);
    SumMonotone(Grow(widths, maxima, extra), maxima);
  }

  /** A fair filling is determined by its total, so the loop computes the only one there is. */
  lemma {:induction false} FairIsUnique(widths: seq<nat>, maxima: seq<nat>, level: nat, lead: nat, level': nat, lead': nat)
    requires Growable(widths, maxima) && lead <= |widths| && lead' <= |widths|
    requires Sum(Filled(widths, maxima, level, lead)) == Sum(Filled(widths, maxima, level', lead'))
    ensures Filled(widths, maxima, level, lead) == Filled(widths, maxima, level', lead')
  {
    if level < level' || (level == level' && lead <= lead') {
      SumMonotone(Filled(widths, maxima, level, lead), Filled(widths, maxima, level', lead'));
    } else {
      SumMonotone(Filled(widths, maxima, level', lead'), Filled(widths, maxima, level, lead));
    }
  }

  // ----- equal division -----

  function EqualWidths(count: nat, content: nat): (r: seq<nat>)
    requires count > 0
    ensures |r| == count
  {
    seq(count, i => content / count + (if i < content % count then 1 else 0))
  }

  lemma {:induction false} LeadingOnes(s: seq<nat>, base: nat, ones: nat)
    requires ones <= |s|
    requires forall i :: 0 <= i < |s| ==> s[i] == base + (if i < ones then 1 else 0)
    ensures Sum(s) == base * |s| + ones
  {
    if s == [] {
    } else {
      LeadingOnes(s[1..], base, if ones == 0 then 0 else ones - 1);
      assert base * |s| == base + base * (|s| - 1);
    }
  }

  lemma {:induction false} QuotientInRange(content: nat, count: nat, minimum: nat, maximum: nat)
    requires count > 0 && minimum * count <= content <= maximum * count
    ensures minimum <= content / count <= maximum
    ensures content % count > 0 ==> content / count < maximum
  {
    var base, ones := content / count, content % count;
    assert content == base * count + ones;
    MulSucc(count, base);
    MulCancel(minimum, base + 1, count);
    MulSucc(count, maximum);
    MulCancel(base, maximum + 1, count);
    if ones > 0 {
      MulCancel(base, maximum, count);
    }
  }

  /** Equal division hands out the content exactly and respects every common range that admits it. */
  lemma {:induction false} EqualWidthsTile(count: nat, content: nat, minimum: nat, maximum: nat)
    requires count > 0 && minimum * count <= content <= maximum * count
    ensures Sum(EqualWidths(count, content)) == content
    ensures forall i :: 0 <= i < count ==> minimum <= EqualWidths(count, content)[i] <= maximum
    ensures forall i, j :: 0 <= i < j < count ==>
              0 <= EqualWidths(count, content)[i] - EqualWidths(count, content)[j] <= 1
  {
    var r := EqualWidths(count, content);
    var base, ones := content / count, content % count;
    assert content == base * count + ones;
    LeadingOnes(r, base, ones);
    QuotientInRange(content, count, minimum, maximum);
  }

  // ----- flexible space -----

  /** A flexible space: its position and its weight. */
  datatype Flex = Flex(index: nat, weight: u32)

  function TotalWeight(flexible: seq<Flex>): nat {
    if flexible == [] then 0 else flexible[0].weight + TotalWeight(flexible[1..])
  }

  /** What the pass may still hand out, as an inequality that needs no division. */
  predicate Affordable(flexible: seq<Flex>, extra: nat, total: nat, given: nat) {
    given <= extra && given * total + extra * TotalWeight(flexible) <= extra * total
  }

  lemma {:induction false} FloorStep(extra: nat, weight: nat, others: nat, total: nat, given: nat)
    requires total > 0 && given * total + extra * (weight + others) <= extra * total
    ensures extra * weight / total >= 0
    ensures given + extra * weight / total <= extra
    ensures (given + extra * weight / total) * total + extra * others <= extra * total
  {
    var product: nat := extra * weight;
    FloorTimes(product, total);
    var addition: nat := product / total;
    Distributes(extra, weight, others);
    Distributes(total, given, addition);
    MulSucc(total, extra);
    MulCancel(given + addition, extra + 1, total);
  }

  lemma {:induction false} FloorTimes(product: nat, total: nat)
    requires total > 0
    ensures 0 <= product / total && (product / total) * total <= product
  {
  }

  lemma {:induction false} Distributes(a: nat, b: nat, c: nat)
    ensures a * (b + c) == a * b + a * c && (b + c) * a == b * a + c * a
  {
  }

  lemma {:induction false} FloorShareAffordable(flexible: seq<Flex>, extra: nat, total: nat, given: nat)
    requires total > 0 && flexible != [] && Affordable(flexible, extra, total, given)
    ensures extra * flexible[0].weight / total >= 0
    ensures Affordable(flexible[1..], extra, total, given + extra * flexible[0].weight / total)
  {
    FloorStep(extra, flexible[0].weight, TotalWeight(flexible[1..]), total, given);
  }

  /** Floor shares in order, the remainder on the last flexible space. */
  function Shares(flexible: seq<Flex>, extra: nat, total: nat, given: nat): (r: seq<nat>)
    requires total > 0 && Affordable(flexible, extra, total, given)
    ensures |r| == |flexible|
    decreases |flexible|
  {
    if flexible == [] then
      []
    else if |flexible| == 1 then
      [extra - given]
    else
      FloorShareAffordable(flexible, extra, total, given);
      var addition := extra * flexible[0].weight / total;
      [addition] + Shares(flexible[1..], extra, total, given + addition)
  }

  /** The shares add up to what is left, and all but the last are exact floors. */
  lemma {:induction false} SharesAddUp(flexible: seq<Flex>, extra: nat, total: nat, given: nat)
    requires total > 0 && flexible != [] && Affordable(flexible, extra, total, given)
    ensures Sum(Shares(flexible, extra, total, given)) == extra - given
    ensures forall k :: 0 <= k < |flexible| - 1 ==>
              Shares(flexible, extra, total, given)[k] == extra * flexible[k].weight / total
    decreases |flexible|
  {
    if |flexible| == 1 {
    } else {
      FloorShareAffordable(flexible, extra, total, given);
      var addition := extra * flexible[0].weight / total;
      SharesAddUp(flexible[1..], extra, total, given + addition);
      assert Shares(flexible, extra, total, given)[1..] == Shares(flexible[1..], extra, total, given + addition);
    }
  }

  /** The product taken before the division fits the 64-bit word that holds it. */
  lemma {:induction false} ShareProductFits(extra: nat, flex: Flex)
    requires extra < U32_LIMIT
    ensures extra * flex.weight < U64_LIMIT
  {
    assert extra * flex.weight <= extra * (U32_LIMIT - 1);
    assert extra * (U32_LIMIT - 1) <= (U32_LIMIT - 1) * (U32_LIMIT - 1);
  }

  function AddShares(flexible: seq<Flex>, shares: seq<nat>, widths: seq<nat>): (r: seq<nat>)
    requires |shares| == |flexible|
    requires forall f :: f in flexible ==> f.index < |widths|
    ensures |r| == |widths|
    decreases |flexible|
  {
    if flexible == [] then widths
    else
      AddShares(flexible[1..], shares[1..], widths[flexible[0].index := widths[flexible[0].index] + shares[0]])
  }

  function Distribute(flexible: seq<Flex>, widths: seq<nat>, extra: nat): (r: seq<nat>)
    requires forall f :: f in flexible ==> f.index < |widths|
    ensures |r| == |widths|
  {
    if extra == 0 || TotalWeight(flexible) == 0 then widths
    else AddShares(flexible, Shares(flexible, extra, TotalWeight(flexible), 0), widths)
  }

  ghost predicate Increasing(flexible: seq<Flex>) {
    forall i, j :: 0 <= i < j < |flexible| ==> flexible[i].index < flexible[j].index
  }

  ghost predicate FlexAt(flexible: seq<Flex>, index: nat) {
    exists k :: 0 <= k < |flexible| && flexible[k].index == index
  }

  lemma {:induction false} FlexAtTail(flexible: seq<Flex>, index: nat)
    requires flexible != []
    ensures FlexAt(flexible, index) <==> flexible[0].index == index || FlexAt(flexible[1..], index)
  {
    var tail := flexible[1..];
    if FlexAt(flexible, index) && flexible[0].index != index {
      var k :| 0 <= k < |flexible| && flexible[k].index == index;
      assert tail[k - 1].index == index;
    }
    if FlexAt(tail, index) {
      var k :| 0 <= k < |tail| && tail[k].index == index;
      assert flexible[k + 1].index == index;
    }
  }

  lemma {:induction false} AddSharesTotal(flexible: seq<Flex>, shares: seq<nat>, widths: seq<nat>)
    requires |shares| == |flexible|
    requires forall f :: f in flexible ==> f.index < |widths|
    ensures Sum(AddShares(flexible, shares, widths)) == Sum(widths) + Sum(shares)
    decreases |flexible|
  {
    if flexible != [] {
      var index := flexible[0].index;
      SumUpdate(widths, index, widths[index] + shares[0]);
      AddSharesTotal(flexible[1..], shares[1..], widths[index := widths[index] + shares[0]]);
    }
  }

  /** A position outside the list keeps its width. */
  lemma {:induction false} AddSharesFrame(flexible: seq<Flex>, shares: seq<nat>, widths: seq<nat>, i: nat)
    requires |shares| == |flexible| && i < |widths| && !FlexAt(flexible, i)
    requires forall f :: f in flexible ==> f.index < |widths|
    ensures AddShares(flexible, shares, widths)[i] == widths[i]
    decreases |flexible|
  {
    if flexible != [] {
      FlexAtTail(flexible, i);
      var index := flexible[0].index;
      AddSharesFrame(flexible[1..], shares[1..], widths[index := widths[index] + shares[0]], i);
    }
  }

  /** A listed position widens by exactly its share. */
  lemma {:induction false} AddSharesAt(flexible: seq<Flex>, shares: seq<nat>, widths: seq<nat>, k: nat)
    requires |shares| == |flexible| && Increasing(flexible) && k < |flexible|
    requires forall f :: f in flexible ==> f.index < |widths|
    ensures AddShares(flexible, shares, widths)[flexible[k].index] == widths[flexible[k].index] + shares[k]
    decreases |flexible|
  {
    var index := flexible[0].index;
    var next := widths[index := widths[index] + shares[0]];
    var tail := flexible[1..];
    assert forall j :: 0 <= j < |tail| ==> tail[j] == flexible[j + 1] && tail[j].index > index;
    if k == 0 {
      AddSharesFrame(tail, shares[1..], next, index);
    } else {
      AddSharesAt(tail, shares[1..], next, k - 1);
      assert tail[k - 1] == flexible[k];
    }
  }

  /** Flexible spaces absorb exactly the free width; with no weight at all nothing changes. */
  lemma {:induction false} DistributeAbsorbs(flexible: seq<Flex>, widths: seq<nat>, extra: nat)
    requires Increasing(flexible)
    requires forall f :: f in flexible ==> f.index < |widths|
    ensures Sum(Distribute(flexible, widths, extra)) == Sum(widths) + (if TotalWeight(flexible) > 0 then extra else 0)
  {
    var total := TotalWeight(flexible);
    if extra > 0 && total > 0 {
      SharesAddUp(flexible, extra, total, 0);
      AddSharesTotal(flexible, Shares(flexible, extra, total, 0), widths);
    }
  }

  /** Nothing but a flexible space widens, and nothing narrows. */
  lemma {:induction false} DistributeFrame(flexible: seq<Flex>, widths: seq<nat>, extra: nat, i: nat)
    requires Increasing(flexible) && i < |widths|
    requires forall f :: f in flexible ==> f.index < |widths|
    ensures widths[i] <= Distribute(flexible, widths, extra)[i]
    ensures !FlexAt(flexible, i) ==> Distribute(flexible, widths, extra)[i] == widths[i]
  {
    var total := TotalWeight(flexible);
    if extra > 0 && total > 0 {
      var shares := Shares(flexible, extra, total, 0);
      if FlexAt(flexible, i) {
        var k :| 0 <= k < |flexible| && flexible[k].index == i;
        AddSharesAt(flexible, shares, widths, k);
      } else {
        AddSharesFrame(flexible, shares, widths, i);
      }
    }
  }

  /** Every flexible space but the last receives the floor of its weighted share. */
  lemma {:induction false} DistributeFloors(flexible: seq<Flex>, widths: seq<nat>, extra: nat, k: nat)
    requires Increasing(flexible)
    requires forall f :: f in flexible ==> f.index < |widths|
    requires TotalWeight(flexible) > 0 && k < |flexible| - 1
    ensures flexible[k] in flexible
    ensures Distribute(flexible, widths, extra)[flexible[k].index]
            == widths[flexible[k].index] + extra * flexible[k].weight / TotalWeight(flexible)
  {
    var total := TotalWeight(flexible);
    assert flexible[k] in flexible;
    if extra > 0 {
      SharesAddUp(flexible, extra, total, 0);
      AddSharesAt(flexible, Shares(flexible, extra, total, 0), widths, k);
    } else {
      assert extra * flexible[k].weight == 0;
    }
  }
}
