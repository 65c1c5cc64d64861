/**
 A Fenwick tree over per-participant ticket counts: what its node array means, what one update
 does to it, and which participant a ticket number selects. Participants are numbered from 1;
 `t[i - 1]` is the ticket count of participant `i`, and node 0 is unused.
 */
module Fenwick {
  import opened Basics
  import opened Bytes
  import opened LowBit

  /** The sum of `t[lo..hi]`. */
  function Sum(t: seq<nat>, lo: nat, hi: nat): nat
    requires lo <= hi <= |t|
  {
    if lo == hi then 0 else Sum(t, lo, hi - 1) + t[hi - 1]
  }

  function Total(t: seq<nat>): nat { Sum(t, 0, |t|) }

  lemma {:induction false} SumSplit(t: seq<nat>, lo: nat, mid: nat, hi: nat)
    requires lo <= mid <= hi <= |t|
    ensures Sum(t, lo, hi) == Sum(t, lo, mid) + Sum(t, mid, hi)
  {
    if mid < hi { SumSplit(t, lo, mid, hi - 1); }
  }

  lemma SumWithin(t: seq<nat>, lo: nat, hi: nat)
    requires lo <= hi <= |t|
    ensures Sum(t, lo, hi) <= Total(t)
  {
    SumSplit(t, 0, lo, |t|);
    SumSplit(t, lo, hi, |t|);
  }

  lemma {:induction false} SumUpdate(t: seq<nat>, p: nat, v: nat, lo: nat, hi: nat)
    requires p < |t| && lo <= hi <= |t|
    ensures Sum(t[p := v], lo, hi) == Sum(t, lo, hi) + (if lo <= p < hi then v - t[p] else 0)
  {
    if lo < hi { SumUpdate(t, p, v, lo, hi - 1); }
  }

  lemma {:induction false} SumAgree(t: seq<nat>, t': seq<nat>, lo: nat, hi: nat)
    requires |t| == |t'| && lo <= hi <= |t|
    requires forall p :: lo <= p < hi ==> t[p] == t'[p]
    ensures Sum(t, lo, hi) == Sum(t', lo, hi)
  {
    if lo < hi { SumAgree(t, t', lo, hi - 1); }
  }

  lemma {:induction false} SumZero(t: seq<nat>, lo: nat, hi: nat)
    requires lo <= hi <= |t|
    requires forall p :: lo <= p < hi ==> t[p] == 0
    ensures Sum(t, lo, hi) == 0
  {
    if lo < hi { SumZero(t, lo, hi - 1); }
  }

  lemma SumMember(t: seq<nat>, p: nat)
    requires p < |t|
    ensures t[p] <= Total(t)
  {
    SumWithin(t, p, p + 1);
    assert Sum(t, p, p + 1) == t[p];
  }

  /** Every node holds the sum of the range of `Low(j)` counts that ends at `j`. */
  ghost predicate Represents(nodes: seq<nat>, t: seq<nat>)
  {
    && |nodes| == |t| + 1
    && forall j :: 1 <= j <= |t| ==> nodes[j] == Sum(t, j - Low(j), j)
  }

  /** A node array represents at most one ticket table. */
  lemma RepresentsUnique(nodes: seq<nat>, t: seq<nat>, t': seq<nat>)
    requires Represents(nodes, t) && Represents(nodes, t')
    ensures t == t'
  {
    AgreeUpTo(nodes, t, t', |t|);
  }

  lemma {:induction false} AgreeUpTo(nodes: seq<nat>, t: seq<nat>, t': seq<nat>, k: nat)
    requires Represents(nodes, t) && Represents(nodes, t') && k <= |t|
    ensures forall p :: 0 <= p < k ==> t[p] == t'[p]
  {
    if k > 0 {
      AgreeUpTo(nodes, t, t', k - 1);
      SumAgree(t, t', k - Low(k), k - 1);
      assert nodes[k] == Sum(t, k - Low(k), k) == Sum(t', k - Low(k), k);
    }
  }

  lemma ZeroRepresents(n: nat)
    ensures Represents(seq(n + 1, _ => 0), seq(n, _ => 0))
  {
    var t: seq<nat> := seq(n, _ => 0);
    forall j | 1 <= j <= n ensures Sum(t, j - Low(j), j) == 0 { SumZero(t, j - Low(j), j); }
  }

  // ----- one update -----

  /** The count of participant `i` is part of node `j`. */
  predicate Covers(j: nat, i: nat)
  {
    1 <= j && j - Low(j) < i <= j
  }

  /** `nodes` after the nodes below `k` that cover participant `i` were changed by `delta`. */
  function Bumped(nodes: seq<nat>, i: nat, delta: int, k: nat): (r: seq<int>)
    ensures |r| == |nodes|
  {
    seq(|nodes|, j requires 0 <= j < |nodes| => if j < k && Covers(j, i) then nodes[j] + delta else nodes[j])
  }

  /** Every node that covers `i` stays a `u64` when changed by `delta`. */
  predicate Fits(nodes: seq<nat>, i: nat, delta: int)
  {
    forall j :: 0 <= j < |nodes| && Covers(j, i) ==> 0 <= nodes[j] + delta <= U64_MAX
  }

  function Updated(nodes: seq<nat>, i: nat, delta: int): (r: seq<nat>)
    requires Fits(nodes, i, delta)
    ensures |r| == |nodes|
  {
    seq(|nodes|, j requires 0 <= j < |nodes| => if Covers(j, i) then nodes[j] + delta else nodes[j])
  }

  lemma BumpedAll(nodes: seq<nat>, i: nat, delta: int, k: nat)
    requires Fits(nodes, i, delta) && |nodes| <= k
    ensures Bumped(nodes, i, delta, k) == Updated(nodes, i, delta)
  {
  }

  /** The walk of the update: from a covering node, the next covering node is one low bit up. */
  lemma NextCovering(k: nat, i: nat)
    requires Covers(k, i)
    ensures Covers(k + Low(k), i)
    ensures forall j :: k < j < k + Low(k) ==> !Covers(j, i)
  {
    LowStep(k);
    forall j | k < j < k + Low(k) ensures !Covers(j, i) { LowBetween(k, j - k); }
  }

  /** Below `i` nothing covers `i`, and `i` covers itself: where the walk starts. */
  lemma FirstCovering(i: nat)
    requires 1 <= i
    ensures Covers(i, i)
    ensures forall j :: 0 <= j < i ==> !Covers(j, i)
  {
  }

  function WithDelta(t: seq<nat>, i: nat, delta: int): (r: seq<nat>)
    requires 1 <= i <= |t| && 0 <= t[i - 1] + delta
    ensures |r| == |t|
  {
    t[i - 1 := t[i - 1] + delta]
  }

  /** Changing the covering nodes represents the table with that one count changed. */
  lemma UpdateRepresents(nodes: seq<nat>, t: seq<nat>, i: nat, delta: int)
    requires Represents(nodes, t) && 1 <= i <= |t|
    requires 0 <= t[i - 1] + delta && Fits(nodes, i, delta)
    ensures Represents(Updated(nodes, i, delta), WithDelta(t, i, delta))
  {
    forall j | 1 <= j <= |t|
      ensures Updated(nodes, i, delta)[j] == Sum(WithDelta(t, i, delta), j - Low(j), j)
    {
      SumUpdate(t, i - 1, t[i - 1] + delta, j - Low(j), j);
    }
  }

  /** In a represented table whose total stays a `u64`, an update never overflows a node. */
  lemma UpdateFits(nodes: seq<nat>, t: seq<nat>, i: nat, delta: int)
    requires Represents(nodes, t) && 1 <= i <= |t|
    requires 0 <= t[i - 1] + delta && Total(t) + delta <= U64_MAX && Total(t) <= U64_MAX
    ensures Fits(nodes, i, delta)
  {
    forall j | 0 <= j < |nodes| && Covers(j, i) ensures 0 <= nodes[j] + delta <= U64_MAX {
      SumWithin(t, j - Low(j), j);
      SumSplit(t, j - Low(j), i - 1, j);
      SumSplit(t, i - 1, i, j);
      assert Sum(t, i - 1, i) == t[i - 1];
    }
  }

  /** Undoing an update gives back the node array. */
  lemma UpdateUndone(nodes: seq<nat>, i: nat, delta: int)
    requires Fits(nodes, i, delta)
    requires forall j :: 0 <= j < |nodes| ==> nodes[j] <= U64_MAX
    ensures Fits(Updated(nodes, i, delta), i, -delta)
    ensures Updated(Updated(nodes, i, delta), i, -delta) == nodes
  {
  }

  // ----- whole runs of updates -----

  datatype Update = Update(i: nat, delta: int)

  /** Each update names a participant, subtracts no more than is there, and keeps the total a `u64`. */
  ghost predicate Lawful(t: seq<nat>, us: seq<Update>)
    decreases |us|
  {
    us == [] ||
    (&& 1 <= us[0].i <= |t|
     && 0 <= t[us[0].i - 1] + us[0].delta
     && Total(t) + us[0].delta <= U64_MAX
     && Lawful(WithDelta(t, us[0].i, us[0].delta), us[1..]))
  }

  ghost function CountsAfter(t: seq<nat>, us: seq<Update>): (r: seq<nat>)
    requires Lawful(t, us)
    ensures |r| == |t|
    decreases |us|
  {
    if us == [] then t else CountsAfter(WithDelta(t, us[0].i, us[0].delta), us[1..])
  }

  /** No update of the run overflows a node. */
  ghost predicate AllFit(nodes: seq<nat>, us: seq<Update>)
    decreases |us|
  {
    us == [] ||
    (Fits(nodes, us[0].i, us[0].delta) && AllFit(Updated(nodes, us[0].i, us[0].delta), us[1..]))
  }

  ghost function NodesAfter(nodes: seq<nat>, us: seq<Update>): (r: seq<nat>)
    requires AllFit(nodes, us)
    decreases |us|
  {
    if us == [] then nodes else NodesAfter(Updated(nodes, us[0].i, us[0].delta), us[1..])
  }

  /** Every lawful run succeeds and ends in nodes for exactly the running counts. */
  lemma {:induction false} RunRepresents(nodes: seq<nat>, t: seq<nat>, us: seq<Update>)
    requires Represents(nodes, t) && Total(t) <= U64_MAX && Lawful(t, us)
    ensures AllFit(nodes, us)
    ensures Represents(NodesAfter(nodes, us), CountsAfter(t, us))
    decreases |us|
  {
    if us != [] {
      var u := us[0];
      UpdateFits(nodes, t, u.i, u.delta);
      UpdateRepresents(nodes, t, u.i, u.delta);
      SumUpdate(t, u.i - 1, t[u.i - 1] + u.delta, 0, |t|);
      RunRepresents(Updated(nodes, u.i, u.delta), WithDelta(t, u.i, u.delta), us[1..]);
    }
  }

  // ----- selecting a participant -----

  /** `r` is the first participant whose prefix sum reaches `target`, or one past the last. */
  ghost predicate Selects(t: seq<nat>, target: nat, r: nat)
  {
    && 1 <= r <= |t| + 1
    && (r <= |t| ==> target <= Sum(t, 0, r))
    && forall j :: 1 <= j < r ==> Sum(t, 0, j) < target
  }

  /** A linear search for that participant. */
  function Selected(t: seq<nat>, target: nat): (r: nat)
    ensures Selects(t, target, r)
  {
    FirstReaching(t, target, 1)
  }

  function FirstReaching(t: seq<nat>, target: nat, from: nat): (r: nat)
    requires 1 <= from <= |t| + 1
    requires forall j :: 1 <= j < from ==> Sum(t, 0, j) < target
    ensures Selects(t, target, r)
    decreases |t| + 1 - from
  {
    if from == |t| + 1 || target <= Sum(t, 0, from) then from else FirstReaching(t, target, from + 1)
  }

  lemma SelectsUnique(t: seq<nat>, target: nat, r: nat)
    requires Selects(t, target, r)
    ensures r == Selected(t, target)
  {
  }

  // ----- the power-of-two descent -----

  /** The first power-of-two multiple of `mask` above `n`. */
  function MaskAbove(mask: nat, n: nat): nat
    requires mask > 0
    decreases n + 1 - mask
  {
    if mask <= n then MaskAbove(2 * mask, n) else mask
  }

  /** Descend from `idx`, whose prefix sum is `cur`, with probes of width `step` and below. */
  function Descend(nodes: seq<nat>, target: nat, idx: nat, cur: nat, step: nat): Option<nat>
    requires |nodes| > 0
    decreases step
  {
    if step == 0 then Some(idx + 1)
    else if idx + step >= |nodes| then Descend(nodes, target, idx, cur, step / 2)
    else
      var cand := cur + nodes[idx + step];
      if cand > U64_MAX then None
      else if cand < target then Descend(nodes, target, idx + step, cand, step / 2)
      else Descend(nodes, target, idx, cur, step / 2)
  }

  /** `None` is the source's overflow error. */
  function FindPrefix(nodes: seq<nat>, target: nat): Option<nat>
    requires |nodes| > 0
  {
    Descend(nodes, target, 0, 0, MaskAbove(1, |nodes| - 1))
  }

  lemma {:induction false} MaskIsPower(k: nat, n: nat) returns (m: nat)
    ensures MaskAbove(Pow2(k), n) == Pow2(m) > n
    decreases n + 1 - Pow2(k)
  {
    if Pow2(k) <= n { m := MaskIsPower(k + 1, n); } else { m := k; }
  }

  /** Sums up to `idx` stay below `target`, and the sum at `hi` reaches it. */
  ghost predicate Between(t: seq<nat>, target: nat, idx: nat, hi: nat)
  {
    && idx <= |t| && (idx > 0 ==> Sum(t, 0, idx) < target)
    && (hi > |t| || target <= Sum(t, 0, hi))
  }

  lemma BetweenSelects(t: seq<nat>, target: nat, idx: nat)
    requires Between(t, target, idx, idx + 1)
    ensures Selects(t, target, idx + 1)
  {
    forall j | 1 <= j < idx + 1 ensures Sum(t, 0, j) < target { PrefixMonotone(t, j, idx); }
  }

  /** The node probed from an aligned index holds exactly the counts up to the probe. */
  lemma Probe(nodes: seq<nat>, t: seq<nat>, idx: nat, k: nat)
    requires Represents(nodes, t) && Aligned(idx, k + 1) && idx + Pow2(k) <= |t|
    ensures Sum(t, 0, idx) + nodes[idx + Pow2(k)] == Sum(t, 0, idx + Pow2(k)) <= Total(t)
  {
    AlignedStep(idx, k);
    SumSplit(t, 0, idx, idx + Pow2(k));
    SumWithin(t, 0, idx + Pow2(k));
  }

  /** `r` answers the search for `target` in `t`. */
  ghost predicate Answers(t: seq<nat>, target: nat, r: Option<nat>)
  {
    (r.Some? ==> Selects(t, target, r.value)) && (Total(t) <= U64_MAX ==> r.Some?)
  }

  /** From an aligned index, the descent finds the answer that lies in the `2 * Pow2(k)` places after it. */
  lemma {:induction false} DescendSelects(nodes: seq<nat>, t: seq<nat>, target: nat, idx: nat, k: nat)
    requires Represents(nodes, t) && Aligned(idx, k + 1) && Between(t, target, idx, idx + 2 * Pow2(k))
    ensures Answers(t, target, Descend(nodes, target, idx, Sum(t, 0, idx), Pow2(k)))
    decreases k, 1
  {
    var next := idx + Pow2(k);
    AlignedStep(idx, k);
    if next > |t| {
      DescendRest(nodes, t, target, idx, k);
    } else {
      Probe(nodes, t, idx, k);
      if Sum(t, 0, next) < target {
        DescendRest(nodes, t, target, next, k);
      } else {
        DescendRest(nodes, t, target, idx, k);
      }
    }
  }

  lemma {:induction false} DescendRest(nodes: seq<nat>, t: seq<nat>, target: nat, idx: nat, k: nat)
    requires Represents(nodes, t) && Aligned(idx, k) && Between(t, target, idx, idx + Pow2(k))
    ensures Answers(t, target, Descend(nodes, target, idx, Sum(t, 0, idx), Pow2(k) / 2))
    decreases k, 0
  {
    if k > 0 {
      DescendSelects(nodes, t, target, idx, k - 1);
    } else {
      BetweenSelects(t, target, idx);
    }
  }

  /**
   The descent is right: on nodes that represent `t`, an answer is the first participant whose prefix
   sum reaches `target`, and there is always an answer when the total is a `u64`.
   */
  lemma FindPrefixSelects(nodes: seq<nat>, t: seq<nat>, target: nat)
    requires Represents(nodes, t)
    ensures var r := FindPrefix(nodes, target);
            (r.Some? ==> r.value == Selected(t, target)) && (Total(t) <= U64_MAX ==> r.Some?)
  {
    var m := MaskIsPower(0, |t|);
    ZeroAligned(m + 1);
    DescendSelects(nodes, t, target, 0, m);
  }

  lemma PrefixMonotone(t: seq<nat>, a: nat, b: nat)
    requires a <= b <= |t|
    ensures Sum(t, 0, a) <= Sum(t, 0, b)
  {
    SumSplit(t, 0, a, b);
  }

  /** Participant `i` owns exactly the consecutive tickets after those of the participants before it. */
  lemma TicketRange(t: seq<nat>, i: nat, ticket: nat)
    requires 1 <= i <= |t| && 1 <= ticket
    ensures Selected(t, ticket) == i <==> Sum(t, 0, i - 1) < ticket <= Sum(t, 0, i)
  {
    var r := Selected(t, ticket);
    if Sum(t, 0, i - 1) < ticket <= Sum(t, 0, i) {
      forall j | 1 <= j < i ensures Sum(t, 0, j) < ticket { PrefixMonotone(t, j, i - 1); }
      SelectsUnique(t, ticket, i);
    }
  }

  /** A ticket of the round selects a participant who holds tickets. */
  lemma SelectedHolds(t: seq<nat>, ticket: nat)
    requires 1 <= ticket <= Total(t)
    ensures 1 <= Selected(t, ticket) <= |t|
    ensures t[Selected(t, ticket) - 1] > 0
  {
    var r := Selected(t, ticket);
    if r <= |t| { TicketRange(t, r, ticket); }
  }

  /** The integers above `lo`, up to and including `hi`. */
  ghost function Interval(lo: int, hi: int): (s: set<int>)
    ensures forall x :: x in s <==> lo < x <= hi
    ensures |s| == if lo <= hi then hi - lo else 0
    decreases hi - lo
  {
    if lo >= hi then {} else Interval(lo, hi - 1) + {hi}
  }

  /** Exact fairness: of the tickets 1..total, participant `i` is selected by exactly `t[i - 1]`. */
  lemma ExactFairness(t: seq<nat>, i: nat)
    requires 1 <= i <= |t|
    ensures |(set x: int | 1 <= x <= Total(t) && Selected(t, x) == i)| == t[i - 1]
  {
    var lo, hi := Sum(t, 0, i - 1), Sum(t, 0, i);
    SumWithin(t, 0, i);
    forall x: int | 1 <= x <= Total(t) ensures Selected(t, x) == i <==> lo < x <= hi { TicketRange(t, i, x); }
    assert (set x: int | 1 <= x <= Total(t) && Selected(t, x) == i) == Interval(lo, hi);
    assert Sum(t, 0, i) == Sum(t, 0, i - 1) + t[i - 1];
  }
}
