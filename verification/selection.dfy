/** select_bis_sync_bitfield: which BIS indexes to join, given the BASE
    data and the requested-BIS table. With a configured target channel
    (CONFIG_TARGET_BROADCAST_CHANNEL) it looks for BISes whose channel
    allocation matches the target; without one it takes every requested BIS
    that the BASE offers, capped to the stream count when a request says
    "no preference". */
module Selection {
  import opened Common
  import opened Bitfields
  import opened SinkConfig
  import opened Base

  // ---------------------------------------------------------------------
  // Unconstrained mode
  // ---------------------------------------------------------------------

  /** The BIS indexes subgroups 0 .. k - 1 both request and contain:
      the OR of `req[i] & bis_index_bitfield[i]`. */
  function Offered(base: BaseData, req: seq<Bitfield>, k: nat): Bitfield
    requires k <= |req| && k <= |base.subgroups|
  {
    if k == 0 then {} else Offered(base, req, k - 1) + req[k - 1] * base.subgroups[k - 1].bisIndexes
  }

  /** Some subgroup's request is the "no preference" value. */
  ghost predicate NoPrefRequested(lim: Limits, req: seq<Bitfield>) {
    exists i | 0 <= i < |req| :: req[i] != {} && req[i] == lim.noPref
  }

  /** The unconstrained result: everything offered, or, after a "no
      preference" request, the STREAM_COUNT lowest of it. */
  ghost predicate UnconstrainedResult(lim: Limits, base: BaseData, req: seq<Bitfield>, r: Bitfield)
    requires |req| <= |base.subgroups|
  {
    var offered := Offered(base, req, |req|);
    && (!NoPrefRequested(lim, req) ==> r == offered)
    && (NoPrefRequested(lim, req) ==> IsLowestN(r, offered, lim.streamCount))
  }

  /** The unconstrained branch of select_bis_sync_bitfield. */
  method SelectUnconstrained(lim: Limits, base: BaseData, req: seq<Bitfield>) returns (r: Bitfield)
    requires lim.Valid() && Fits(lim, base) && |req| == lim.maxSubgroups
    ensures UnconstrainedResult(lim, base, req, r)
    ensures r <= Offered(base, req, |req|)
    ensures NoPrefRequested(lim, req) ==> |r| <= lim.streamCount
  {
    var noPref := false;
    var result: Bitfield := {};
    var i := 0;
    while i < lim.maxSubgroups
      invariant i <= lim.maxSubgroups
      invariant result == Offered(base, req, i)
      invariant noPref <==> exists j | 0 <= j < i :: req[j] != {} && req[j] == lim.noPref
    {
      if req[i] != {} {
        if req[i] == lim.noPref {
          noPref := true;
        }
        result := result + req[i] * base.subgroups[i].bisIndexes;
      } else {
        assert req[i] * base.subgroups[i].bisIndexes == {};
      }
      i := i + 1;
    }
    if noPref {
      r := KeepLeastSignificantOnes(result, lim.streamCount);
    } else {
      r := result;
    }
  }

  /** Without any request, nothing is offered. */
  lemma {:induction false} NoRequestsOfferNothing(base: BaseData, req: seq<Bitfield>, k: nat)
    requires k <= |req| && k <= |base.subgroups|
    requires forall i | 0 <= i < k :: req[i] == {}
    ensures Offered(base, req, k) == {}
  {
    if k > 0 {
      NoRequestsOfferNothing(base, req, k - 1);
    }
  }

  /** A BIS index is offered exactly when some subgroup both requests it and contains it. */
  lemma {:induction false} OfferedIsRequestedAndPresent(base: BaseData, req: seq<Bitfield>, k: nat, b: nat)
    requires k <= |req| && k <= |base.subgroups|
    ensures b in Offered(base, req, k) <==> exists i | 0 <= i < k :: b in req[i] && b in base.subgroups[i].bisIndexes
  {
    if k > 0 {
      OfferedIsRequestedAndPresent(base, req, k - 1, b);
      if b in req[k - 1] && b in base.subgroups[k - 1].bisIndexes {
        assert b in Offered(base, req, k);
      }
    }
  }

  // ---------------------------------------------------------------------
  // Targeted-channel mode
  // ---------------------------------------------------------------------

  /** BIS index j is requested and has a valid allocation. */
  predicate Candidate(alloc: seq<BisAllocation>, req: Bitfield, j: nat) {
    1 <= j < |alloc| && alloc[j].valid && j - 1 in req
  }

  /** BIS index j alone carries exactly the target allocation. */
  predicate ExactAt(alloc: seq<BisAllocation>, req: Bitfield, t: Location, j: nat) {
    Candidate(alloc, req, j) && alloc[j].value == t
  }

  /** BIS index j carries part of the target allocation. */
  predicate PartialAt(alloc: seq<BisAllocation>, req: Bitfield, t: Location, j: nat) {
    Candidate(alloc, req, j) && alloc[j].value != t && alloc[j].value * t != {}
  }

  predicate PartialBit(alloc: seq<BisAllocation>, req: Bitfield, t: Location, b: nat) {
    PartialAt(alloc, req, t, b + 1)
  }

  /** The bits of the partial matches among BIS indexes 1 .. n - 1. */
  function PartialBits(alloc: seq<BisAllocation>, req: Bitfield, t: Location, n: nat): Bitfield {
    set b: nat | b < Width && b + 1 < n && PartialBit(alloc, req, t, b)
  }

  /** The OR of the allocations of the BIS indexes 1 .. n - 1 whose bit is in `bits`. */
  function OrOver(alloc: seq<BisAllocation>, bits: Bitfield, n: nat): Location
    requires n <= |alloc|
  {
    if n <= 1 then MonoAudio
    else OrOver(alloc, bits, n - 1) + (if n - 2 in bits then alloc[n - 1].value else MonoAudio)
  }

  /** BIS index j is a partial match that completes the target together with
      all earlier partial matches. */
  predicate CombinedAt(alloc: seq<BisAllocation>, req: Bitfield, t: Location, j: nat) {
    PartialAt(alloc, req, t, j) && j < |alloc| && OrOver(alloc, PartialBits(alloc, req, t, j + 1), j + 1) == t
  }

  /** The search of a subgroup ends at BIS index j. */
  predicate StopsAt(alloc: seq<BisAllocation>, req: Bitfield, t: Location, j: nat) {
    ExactAt(alloc, req, t, j) || CombinedAt(alloc, req, t, j)
  }

  ghost predicate NoMatch(alloc: seq<BisAllocation>, req: Bitfield, t: Location) {
    forall j | 1 <= j < |alloc| :: !StopsAt(alloc, req, t, j)
  }

  /** The BISes chosen when the search ends at j: the exact match alone, or all partial matches so far. */
  function Pick(alloc: seq<BisAllocation>, req: Bitfield, t: Location, j: nat): Bitfield
    requires StopsAt(alloc, req, t, j)
  {
    if ExactAt(alloc, req, t, j) then {j - 1} else PartialBits(alloc, req, t, j + 1)
  }

  /** The search of a subgroup first ends at BIS index j and picks `r`. */
  ghost predicate PicksAt(alloc: seq<BisAllocation>, req: Bitfield, t: Location, j: nat, r: Bitfield) {
    && 1 <= j < |alloc|
    && StopsAt(alloc, req, t, j)
    && (forall j' | 1 <= j' < j :: !StopsAt(alloc, req, t, j'))
    && r == Pick(alloc, req, t, j)
  }

  /** A bit at or above BIS index n - 1 plays no part in the OR over indexes below n. */
  lemma {:induction false} OrOverIgnoresHighBit(alloc: seq<BisAllocation>, bits: Bitfield, x: nat, n: nat)
    requires n <= |alloc| && n <= x + 1 && x < Width
    ensures OrOver(alloc, bits + {x}, n) == OrOver(alloc, bits, n)
  {
    if n > 1 {
      OrOverIgnoresHighBit(alloc, bits, x, n - 1);
    }
  }

  /** One more BIS index: the partial bits grow by that index exactly when it is a partial match. */
  lemma PartialBitsStep(alloc: seq<BisAllocation>, req: Bitfield, t: Location, idx: nat)
    requires 1 <= idx
    ensures PartialBits(alloc, req, t, idx + 1)
            == PartialBits(alloc, req, t, idx) + (if PartialAt(alloc, req, t, idx) then {idx - 1} else {})
  {
    var lhs := PartialBits(alloc, req, t, idx + 1);
    var rhs := PartialBits(alloc, req, t, idx) + (if PartialAt(alloc, req, t, idx) then {idx - 1} else {});
    forall b | b in lhs ensures b in rhs {
      assert PartialBit(alloc, req, t, b);
    }
    forall b | b in rhs ensures b in lhs {
      if b == idx - 1 && PartialAt(alloc, req, t, idx) {
        assert PartialBit(alloc, req, t, b);
        assert b < Width;
      }
    }
  }

  /** One more BIS index in the combined allocation: it is OR-ed in exactly when it is a partial match. */
  lemma OrOverPartialStep(alloc: seq<BisAllocation>, req: Bitfield, t: Location, idx: nat)
    requires 1 <= idx < |alloc|
    ensures OrOver(alloc, PartialBits(alloc, req, t, idx + 1), idx + 1)
            == OrOver(alloc, PartialBits(alloc, req, t, idx), idx)
               + (if PartialAt(alloc, req, t, idx) then alloc[idx].value else MonoAudio)
  {
    var bits := PartialBits(alloc, req, t, idx);
    PartialBitsStep(alloc, req, t, idx);
    if PartialAt(alloc, req, t, idx) {
      OrOverIgnoresHighBit(alloc, bits, idx - 1, idx);
      assert idx - 1 in bits + {idx - 1};
    } else {
      assert PartialBits(alloc, req, t, idx + 1) == bits;
      assert idx - 1 !in bits;
      assert OrOver(alloc, bits, idx + 1) == OrOver(alloc, bits, idx) + MonoAudio;
    }
  }

  /** Extending the OR past the partial bits collected so far leaves it unchanged. */
  lemma {:induction false} OrOverPartialBeyond(alloc: seq<BisAllocation>, req: Bitfield, t: Location, n: nat, m: nat)
    requires n <= m <= |alloc|
    ensures OrOver(alloc, PartialBits(alloc, req, t, n), m) == OrOver(alloc, PartialBits(alloc, req, t, n), n)
    decreases m
  {
    if m > n {
      OrOverPartialBeyond(alloc, req, t, n, m - 1);
      assert m - 2 !in PartialBits(alloc, req, t, n);
    }
  }

  /** No search ends at any BIS index below n. */
  ghost predicate NoStopBelow(alloc: seq<BisAllocation>, req: Bitfield, t: Location, n: nat) {
    forall j | 1 <= j < n :: !StopsAt(alloc, req, t, j)
  }

  /** The result for one subgroup: nothing when the search never ends, the pick where it first ends otherwise. */
  ghost predicate SubgroupResult(alloc: seq<BisAllocation>, req: Bitfield, t: Location, r: Bitfield) {
    || (r == {} && NoMatch(alloc, req, t))
    || (r != {} && exists j :: PicksAt(alloc, req, t, j, r))
  }

  /** The inner loop of the targeted branch, for one subgroup with a non-zero
      request: walk BIS indexes upwards; stop at the first exact match, or
      at the first partial match that completes the target together with the
      partial matches before it. */
  method MatchSubgroup(alloc: seq<BisAllocation>, req: Bitfield, t: Location) returns (r: Bitfield)
    requires 1 <= |alloc| <= Width + 1
    ensures SubgroupResult(alloc, req, t, r)
  {
    var combineAlloc := MonoAudio;
    var combineBits: Bitfield := {};
    var idx := 1;
    while idx < |alloc|
      invariant 1 <= idx <= |alloc|
      invariant combineBits == PartialBits(alloc, req, t, idx)
      invariant combineAlloc == OrOver(alloc, combineBits, idx)
      invariant NoStopBelow(alloc, req, t, idx)
    {
      if alloc[idx].valid && idx - 1 in req && alloc[idx].value == t {
        r := {idx - 1};
        assert PicksAt(alloc, req, t, idx, r);
        return;
      }
      PartialBitsStep(alloc, req, t, idx);
      OrOverPartialStep(alloc, req, t, idx);
      if alloc[idx].valid && idx - 1 in req && alloc[idx].value * t != {} {
        combineAlloc := combineAlloc + alloc[idx].value;
        combineBits := combineBits + {idx - 1};
        if combineAlloc == t {
          r := combineBits;
          assert PicksAt(alloc, req, t, idx, r);
          return;
        }
      }
      assert !StopsAt(alloc, req, t, idx);
      idx := idx + 1;
    }
    r := {};
  }

  /** The targeted result: nothing when no requesting subgroup matches,
      otherwise the pick of the first requesting subgroup that matches. */
  ghost predicate TargetedResult(base: BaseData, req: seq<Bitfield>, t: Location, r: Bitfield)
    requires |req| <= |base.subgroups|
  {
    || (r == {} && NoMatchBefore(base, req, t, |req|))
    || exists k | 0 <= k < |req| :: ChosenSubgroup(base, req, t, k, r)
  }

  /** No requesting subgroup below k matches. */
  ghost predicate NoMatchBefore(base: BaseData, req: seq<Bitfield>, t: Location, k: nat)
    requires k <= |req| <= |base.subgroups|
  {
    forall i | 0 <= i < k && req[i] != {} :: NoMatch(base.subgroups[i].allocation, req[i], t)
  }

  /** Subgroup k is the first requesting subgroup that matches, and `r` is its pick. */
  ghost predicate ChosenSubgroup(base: BaseData, req: seq<Bitfield>, t: Location, k: nat, r: Bitfield)
    requires |req| <= |base.subgroups|
  {
    && k < |req|
    && req[k] != {}
    && NoMatchBefore(base, req, t, k)
    && exists j :: PicksAt(base.subgroups[k].allocation, req[k], t, j, r)
  }

  /** The targeted branch of select_bis_sync_bitfield. */
  method SelectTargeted(lim: Limits, base: BaseData, req: seq<Bitfield>, t: Location) returns (r: Bitfield)
    requires lim.Valid() && Fits(lim, base) && |req| == lim.maxSubgroups
    ensures TargetedResult(base, req, t, r)
  {
    r := {};
    var i := 0;
    while i < lim.maxSubgroups
      invariant i <= lim.maxSubgroups
      invariant r == {} && NoMatchBefore(base, req, t, i)
    {
      if req[i] != {} {
        r := MatchSubgroup(base.subgroups[i].allocation, req[i], t);
        if r != {} {
          ghost var j :| PicksAt(base.subgroups[i].allocation, req[i], t, j, r);
          assert ChosenSubgroup(base, req, t, i, r);
          return;
        }
      }
      i := i + 1;
    }
  }

  /** select_bis_sync_bitfield: targeted when a target channel is configured,
      unconstrained otherwise. */
  method SelectBisSyncBitfield(lim: Limits, target: Option<Location>, base: BaseData, req: seq<Bitfield>)
    returns (r: Bitfield)
    requires lim.Valid() && Fits(lim, base) && |req| == lim.maxSubgroups
    ensures target.Some? ==> TargetedResult(base, req, target.value, r)
    ensures target.None? ==> UnconstrainedResult(lim, base, req, r)
  {
    match target
    case Some(t) => r := SelectTargeted(lim, base, req, t);
    case None => r := SelectUnconstrained(lim, base, req);
  }

  /** A pick is never empty, lies within the request, uses only BISes with a
      valid allocation that overlaps the target, and is either one BIS whose
      allocation is the target or a set whose allocations OR to the target. */
  lemma PickMeetsTarget(alloc: seq<BisAllocation>, req: Bitfield, t: Location, j: nat, r: Bitfield)
    requires PicksAt(alloc, req, t, j, r)
    ensures r != {} && r <= req
    ensures forall b | b in r :: b + 1 < |alloc| && alloc[b + 1].valid && (alloc[b + 1].value * t != {} || alloc[b + 1].value == t)
    ensures (r == {j - 1} && alloc[j].value == t) || OrOver(alloc, r, |alloc|) == t
  {
    if !ExactAt(alloc, req, t, j) {
      assert j - 1 in r;
      OrOverPartialBeyond(alloc, req, t, j + 1, |alloc|);
    }
  }

  /** The targeted result is determined: two results that both meet the description are equal. */
  lemma TargetedResultUnique(base: BaseData, req: seq<Bitfield>, t: Location, r1: Bitfield, r2: Bitfield)
    requires |req| <= |base.subgroups|
    requires TargetedResult(base, req, t, r1) && TargetedResult(base, req, t, r2)
    ensures r1 == r2
  {
  }

  // ---------------------------------------------------------------------
  // Scenarios
  // ---------------------------------------------------------------------

  /** Front left and front right: bits 0 and 1 of the audio locations of
      the Bluetooth Assigned Numbers (section 6.12.1). */
  const FrontLeft: Location := {0}
  const FrontRight: Location := {1}

  /** BIS 1 front left, BIS 2 front right, BIS 3 both. A front-left-and-right
      target stops at BIS 2, where the two partial matches complete it, and
      takes BISes 1 and 2: the exact match on BIS 3 comes too late. */
  lemma CombinedMatchBeatsLaterExact()
    ensures var alloc := [NoAllocation, BisAllocation(true, FrontLeft), BisAllocation(true, FrontRight),
                          BisAllocation(true, FrontLeft + FrontRight)];
            && ExactAt(alloc, {0, 1, 2}, FrontLeft + FrontRight, 3)
            && PicksAt(alloc, {0, 1, 2}, FrontLeft + FrontRight, 2, {0, 1})
  {
    var alloc := [NoAllocation, BisAllocation(true, FrontLeft), BisAllocation(true, FrontRight),
                  BisAllocation(true, FrontLeft + FrontRight)];
    var req: Bitfield := {0, 1, 2};
    var t := FrontLeft + FrontRight;
    assert PartialAt(alloc, req, t, 1) && PartialAt(alloc, req, t, 2);
    PartialBitsStep(alloc, req, t, 1);
    PartialBitsStep(alloc, req, t, 2);
    assert PartialBits(alloc, req, t, 1) == {};
    assert PartialBits(alloc, req, t, 3) == {0, 1};
    assert OrOver(alloc, PartialBits(alloc, req, t, 2), 2) == FrontLeft;
    assert OrOver(alloc, {0, 1}, 1) == MonoAudio;
    assert OrOver(alloc, {0, 1}, 2) == FrontLeft;
    assert OrOver(alloc, {0, 1}, 3) == t;
  }

  /** One LC3 subgroup with BIS indexes 1 to 3: BIS 1 front left, BIS 2
      front right, BIS 3 without a BIS-level allocation, mono at subgroup level. */
  function LeftRightSubgroup(): SubgroupInput {
    SubgroupInput(Some(CodingFormatLc3), {0, 1, 2}, true, Some(MonoAudio),
                  [BisInput(1, Some(FrontLeft)), BisInput(2, Some(FrontRight)), BisInput(3, None)], true)
  }

  /** With a front-left target and a request that includes BIS 1, the
      selection for that BASE is BIS 1 alone. */
  lemma FrontLeftTargetPicksBisOne(lim: Limits, req: Bitfield)
    requires lim.Valid() && lim.bisIndexMax >= 3
    requires 0 in req
    ensures var base := BaseData([ResolveSlot(lim, EmptySlot(lim), LeftRightSubgroup())], 1);
            && TargetedResult(base, [req], FrontLeft, {0})
            && forall r | TargetedResult(base, [req], FrontLeft, r) :: r == {0}
  {
    var sg := LeftRightSubgroup();
    var slot := ResolveSlot(lim, EmptySlot(lim), sg);
    var base := BaseData([slot], 1);
    assert sg.bises[..2] == [BisInput(1, Some(FrontLeft)), BisInput(2, Some(FrontRight))];
    assert sg.bises[..2][..1] == [BisInput(1, Some(FrontLeft))];
    assert PerBisAllocation(sg.bises[..2][..1], 1) == Some(FrontLeft);
    assert PerBisAllocation(sg.bises[..2], 1) == Some(FrontLeft);
    assert PerBisAllocation(sg.bises, 1) == Some(FrontLeft);
    assert slot.allocation[1] == BisAllocation(true, FrontLeft);
    assert ExactAt(slot.allocation, req, FrontLeft, 1);
    assert PicksAt(slot.allocation, req, FrontLeft, 1, {0});
    assert base.subgroups[0] == slot && [req][0] == req;
    assert ChosenSubgroup(base, [req], FrontLeft, 0, {0});
    forall r | TargetedResult(base, [req], FrontLeft, r) ensures r == {0} {
      TargetedResultUnique(base, [req], FrontLeft, r, {0});
    }
  }
}
