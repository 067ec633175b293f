/** The BASE (Broadcast Audio Source Endpoint, section 3.7.2.2 of the
    Bluetooth Basic Audio Profile) as the sink keeps it: for each subgroup
    the BIS-index bitfield and, per BIS index 1 .. BT_ISO_BIS_INDEX_MAX, a
    channel allocation that is either valid or not. The codec-configuration
    decoding of the stack is not modelled: what it returned for each subgroup
    and each BIS is the input. */
module Base {
  import opened Common
  import opened Bitfields
  import opened SinkConfig

  /** A channel-allocation bitmask (enum bt_audio_location, a uint32_t), as
      the set of its 1-bits like every other bitfield here: OR is union, AND
      is intersection, and the empty set (0) is mono audio. */
  type Location = Bitfield

  const MonoAudio: Location := {}

  /** BT_HCI_CODING_FORMAT_LC3. */
  const CodingFormatLc3: nat := 0x06

  /** struct bis_audio_allocation. */
  datatype BisAllocation = BisAllocation(valid: bool, value: Location)

  const NoAllocation: BisAllocation := BisAllocation(false, MonoAudio)

  /** struct base_subgroup_data: `allocation[i]` belongs to BIS index i; entry 0 is unused. */
  datatype SubgroupData = SubgroupData(bisIndexes: Bitfield, allocation: seq<BisAllocation>)

  /** struct base_data. */
  datatype BaseData = BaseData(subgroups: seq<SubgroupData>, subgroupCnt: nat)

  predicate SlotFits(lim: Limits, s: SubgroupData) {
    |s.allocation| == lim.bisIndexMax + 1
  }

  predicate Fits(lim: Limits, d: BaseData) {
    && |d.subgroups| == lim.maxSubgroups
    && d.subgroupCnt <= lim.maxSubgroups
    && forall i | 0 <= i < |d.subgroups| :: SlotFits(lim, d.subgroups[i])
  }

  /** A subgroup entry after the memset of base_recv_cb. */
  function EmptySlot(lim: Limits): (r: SubgroupData)
    ensures SlotFits(lim, r)
  {
    SubgroupData({}, seq(lim.bisIndexMax + 1, _ => NoAllocation))
  }

  function EmptyBase(lim: Limits): (r: BaseData)
    requires lim.Valid()
    ensures Fits(lim, r) && r.subgroupCnt == 0
  {
    BaseData(seq(lim.maxSubgroups, _ => EmptySlot(lim)), 0)
  }

  /** One BIS of a subgroup as the stack reports it: its index and the
      result of the BIS-level channel-allocation lookup (None when the codec
      configuration or the allocation could not be read). */
  datatype BisInput = BisInput(index: nat, allocation: Option<Location>)

  /** One subgroup of the BASE as the stack reports it: the codec id (None
      when the codec configuration could not be read), the BIS-index
      bitfield and whether reading it succeeded, the subgroup-level channel
      allocation, the BISes in the order the stack visits them, and whether
      that visit completed. */
  datatype SubgroupInput = SubgroupInput(
    codecId: Option<nat>,
    bisIndexes: Bitfield,
    bisIndexesOk: bool,
    allocation: Option<Location>,
    bises: seq<BisInput>,
    bisIterOk: bool)

  /** Every BIS index the stack reports fits the allocation array. */
  predicate InputFits(lim: Limits, sg: SubgroupInput) {
    forall k | 0 <= k < |sg.bises| :: sg.bises[k].index <= lim.bisIndexMax
  }

  predicate IsLc3(sg: SubgroupInput) {
    sg.codecId == Some(CodingFormatLc3)
  }

  /** The BIS-level lookups ran: LC3, BIS indexes read, subgroup allocation found. */
  predicate BisLookupsRan(sg: SubgroupInput) {
    IsLc3(sg) && sg.bisIndexesOk && sg.allocation.Some?
  }

  /** The subgroup was processed up to and including the fallback loop. */
  predicate Complete(sg: SubgroupInput) {
    BisLookupsRan(sg) && sg.bisIterOk
  }

  /** The allocation found for BIS index `idx` by the last successful BIS-level lookup, if any. */
  function PerBisAllocation(bises: seq<BisInput>, idx: nat): Option<Location> {
    if |bises| == 0 then None
    else
      var last := bises[|bises| - 1];
      if last.index == idx && last.allocation.Some? then last.allocation
      else PerBisAllocation(bises[..|bises| - 1], idx)
  }

  /** bis_get_channel_allocation_cb applied to each BIS in turn: a successful
      lookup marks the entry valid and stores the allocation, a failed one
      leaves the entry alone. */
  function ApplyBisAllocations(alloc: seq<BisAllocation>, bises: seq<BisInput>): (r: seq<BisAllocation>)
    requires forall k | 0 <= k < |bises| :: bises[k].index < |alloc|
    ensures |r| == |alloc|
    ensures forall i | 0 <= i < |alloc| ::
              r[i] == match PerBisAllocation(bises, i)
                      case Some(v) => BisAllocation(true, v)
                      case None => alloc[i]
  {
    if |bises| == 0 then alloc
    else
      var prefix := ApplyBisAllocations(alloc, bises[..|bises| - 1]);
      var last := bises[|bises| - 1];
      match last.allocation
      case Some(v) => prefix[last.index := BisAllocation(true, v)]
      case None => prefix
  }

  /** The fallback loop of subgroup_get_valid_bis_indexes_cb from index
      `idx` on: every present BIS index without a valid allocation gets the
      subgroup allocation `v`. Index 0 and indexes below `idx` are left alone. */
  function FillFallback(alloc: seq<BisAllocation>, bits: Bitfield, v: Location, idx: nat): (r: seq<BisAllocation>)
    requires 1 <= idx <= |alloc|
    ensures |r| == |alloc|
    ensures forall k | 0 <= k < |alloc| && (k < idx || k - 1 !in bits || alloc[k].valid) :: r[k] == alloc[k]
    ensures forall k | idx <= k < |alloc| && k - 1 in bits && !alloc[k].valid :: r[k] == BisAllocation(true, v)
    decreases |alloc| - idx
  {
    if idx == |alloc| then alloc
    else
      var next := if idx - 1 in bits && !alloc[idx].valid then alloc[idx := BisAllocation(true, v)] else alloc;
      FillFallback(next, bits, v, idx + 1)
  }

  /** subgroup_get_valid_bis_indexes_cb, for the subgroup entry it writes.
      A non-LC3 subgroup leaves the entry alone; an LC3 subgroup stores its
      BIS-index bitfield; a subgroup without a subgroup-level allocation is
      skipped before any BIS-level lookup; a completed subgroup resolves
      every present BIS to its own allocation or else the subgroup's. */
  function ResolveSlot(lim: Limits, slot: SubgroupData, sg: SubgroupInput): (r: SubgroupData)
    requires lim.Valid() && SlotFits(lim, slot) && InputFits(lim, sg)
    ensures SlotFits(lim, r)
    ensures !IsLc3(sg) ==> r == slot
    ensures IsLc3(sg) ==> r.bisIndexes == sg.bisIndexes
    ensures !BisLookupsRan(sg) ==> r.allocation == slot.allocation
    ensures BisLookupsRan(sg) ==>
              forall k | 0 <= k <= lim.bisIndexMax && PerBisAllocation(sg.bises, k).Some? ::
                r.allocation[k] == BisAllocation(true, PerBisAllocation(sg.bises, k).value)
    ensures Complete(sg) ==>
              forall k | 1 <= k <= lim.bisIndexMax && k - 1 in sg.bisIndexes && PerBisAllocation(sg.bises, k).None? ::
                r.allocation[k] == (if slot.allocation[k].valid then slot.allocation[k]
                                    else BisAllocation(true, sg.allocation.value))
    ensures BisLookupsRan(sg) ==>
              forall k | 0 <= k <= lim.bisIndexMax && PerBisAllocation(sg.bises, k).None?
                         && !(Complete(sg) && 1 <= k && k - 1 in sg.bisIndexes) ::
                r.allocation[k] == slot.allocation[k]
  {
    if !IsLc3(sg) then slot
    else
      var withIndexes := slot.(bisIndexes := sg.bisIndexes);
      if !sg.bisIndexesOk || sg.allocation.None? then withIndexes
      else
        var perBis := ApplyBisAllocations(slot.allocation, sg.bises);
        if !sg.bisIterOk then withIndexes.(allocation := perBis)
        else withIndexes.(allocation := FillFallback(perBis, sg.bisIndexes, sg.allocation.value, 1))
  }

  /** The effect of one subgroup callback on the whole BASE data: the entry
      at `subgroupCnt` is resolved and the count advances, skipped or not. */
  function ResolveSubgroup(lim: Limits, d: BaseData, sg: SubgroupInput): (r: BaseData)
    requires lim.Valid() && Fits(lim, d) && d.subgroupCnt < lim.maxSubgroups && InputFits(lim, sg)
    ensures Fits(lim, r)
    ensures r.subgroupCnt == d.subgroupCnt + 1
    ensures r.subgroups[d.subgroupCnt] == ResolveSlot(lim, d.subgroups[d.subgroupCnt], sg)
    ensures forall i | 0 <= i < |d.subgroups| && i != d.subgroupCnt :: r.subgroups[i] == d.subgroups[i]
  {
    BaseData(d.subgroups[d.subgroupCnt := ResolveSlot(lim, d.subgroups[d.subgroupCnt], sg)], d.subgroupCnt + 1)
  }

  predicate AllInputsFit(lim: Limits, sgs: seq<SubgroupInput>) {
    forall i | 0 <= i < |sgs| :: InputFits(lim, sgs[i])
  }

  /** bt_bap_base_foreach_subgroup with subgroup_get_valid_bis_indexes_cb:
      subgroup i of the BASE lands in entry subgroupCnt + i, and the count
      grows by exactly one per subgroup, including skipped ones. */
  function ResolveAll(lim: Limits, d: BaseData, sgs: seq<SubgroupInput>): (r: BaseData)
    requires lim.Valid() && Fits(lim, d) && d.subgroupCnt + |sgs| <= lim.maxSubgroups
    requires AllInputsFit(lim, sgs)
    ensures Fits(lim, r)
    ensures r.subgroupCnt == d.subgroupCnt + |sgs|
    ensures forall i | 0 <= i < |sgs| ::
              r.subgroups[d.subgroupCnt + i] == ResolveSlot(lim, d.subgroups[d.subgroupCnt + i], sgs[i])
    ensures forall i | 0 <= i < |d.subgroups| && !(d.subgroupCnt <= i < d.subgroupCnt + |sgs|) ::
              r.subgroups[i] == d.subgroups[i]
    decreases |sgs|
  {
    if |sgs| == 0 then d
    else
      var rest := ResolveAll(lim, ResolveSubgroup(lim, d, sgs[0]), sgs[1..]);
      assert forall i | 1 <= i < |sgs| :: sgs[1..][i - 1] == sgs[i];
      rest
  }

  /** The mutable state base_recv_cb works on: the latch, the BASE data and
      the requested-BIS table. */
  datatype SinkState = SinkState(baseReceived: bool, base: BaseData, requested: seq<Bitfield>)

  predicate StateFits(lim: Limits, st: SinkState) {
    Fits(lim, st.base) && |st.requested| == lim.maxSubgroups
  }

  /** A received BASE: its subgroups as the stack reports them, and whether
      the stack's iteration over them succeeded. */
  datatype BaseInput = BaseInput(announced: seq<SubgroupInput>, iterOk: bool)

  /** The new state, and which gates base_recv_cb gave. */
  datatype BaseReply = BaseReply(state: SinkState, bisSyncRequested: bool, baseReceived: bool)

  /** base_recv_cb. Only the first BASE of a session is used. The BASE
      data is rebuilt from zero; when the iteration fails the callback
      returns with that data but neither latches nor signals. Without a
      Broadcast Assistant every subgroup requests "no preference" and the
      BIS-sync gate is given. */
  function BaseReceive(lim: Limits, st: SinkState, base: BaseInput, assistantConnected: bool): (r: BaseReply)
    requires lim.Valid() && StateFits(lim, st)
    requires |base.announced| <= lim.maxSubgroups && AllInputsFit(lim, base.announced)
    ensures StateFits(lim, r.state)
    ensures st.baseReceived ==> r == BaseReply(st, false, false)
    ensures !st.baseReceived ==>
              && r.state.base.subgroupCnt == |base.announced|
              && (forall i | 0 <= i < |base.announced| ::
                    r.state.base.subgroups[i] == ResolveSlot(lim, EmptySlot(lim), base.announced[i]))
              && (forall i | |base.announced| <= i < lim.maxSubgroups ::
                    r.state.base.subgroups[i] == EmptySlot(lim))
    ensures !st.baseReceived && !base.iterOk ==>
              !r.state.baseReceived && !r.bisSyncRequested && !r.baseReceived
    ensures !st.baseReceived && base.iterOk ==>
              r.state.baseReceived && r.baseReceived && (r.bisSyncRequested <==> !assistantConnected)
    ensures !st.baseReceived && base.iterOk && !assistantConnected ==>
              forall i | 0 <= i < lim.maxSubgroups :: r.state.requested[i] == lim.noPref
    ensures st.baseReceived || !base.iterOk || assistantConnected ==> r.state.requested == st.requested
  {
    if st.baseReceived then BaseReply(st, false, false)
    else
      var data := ResolveAll(lim, EmptyBase(lim), base.announced);
      if !base.iterOk then BaseReply(st.(base := data), false, false)
      else if assistantConnected then BaseReply(SinkState(true, data, st.requested), false, true)
      else BaseReply(SinkState(true, data, seq(lim.maxSubgroups, _ => lim.noPref)), true, true)
  }

  /** Latch once: after a BASE has been taken, later BASEs change nothing and signal nothing. */
  lemma LaterBaseIgnored(lim: Limits, st: SinkState, first: BaseInput, later: BaseInput,
                         connected1: bool, connected2: bool)
    requires lim.Valid() && StateFits(lim, st) && !st.baseReceived && first.iterOk
    requires |first.announced| <= lim.maxSubgroups && AllInputsFit(lim, first.announced)
    requires |later.announced| <= lim.maxSubgroups && AllInputsFit(lim, later.announced)
    ensures var s1 := BaseReceive(lim, st, first, connected1).state;
            BaseReceive(lim, s1, later, connected2) == BaseReply(s1, false, false)
  {
  }

  /** For a completed LC3 subgroup of a fresh BASE, every BIS index present
      in its bitfield ends up valid, holding its own allocation when the
      BIS-level lookup found one and the subgroup allocation otherwise. */
  lemma ResolvedAllocation(lim: Limits, sg: SubgroupInput, k: nat)
    requires lim.Valid() && InputFits(lim, sg) && Complete(sg)
    requires 1 <= k <= lim.bisIndexMax && k - 1 in sg.bisIndexes
    ensures var a := ResolveSlot(lim, EmptySlot(lim), sg).allocation[k];
            && a.valid
            && a.value == match PerBisAllocation(sg.bises, k)
                          case Some(v) => v
                          case None => sg.allocation.value
  {
    assert !EmptySlot(lim).allocation[k].valid;
  }

  /** No reported BIS carries index `idx`, so no BIS-level lookup found one for it. */
  lemma {:induction false} NoLookupWithoutBis(bises: seq<BisInput>, idx: nat)
    requires forall k | 0 <= k < |bises| :: bises[k].index != idx
    ensures PerBisAllocation(bises, idx).None?
    decreases |bises|
  {
    if |bises| > 0 {
      NoLookupWithoutBis(bises[..|bises| - 1], idx);
    }
  }

  /** BIS index 0 does not exist: unless the stack reports a BIS with index 0,
      entry 0 of a fresh subgroup stays invalid, since the fallback loop starts at 1. */
  lemma IndexZeroStaysInvalid(lim: Limits, sg: SubgroupInput)
    requires lim.Valid() && InputFits(lim, sg)
    requires forall k | 0 <= k < |sg.bises| :: sg.bises[k].index != 0
    ensures ResolveSlot(lim, EmptySlot(lim), sg).allocation[0] == NoAllocation
  {
    NoLookupWithoutBis(sg.bises, 0);
  }
}
