/** The periodic-advertising (PA) sync decisions of the sink: the sync
    timeout derived from the PA interval, the Scan Delegator's PA sync
    request, the PA timer, and the synced / terminated callbacks. The host
    calls these decisions lead to (PAST subscribe, set_pa_state, sink stop,
    source removal) are described by their results, not performed. */
module PaSync {
  import opened Common

  /** Timeout range, the unknown-interval marker and the two unit conversion
      macros of the GAP layer. Sync timeouts count 10 ms units and must lie
      in the range of LE Periodic Advertising Create Sync (section 7.8.67 of
      the Bluetooth Core Specification, Vol 4 Part E). */
  datatype GapParams = GapParams(
    minTimeout: nat,                // BT_GAP_PER_ADV_MIN_TIMEOUT
    maxTimeout: nat,                // BT_GAP_PER_ADV_MAX_TIMEOUT
    intervalUnknown: nat,           // BT_BAP_PA_INTERVAL_UNKNOWN
    intervalToUs: nat -> nat,       // BT_GAP_PER_ADV_INTERVAL_TO_US
    usToSyncTimeout: nat -> nat)    // BT_GAP_US_TO_PER_ADV_SYNC_TIMEOUT
  {
    predicate Valid() {
      minTimeout <= maxTimeout < 0x1_0000   // the timeout is returned as a uint16_t
    }
  }

  /** PA_SYNC_INTERVAL_TO_TIMEOUT_RATIO: the number of intervals to wait. */
  const TimeoutRatio: nat := 5

  const Uint32Range: nat := 0x1_0000_0000

  /** CLAMP(val, low, high) of the sample's utility macros. */
  function Clamp(v: nat, lo: nat, hi: nat): nat
    requires lo <= hi
  {
    if v <= lo then lo else if v < hi then v else hi
  }

  /** The unclamped timeout: the interval converted to microseconds (a
      uint32_t), then to 10 ms units, times the ratio (again a uint32_t). */
  function RawTimeout(g: GapParams, paInterval: nat): nat {
    var intervalUs := g.intervalToUs(paInterval) % Uint32Range;
    (g.usToSyncTimeout(intervalUs) * TimeoutRatio) % Uint32Range
  }

  /** interval_to_sync_timeout. */
  function SyncTimeout(g: GapParams, paInterval: nat): (r: nat)
    requires g.Valid()
    ensures g.minTimeout <= r <= g.maxTimeout
    ensures paInterval == g.intervalUnknown ==> r == g.maxTimeout
    ensures paInterval != g.intervalUnknown && g.minTimeout <= RawTimeout(g, paInterval) <= g.maxTimeout
            ==> r == RawTimeout(g, paInterval)
    ensures paInterval != g.intervalUnknown && RawTimeout(g, paInterval) < g.minTimeout ==> r == g.minTimeout
    ensures paInterval != g.intervalUnknown && RawTimeout(g, paInterval) > g.maxTimeout ==> r == g.maxTimeout
  {
    if paInterval == g.intervalUnknown then g.maxTimeout
    else Clamp(RawTimeout(g, paInterval), g.minTimeout, g.maxTimeout)
  }

  /** Conversions that never decrease and never wrap a uint32_t. */
  ghost predicate MonotoneConversions(g: GapParams) {
    && (forall x, y | x <= y :: g.intervalToUs(x) <= g.intervalToUs(y))
    && (forall x, y | x <= y :: g.usToSyncTimeout(x) <= g.usToSyncTimeout(y))
    && (forall x :: g.intervalToUs(x) < Uint32Range)
    && (forall x :: g.usToSyncTimeout(x) * TimeoutRatio < Uint32Range)
  }

  /** A longer PA interval never gives a shorter sync timeout, counting the
      unknown interval (the largest uint16_t value) as the longest. */
  lemma SyncTimeoutMonotonic(g: GapParams, a: nat, b: nat)
    requires g.Valid() && MonotoneConversions(g)
    requires a <= b <= g.intervalUnknown
    ensures SyncTimeout(g, a) <= SyncTimeout(g, b)
  {
    if b != g.intervalUnknown {
      assert g.intervalToUs(a) <= g.intervalToUs(b);
      assert RawTimeout(g, a) <= RawTimeout(g, b);
    }
  }

  /** A call to bt_bap_scan_delegator_set_pa_state. */
  datatype PaStateUpdate = PaStateUpdate(srcId: nat, state: PaState)

  /** pa_timer_handler: the PA state reported when the PAST wait times out,
      or nothing when no receive state is tracked. */
  function PaTimerExpiry(recv: Option<RecvState>): (r: Option<PaStateUpdate>)
    ensures r.None? <==> recv.None?
    ensures r.Some? ==> r.value.srcId == recv.value.srcId
    ensures r.Some? ==> (r.value.state == NoPast <==> recv.value.paState == InfoRequested)
    ensures r.Some? ==> r.value.state in {NoPast, Failed}
  {
    match recv
    case None => None
    case Some(rs) =>
      Some(PaStateUpdate(rs.srcId, if rs.paState == InfoRequested then NoPast else Failed))
  }

  /** A receive state that is synced or waiting for PAST info counts as already syncing. */
  predicate AlreadySyncing(s: PaState) {
    s == Synced || s == InfoRequested
  }

  /** What pa_sync_req_cb did: the receive state it tracks afterwards
      (req_recv_state), its return value, the PA timer delay when PAST was
      subscribed, and which gates and state updates it issued. */
  datatype PaSyncReply = PaSyncReply(
    tracked: RecvState,
    status: int,
    pastTimerMs: Option<nat>,  // PAST subscribed; PA timer armed with this delay
    pastRequested: bool,       // sem_past_request given
    infoRequested: bool,       // PA state set to INFO_REQ
    paRequested: bool)         // sem_pa_request given

  /** pa_sync_req_cb (with pa_sync_past inlined). `pastReceiver` is
      CONFIG_BT_PER_ADV_SYNC_TRANSFER_RECEIVER; `subscribeErr` and
      `setStateErr` are the results of the PAST subscription and of setting
      the PA state. */
  function PaSyncRequest(g: GapParams, pastReceiver: bool, recv: RecvState, pastAvail: bool,
                         paInterval: nat, subscribeErr: int, setStateErr: int): (r: PaSyncReply)
    requires g.Valid()
    ensures r.tracked == recv
    ensures AlreadySyncing(recv.paState) ==> r == PaSyncReply(recv, -1, None, false, false, false)
    ensures r.paRequested <==> r.status == 0
    ensures r.pastTimerMs.Some?
            <==> !AlreadySyncing(recv.paState) && pastReceiver && pastAvail && subscribeErr == 0
    ensures r.pastTimerMs.Some? ==> r.pastTimerMs.value == 10 * SyncTimeout(g, paInterval)
    ensures r.pastTimerMs.Some? ==> 10 * g.minTimeout <= r.pastTimerMs.value <= 10 * g.maxTimeout
    ensures r.pastRequested <==> r.pastTimerMs.Some?
    ensures r.infoRequested <==> r.pastRequested
    ensures !AlreadySyncing(recv.paState) && pastReceiver && pastAvail && subscribeErr != 0
            ==> r.status == subscribeErr
    ensures r.pastRequested ==> r.status == setStateErr
    ensures !AlreadySyncing(recv.paState) && !(pastReceiver && pastAvail) ==> r.status == 0
  {
    if AlreadySyncing(recv.paState) then
      PaSyncReply(recv, -1, None, false, false, false)
    else if pastReceiver && pastAvail then
      if subscribeErr != 0 then
        PaSyncReply(recv, subscribeErr, None, false, false, false)
      else
        var timerMs := SyncTimeout(g, paInterval) * 10;
        PaSyncReply(recv, setStateErr, Some(timerMs), true, true, setStateErr == 0)
    else
      PaSyncReply(recv, 0, None, false, false, true)
  }

  /** A refused request still replaces the tracked receive state: when the
      PA timer of an earlier PAST wait expires, it reports on the state of
      the refused request, NO_PAST when that state is INFO_REQ. */
  lemma RefusedRequestStillTracked(g: GapParams, pastReceiver: bool, recv: RecvState, pastAvail: bool,
                                   paInterval: nat, subscribeErr: int, setStateErr: int)
    requires g.Valid() && recv.paState == InfoRequested
    ensures var r := PaSyncRequest(g, pastReceiver, recv, pastAvail, paInterval, subscribeErr, setStateErr);
            && r.status == -1
            && PaTimerExpiry(Some(r.tracked)) == Some(PaStateUpdate(recv.srcId, NoPast))
  {
  }

  /** What bap_pa_sync_synced_cb did: the tracked PA sync handle afterwards,
      and whether it accepted the sync (cancelled the timer, gave sem_pa_synced). */
  datatype SyncedReply = SyncedReply(paSync: Option<nat>, accepted: bool)

  /** bap_pa_sync_synced_cb: a sync is ours if it is the tracked handle, or
      if it comes from the address and SID the Broadcast Assistant asked for. */
  function PaSynced(current: Option<nat>, sync: nat, addr: Address, sid: nat,
                    recv: Option<RecvState>): (r: SyncedReply)
    ensures r.accepted
            <==> current == Some(sync) || (recv.Some? && recv.value.addr == addr && recv.value.advSid == sid)
    ensures r.accepted && current.None? ==> r.paSync == Some(sync)
    ensures !(r.accepted && current.None?) ==> r.paSync == current
  {
    var ours := current == Some(sync) || (recv.Some? && recv.value.addr == addr && recv.value.advSid == sid);
    SyncedReply(if ours && current.None? then Some(sync) else current, ours)
  }

  /** BT_HCI_ERR_LOCALHOST_TERM_CONN: connection terminated by the local host. */
  const LocalHostTermConn: nat := 0x16

  /** One effect of bap_pa_sync_terminated_cb, in the order issued. */
  datatype PaLossStep = SignalPaLost | StopSink | RemoveSource(srcId: nat)

  datatype TermReply = TermReply(paSync: Option<nat>, steps: seq<PaLossStep>)

  /** bap_pa_sync_terminated_cb: a lost PA sync that the local host did not
      end tears down a delegated session: stop the sink if it is synced,
      then remove the source, but not after a failed stop. Each effect is
      issued at most once. */
  function PaTerminated(current: Option<nat>, sync: nat, reason: nat, recv: Option<RecvState>,
                        bigSynced: bool, stopErr: int): (r: TermReply)
    ensures current != Some(sync) ==> r == TermReply(current, [])
    ensures current == Some(sync) ==> r.paSync.None? && |r.steps| >= 1 && r.steps[0] == SignalPaLost
    ensures StopSink in r.steps
            <==> current == Some(sync) && reason != LocalHostTermConn && recv.Some? && bigSynced
    ensures (recv.Some? && RemoveSource(recv.value.srcId) in r.steps)
            <==> current == Some(sync) && reason != LocalHostTermConn && recv.Some?
                 && (!bigSynced || stopErr == 0)
    ensures forall k | 0 <= k < |r.steps| && r.steps[k].RemoveSource? ::
              recv.Some? && r.steps[k] == RemoveSource(recv.value.srcId)
    ensures forall i, j | 0 <= i < |r.steps| && 0 <= j < |r.steps| && r.steps[i] == StopSink && r.steps[j].RemoveSource? :: i < j
    ensures forall i, j | 0 <= i < j < |r.steps| :: r.steps[i] != r.steps[j]
  {
    if current != Some(sync) then TermReply(current, [])
    else if reason == LocalHostTermConn || recv.None? then TermReply(None, [SignalPaLost])
    else if bigSynced && stopErr != 0 then TermReply(None, [SignalPaLost, StopSink])
    else if bigSynced then TermReply(None, [SignalPaLost, StopSink, RemoveSource(recv.value.srcId)])
    else TermReply(None, [SignalPaLost, RemoveSource(recv.value.srcId)])
  }
}
