/** bis_sync_req_cb: the Scan Delegator's request to synchronize to (or
    release) BISes on behalf of a Broadcast Assistant. The callback records
    the per-subgroup requests, checks them, stops a running sink when the
    request releases everything, and gives the BIS-sync gate. */
module Delegator {
  import opened Common
  import opened Bitfields
  import opened SinkConfig

  /** Some of the first n subgroups request a BIS. */
  function AnyRequest(req: seq<Bitfield>, n: nat): bool
    requires n <= |req|
  {
    n > 0 && (AnyRequest(req, n - 1) || req[n - 1] != {})
  }

  /** Some of the first n subgroups request specific BISes rather than "no preference". */
  function AnySpecific(lim: Limits, req: seq<Bitfield>, n: nat): bool
    requires n <= |req|
  {
    n > 0 && (AnySpecific(lim, req, n - 1) || (req[n - 1] != {} && req[n - 1] != lim.noPref))
  }

  /** How many of the first n subgroups request a BIS. */
  function RequestingCount(req: seq<Bitfield>, n: nat): nat
    requires n <= |req|
  {
    if n == 0 then 0 else RequestingCount(req, n - 1) + (if req[n - 1] != {} then 1 else 0)
  }

  /** The OR of the first n requests. */
  function RequestedUnion(req: seq<Bitfield>, n: nat): Bitfield
    requires n <= |req|
  {
    if n == 0 then {} else RequestedUnion(req, n - 1) + req[n - 1]
  }

  /** The requested-BIS table after the callback: the first n requests, zero beyond. */
  function Recorded(lim: Limits, req: seq<Bitfield>, n: nat): (r: seq<Bitfield>)
    requires n <= |req| == lim.maxSubgroups
    ensures |r| == lim.maxSubgroups
  {
    seq(lim.maxSubgroups, i requires 0 <= i < lim.maxSubgroups => if i < n then req[i] else {})
  }

  /** The request check: a request for specific BISes must concern one
      subgroup and no more BISes than there are streams. */
  function Rejected(lim: Limits, req: seq<Bitfield>, n: nat): bool
    requires n <= |req|
  {
    && AnySpecific(lim, req, n)
    && (RequestingCount(req, n) > 1
        || |CountedBits(RequestedUnion(req, n), lim.maxGroupIsoCount)| > lim.streamCount)
  }

  /** What the callback did: its return value, the requested-BIS table it
      left, the broadcast id it recorded, whether it stopped the sink and
      whether it gave the BIS-sync gate. */
  datatype BisSyncReply = BisSyncReply(
    status: int,
    requested: seq<Bitfield>,
    broadcastId: Option<nat>,
    stopSink: bool,
    bisSyncRequested: bool)

  /** bis_sync_req_cb. `bigSynced` is the sample's big_synced flag and
      `stopErr` the result of bt_bap_broadcast_sink_stop. */
  method BisSyncRequest(lim: Limits, recv: RecvState, req: seq<Bitfield>, bigSynced: bool, stopErr: int)
    returns (r: BisSyncReply)
    requires lim.Valid() && |req| == lim.maxSubgroups && recv.numSubgroups <= lim.maxSubgroups
    ensures r.requested == Recorded(lim, req, recv.numSubgroups)
    ensures Rejected(lim, req, recv.numSubgroups) ==>
              r.status == -EINVAL && r.broadcastId.None? && !r.stopSink && !r.bisSyncRequested
    ensures !Rejected(lim, req, recv.numSubgroups) && bigSynced && AnyRequest(req, recv.numSubgroups) ==>
              r.status == -EINVAL && r.broadcastId.None? && !r.stopSink && !r.bisSyncRequested
    ensures !Rejected(lim, req, recv.numSubgroups) && bigSynced && !AnyRequest(req, recv.numSubgroups) ==>
              && r.stopSink && r.status == stopErr && !r.bisSyncRequested
              && (r.broadcastId.Some? <==> stopErr == 0)
    ensures !Rejected(lim, req, recv.numSubgroups) && !bigSynced ==>
              && r.status == 0 && !r.stopSink
              && (r.bisSyncRequested <==> AnyRequest(req, recv.numSubgroups))
    ensures r.broadcastId.Some? <==> r.status == 0
    ensures r.broadcastId.Some? ==> r.broadcastId.value == recv.broadcastId
  {
    var syncReq := false;
    var noPref := true;
    var requestingCount := 0;
    var bitfield: Bitfield := {};
    var table: seq<Bitfield> := seq(lim.maxSubgroups, _ => {});
    var subgroup := 0;
    while subgroup < recv.numSubgroups
      invariant subgroup <= recv.numSubgroups
      invariant table == Recorded(lim, req, subgroup)
      invariant syncReq == AnyRequest(req, subgroup)
      invariant noPref == !AnySpecific(lim, req, subgroup)
      invariant requestingCount == RequestingCount(req, subgroup) <= subgroup
      invariant bitfield == RequestedUnion(req, subgroup)
    {
      if req[subgroup] != {} {
        table := table[subgroup := req[subgroup]];
        if req[subgroup] != lim.noPref {
          noPref := false;
        }
        bitfield := bitfield + req[subgroup];
        requestingCount := requestingCount + 1;
        syncReq := true;
      }
      assert table == Recorded(lim, req, subgroup + 1);
      subgroup := subgroup + 1;
    }

    if !noPref {
      var streamCount := GetStreamCount(bitfield, lim.maxGroupIsoCount);
      if requestingCount > 1 {
        return BisSyncReply(-EINVAL, table, None, false, false);
      }
      if streamCount > lim.streamCount {
        return BisSyncReply(-EINVAL, table, None, false, false);
      }
    }

    if bigSynced {
      if syncReq {
        return BisSyncReply(-EINVAL, table, None, false, false);
      }
      if stopErr != 0 {
        return BisSyncReply(stopErr, table, None, true, false);
      }
    }

    r := BisSyncReply(0, table, Some(recv.broadcastId), bigSynced, syncReq);
  }

  /** AnyRequest is "some request is non-zero". */
  lemma {:induction false} AnyRequestMeans(req: seq<Bitfield>, n: nat)
    requires n <= |req|
    ensures AnyRequest(req, n) <==> exists i | 0 <= i < n :: req[i] != {}
  {
    if n > 0 {
      AnyRequestMeans(req, n - 1);
    }
  }

  /** AnySpecific is "some request is non-zero and not the no-preference value". */
  lemma {:induction false} AnySpecificMeans(lim: Limits, req: seq<Bitfield>, n: nat)
    requires n <= |req|
    ensures AnySpecific(lim, req, n) <==> exists i | 0 <= i < n :: req[i] != {} && req[i] != lim.noPref
  {
    if n > 0 {
      AnySpecificMeans(lim, req, n - 1);
    }
  }

  /** The requesting count is zero exactly when nothing is requested. */
  lemma {:induction false} NoRequestCounted(req: seq<Bitfield>, n: nat)
    requires n <= |req|
    ensures RequestingCount(req, n) == 0 <==> !AnyRequest(req, n)
  {
    if n > 0 {
      NoRequestCounted(req, n - 1);
    }
  }

  /** Two distinct requesting subgroups make the count at least two. */
  lemma {:induction false} TwoRequestsCounted(req: seq<Bitfield>, n: nat, i: nat, j: nat)
    requires n <= |req| && i < j < n && req[i] != {} && req[j] != {}
    ensures RequestingCount(req, n) >= 2
  {
    if j == n - 1 {
      AnyRequestMeans(req, n - 1);
      NoRequestCounted(req, n - 1);
    } else {
      TwoRequestsCounted(req, n - 1, i, j);
    }
  }

  /** Every requested BIS is in the OR of the requests, and nothing else is. */
  lemma {:induction false} RequestedUnionMeans(req: seq<Bitfield>, n: nat, b: nat)
    requires n <= |req|
    ensures b in RequestedUnion(req, n) <==> exists i | 0 <= i < n :: b in req[i]
  {
    if n > 0 {
      RequestedUnionMeans(req, n - 1, b);
    }
  }

  /** When every requested BIS index lies within the ISO group, the stream
      count of the check is the number of requested BISes. */
  lemma RejectedWithinGroup(lim: Limits, req: seq<Bitfield>, n: nat)
    requires n <= |req|
    requires forall b | b in RequestedUnion(req, n) :: b < lim.maxGroupIsoCount
    ensures Rejected(lim, req, n)
            <==> AnySpecific(lim, req, n) && (RequestingCount(req, n) > 1 || |RequestedUnion(req, n)| > lim.streamCount)
  {
    CountedBitsAll(RequestedUnion(req, n), lim.maxGroupIsoCount);
  }

  /** A request for specific BISes that spans two subgroups is refused with
      -EINVAL. The requested-BIS table is still rewritten with the new requests. */
  lemma TwoSubgroupRequestRefused(lim: Limits, recv: RecvState, req: seq<Bitfield>, i: nat, j: nat)
    requires lim.Valid() && |req| == lim.maxSubgroups && recv.numSubgroups <= lim.maxSubgroups
    requires i < j < recv.numSubgroups && req[i] != {} && req[j] != {}
    requires req[i] != lim.noPref || req[j] != lim.noPref
    ensures Rejected(lim, req, recv.numSubgroups)
  {
    TwoRequestsCounted(req, recv.numSubgroups, i, j);
    AnySpecificMeans(lim, req, recv.numSubgroups);
  }

  /** Requests that are all "no preference" (or zero) are never refused, however many subgroups they span. */
  lemma NoPreferenceNeverRejected(lim: Limits, req: seq<Bitfield>, n: nat)
    requires n <= |req|
    requires forall i | 0 <= i < n :: req[i] == {} || req[i] == lim.noPref
    ensures !Rejected(lim, req, n)
  {
    AnySpecificMeans(lim, req, n);
  }
}
