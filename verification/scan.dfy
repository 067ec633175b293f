/** The scan path of the sample: broadcast_scan_recv filters extended
    advertising reports by the configured broadcast name, and
    scan_check_and_sync_broadcast picks the Broadcast Audio Announcement out
    of the advertising data and decides whether this is the broadcaster to
    synchronize to. Advertising data arrives already split into records. */
module Scan {
  import opened Common

  /** AD types of the Bluetooth Assigned Numbers (section 2.3). */
  const AdNameShortened: byte := 0x08
  const AdNameComplete: byte := 0x09
  const AdServiceData16: byte := 0x16
  const AdBroadcastName: byte := 0x30

  /** The Broadcast Audio Announcement Service UUID. */
  const BroadcastAudioUuid: nat := 0x1852

  /** BT_UUID_SIZE_16 and BT_AUDIO_BROADCAST_ID_SIZE. */
  const UuidSize16: nat := 2
  const BroadcastIdSize: nat := 3

  /** One advertising data record: its AD type and payload. */
  datatype AdRecord = AdRecord(kind: byte, data: seq<byte>)

  /** The parts of bt_le_scan_recv_info the sample reads. */
  datatype ScanInfo = ScanInfo(addr: Address, sid: nat, interval: nat)

  /** The broadcaster the sample stores (broadcaster_info, broadcaster_addr,
      broadcaster_broadcast_id) before giving sem_broadcaster_found. */
  datatype Broadcaster = Broadcaster(info: ScanInfo, broadcastId: nat)

  // ---------------------------------------------------------------------
  // Little-endian fields
  // ---------------------------------------------------------------------

  /** sys_get_le16 */
  function Le16(b: seq<byte>): nat
    requires |b| >= 2
  {
    b[0] as nat + 0x100 * (b[1] as nat)
  }

  /** sys_get_le24 */
  function Le24(b: seq<byte>): nat
    requires |b| >= 3
  {
    b[0] as nat + 0x100 * (b[1] as nat) + 0x1_0000 * (b[2] as nat)
  }

  /** The three octets of a 24-bit Broadcast_ID, least significant first. */
  function EncodeLe24(id: nat): (r: seq<byte>)
    requires id < 0x100_0000
    ensures |r| == 3
  {
    [id % 0x100, (id / 0x100) % 0x100, id / 0x1_0000]
  }

  lemma Le24RoundTrip(id: nat)
    requires id < 0x100_0000
    ensures Le24(EncodeLe24(id)) == id
  {
  }

  lemma EncodeLe24RoundTrip(b: seq<byte>)
    requires |b| == 3
    ensures Le24(b) < 0x100_0000 && EncodeLe24(Le24(b)) == b
  {
  }

  // ---------------------------------------------------------------------
  // scan_check_and_sync_broadcast
  // ---------------------------------------------------------------------

  /** The verdict on one record: not an announcement (parsing goes on), or
      the Broadcast Audio Announcement carrying this Broadcast_ID (parsing
      stops). */
  datatype RecordVerdict = Skip | Announcement(broadcastId: nat)

  /** The record test of scan_check_and_sync_broadcast: 16-bit service data,
      long enough for a UUID and a Broadcast_ID, whose UUID is the Broadcast
      Audio Announcement Service. */
  function CheckRecord(rec: AdRecord): (r: RecordVerdict)
    ensures r.Announcement? ==> r.broadcastId < 0x100_0000
    ensures rec.kind != AdServiceData16 || |rec.data| < UuidSize16 + BroadcastIdSize ==> r == Skip
  {
    if rec.kind != AdServiceData16 then Skip
    else if |rec.data| < UuidSize16 + BroadcastIdSize then Skip
    else if Le16(rec.data) != BroadcastAudioUuid then Skip
    else Announcement(Le24(rec.data[UuidSize16..]))
  }

  /** The service data record a Broadcast Source advertises for `id`, followed by any further octets. */
  function AnnouncementRecord(id: nat, extra: seq<byte>): AdRecord
    requires id < 0x100_0000
  {
    AdRecord(AdServiceData16, [0x52, 0x18] + EncodeLe24(id) + extra)
  }

  /** The record test reads back the Broadcast_ID the announcement carries. */
  lemma AnnouncementRoundTrip(id: nat, extra: seq<byte>)
    requires id < 0x100_0000
    ensures CheckRecord(AnnouncementRecord(id, extra)) == Announcement(id)
  {
    var d := AnnouncementRecord(id, extra).data;
    assert d[UuidSize16..][..3] == EncodeLe24(id);
  }

  /** Every announcement the record test accepts is the record of its Broadcast_ID. */
  lemma AnnouncementIsRecord(rec: AdRecord)
    requires CheckRecord(rec).Announcement?
    ensures rec == AnnouncementRecord(CheckRecord(rec).broadcastId, rec.data[UuidSize16 + BroadcastIdSize..])
  {
    var d := rec.data;
    EncodeLe24RoundTrip(d[2..5]);
    assert d == [0x52, 0x18] + d[2..5] + d[5..];
  }

  /** bt_data_parse stops at the first record for which the callback returns
      false: here, the first announcement. */
  function FirstAnnouncement(recs: seq<AdRecord>): (r: Option<nat>)
    ensures r.Some? ==> r.value < |recs| && CheckRecord(recs[r.value]).Announcement?
    ensures r.Some? ==> forall i | 0 <= i < r.value :: CheckRecord(recs[i]) == Skip
    ensures r.None? ==> forall i | 0 <= i < |recs| :: CheckRecord(recs[i]) == Skip
  {
    if |recs| == 0 then None
    else if CheckRecord(recs[0]).Announcement? then Some(0)
    else match FirstAnnouncement(recs[1..])
         case None => None
         case Some(i) => Some(i + 1)
  }

  /** The broadcaster is the one to sync to: no Broadcast Assistant is
      connected, or the assistant's receive state names this address, SID
      and Broadcast_ID. */
  predicate Accepts(assistantConnected: bool, recv: Option<RecvState>, info: ScanInfo, broadcastId: nat) {
    || !assistantConnected
    || (recv.Some? && info.addr == recv.value.addr && info.sid == recv.value.advSid
        && broadcastId == recv.value.broadcastId)
  }

  /** bt_data_parse over the advertising data with scan_check_and_sync_broadcast:
      the first announcement decides, and is stored when it is accepted. */
  function CheckAndSync(recs: seq<AdRecord>, info: ScanInfo, assistantConnected: bool,
                        recv: Option<RecvState>): (r: Option<Broadcaster>)
    ensures r.Some? ==>
              && r.value.info == info
              && FirstAnnouncement(recs).Some?
              && CheckRecord(recs[FirstAnnouncement(recs).value]) == Announcement(r.value.broadcastId)
              && Accepts(assistantConnected, recv, info, r.value.broadcastId)
    ensures r.None? ==>
              || FirstAnnouncement(recs).None?
              || !Accepts(assistantConnected, recv, info, CheckRecord(recs[FirstAnnouncement(recs).value]).broadcastId)
  {
    match FirstAnnouncement(recs)
    case None => None
    case Some(i) =>
      var id := CheckRecord(recs[i]).broadcastId;
      if Accepts(assistantConnected, recv, info, id) then Some(Broadcaster(info, id)) else None
  }

  /** Only the first announcement counts: a later one, even an acceptable one, changes nothing. */
  lemma LaterAnnouncementIgnored(recs: seq<AdRecord>, more: seq<AdRecord>, info: ScanInfo,
                                 assistantConnected: bool, recv: Option<RecvState>)
    requires FirstAnnouncement(recs).Some?
    ensures CheckAndSync(recs + more, info, assistantConnected, recv) == CheckAndSync(recs, info, assistantConnected, recv)
  {
    FirstAnnouncementPrefix(recs, more);
  }

  lemma {:induction false} FirstAnnouncementPrefix(recs: seq<AdRecord>, more: seq<AdRecord>)
    requires FirstAnnouncement(recs).Some?
    ensures FirstAnnouncement(recs + more) == FirstAnnouncement(recs)
    ensures (recs + more)[FirstAnnouncement(recs).value] == recs[FirstAnnouncement(recs).value]
  {
    if !CheckRecord(recs[0]).Announcement? {
      assert (recs + more)[1..] == recs[1..] + more;
      FirstAnnouncementPrefix(recs[1..], more);
    }
  }

  // ---------------------------------------------------------------------
  // is_substring
  // ---------------------------------------------------------------------

  /** tolower in the C locale. */
  function ToLower(c: byte): byte {
    if 0x41 <= c <= 0x5A then c + 0x20 else c
  }

  function Lower(s: seq<byte>): (r: seq<byte>)
    ensures |r| == |s|
    ensures forall i | 0 <= i < |s| :: r[i] == ToLower(s[i])
  {
    seq(|s|, i requires 0 <= i < |s| => ToLower(s[i]))
  }

  /** strncasecmp(a, b, |a|) == 0 for strings without NUL among the compared octets. */
  predicate CaseEqual(a: seq<byte>, b: seq<byte>) {
    |a| == |b| && forall i | 0 <= i < |a| :: ToLower(a[i]) == ToLower(b[i])
  }

  /** `sub` occurs in `s` at `pos`, ignoring case. */
  predicate OccursAt(sub: seq<byte>, s: seq<byte>, pos: nat) {
    pos + |sub| <= |s| && CaseEqual(sub, s[pos..pos + |sub|])
  }

  /** What is_substring computes: `sub` occurs at a position inside `s`.
      The position must be inside, so the empty string occurs in every
      string except the empty one. */
  predicate Contains(sub: seq<byte>, s: seq<byte>) {
    exists pos: nat | pos < |s| :: OccursAt(sub, s, pos)
  }

  /** is_substring on two C strings (their octets up to the terminating NUL). */
  method IsSubstring(sub: seq<byte>, s: seq<byte>) returns (found: bool)
    ensures found <==> Contains(sub, s)
  {
    if |sub| > |s| {
      return false;
    }
    var pos := 0;
    while pos < |s|
      invariant pos <= |s|
      invariant forall p: nat | p < pos :: !OccursAt(sub, s, p)
    {
      if pos + |sub| > |s| {
        return false;
      }
      if CaseEqual(sub, s[pos..pos + |sub|]) {
        assert OccursAt(sub, s, pos);
        return true;
      }
      pos := pos + 1;
    }
    return false;
  }

  /** The empty string is found exactly in non-empty strings. */
  lemma EmptyPatternCase(s: seq<byte>)
    ensures Contains([], s) <==> |s| > 0
  {
    if |s| > 0 {
      assert OccursAt([], s, 0);
    }
  }

  /** Matching ignores case on both sides. */
  lemma ContainsIgnoresCase(sub: seq<byte>, s: seq<byte>)
    ensures Contains(sub, s) <==> Contains(Lower(sub), Lower(s))
  {
    forall pos: nat | pos < |s| ensures OccursAt(sub, s, pos) <==> OccursAt(Lower(sub), Lower(s), pos) {
      if pos + |sub| <= |s| {
        assert Lower(s)[pos..pos + |sub|] == Lower(s[pos..pos + |sub|]);
      }
    }
    if Contains(sub, s) {
      var pos: nat :| pos < |s| && OccursAt(sub, s, pos);
      assert OccursAt(Lower(sub), Lower(s), pos);
    }
    if Contains(Lower(sub), Lower(s)) {
      var pos: nat :| pos < |s| && OccursAt(Lower(sub), Lower(s), pos);
      assert OccursAt(sub, s, pos);
    }
  }

  /** A non-empty string is found in any string that has it inside. */
  lemma ContainsInside(sub: seq<byte>, before: seq<byte>, after: seq<byte>)
    requires |sub| > 0
    ensures Contains(sub, before + sub + after)
  {
    var s := before + sub + after;
    assert s[|before|..|before| + |sub|] == sub;
    assert OccursAt(sub, s, |before|);
  }

  // ---------------------------------------------------------------------
  // The broadcast name filter (data_cb)
  // ---------------------------------------------------------------------

  predicate NoNul(s: seq<byte>) {
    forall i | 0 <= i < |s| :: s[i] != 0
  }

  /** strlen: the octets of a buffer up to its first NUL. */
  function CStr(b: seq<byte>): (r: seq<byte>)
    ensures |r| <= |b| && r == b[..|r|]
    ensures NoNul(r)
    ensures |r| < |b| ==> b[|r|] == 0
  {
    if |b| == 0 || b[0] == 0 then [] else [b[0]] + CStr(b[1..])
  }

  predicate IsNameType(kind: byte) {
    kind == AdNameShortened || kind == AdNameComplete || kind == AdBroadcastName
  }

  /** The name test of data_cb as written: the payload is copied into a
      zeroed buffer of NAME_LEN = sizeof(CONFIG_TARGET_BROADCAST_NAME) + 1
      octets, at most NAME_LEN - 1 = |target| + 1 of them, and the target is
      searched in that buffer. */
  predicate NameMatchesAsWritten(target: seq<byte>, data: seq<byte>) {
    var copied := if |data| < |target| + 1 then |data| else |target| + 1;
    Contains(target, CStr(data[..copied]))
  }

  /** The name test as evidently intended: the target is searched in the whole name. */
  predicate NameMatches(target: seq<byte>, data: seq<byte>) {
    Contains(target, CStr(data))
  }

  /** As written, the target is found only at offset 0 or 1 of the name. */
  lemma AsWrittenOnlyNearStart(target: seq<byte>, data: seq<byte>)
    requires |target| > 0 && NameMatchesAsWritten(target, data)
    ensures OccursAt(target, data, 0) || OccursAt(target, data, 1)
  {
    var copied := if |data| < |target| + 1 then |data| else |target| + 1;
    var name := CStr(data[..copied]);
    var pos: nat :| pos < |name| && OccursAt(target, name, pos);
    assert pos + |target| <= |name| <= copied <= |target| + 1;
    assert name == data[..copied][..|name|] == data[..|name|];
    assert name[pos..pos + |target|] == data[pos..pos + |target|];
    assert OccursAt(target, data, pos);
  }

  /** Target "b" in the name "aab": the truncated buffer holds "aa", so the
      name is rejected although it contains the target. */
  lemma NameTruncationCounterexample()
    ensures !NameMatchesAsWritten([0x62], [0x61, 0x61, 0x62])
    ensures NameMatches([0x62], [0x61, 0x61, 0x62])
  {
    var data: seq<byte> := [0x61, 0x61, 0x62];
    assert data[..2] == [0x61, 0x61];
    assert CStr(data) == data by {
      assert data[1..] == [0x61, 0x62];
      assert data[1..][1..] == [0x62];
    }
    assert OccursAt([0x62], data, 2);
    assert data[..2][1..] == [0x61];
    assert CStr(data[..2]) == [0x61, 0x61];
    if NameMatchesAsWritten([0x62], data) {
      AsWrittenOnlyNearStart([0x62], data);
    }
  }

  /** With the whole name searched, a name that holds the target anywhere before its NUL is accepted. */
  lemma NameMatchesAnywhere(target: seq<byte>, before: seq<byte>, after: seq<byte>)
    requires |target| > 0 && NoNul(target) && NoNul(before) && NoNul(after)
    ensures NameMatches(target, before + target + after)
  {
    var s := before + target + after;
    assert NoNul(s);
    CStrOfNoNul(s);
    ContainsInside(target, before, after);
  }

  lemma CStrOfNoNul(s: seq<byte>)
    requires NoNul(s)
    ensures CStr(s) == s
  {
  }

  /** A prefix of a buffer holds a prefix of its C string. */
  lemma {:induction false} CStrOfPrefix(b: seq<byte>, c: nat)
    requires c <= |b|
    ensures |CStr(b[..c])| <= |CStr(b)| && CStr(b[..c]) == CStr(b)[..|CStr(b[..c])|]
  {
    if c > 0 && b[0] != 0 {
      assert b[..c][1..] == b[1..][..c - 1];
      CStrOfPrefix(b[1..], c - 1);
    }
  }

  /** A string found in a prefix is found in the whole. */
  lemma ContainsInLonger(sub: seq<byte>, p: seq<byte>, s: seq<byte>)
    requires |p| <= |s| && p == s[..|p|] && Contains(sub, p)
    ensures Contains(sub, s)
  {
    var pos: nat :| pos < |p| && OccursAt(sub, p, pos);
    assert p[pos..pos + |sub|] == s[pos..pos + |sub|];
    assert OccursAt(sub, s, pos);
  }

  /** The truncated test is stricter than the intended one: every name it
      accepts also holds the target when read in full. */
  lemma AsWrittenImpliesIntended(target: seq<byte>, data: seq<byte>)
    requires NameMatchesAsWritten(target, data)
    ensures NameMatches(target, data)
  {
    var copied := if |data| < |target| + 1 then |data| else |target| + 1;
    CStrOfPrefix(data, copied);
    ContainsInLonger(target, CStr(data[..copied]), CStr(data));
  }

  /** bt_data_parse over the advertising data with data_cb: some name record
      passes the name test as written (the target searched in the first
      |target| + 1 octets of the name). */
  function NameFound(target: seq<byte>, recs: seq<AdRecord>): (r: bool)
    ensures r <==> exists i | 0 <= i < |recs| :: IsNameType(recs[i].kind) && NameMatchesAsWritten(target, recs[i].data)
  {
    if |recs| == 0 then false
    else
      var last := recs[|recs| - 1];
      NameFound(target, recs[..|recs| - 1]) || (IsNameType(last.kind) && NameMatchesAsWritten(target, last.data))
  }

  /** Every advertiser the name filter lets through has a name record that
      holds the target. */
  lemma NameFoundHoldsTarget(target: seq<byte>, recs: seq<AdRecord>)
    requires NameFound(target, recs)
    ensures exists i | 0 <= i < |recs| :: IsNameType(recs[i].kind) && NameMatches(target, recs[i].data)
  {
    var i :| 0 <= i < |recs| && IsNameType(recs[i].kind) && NameMatchesAsWritten(target, recs[i].data);
    AsWrittenImpliesIntended(target, recs[i].data);
  }

  /** The advertiser named "aab" is dropped by the filter for target "b",
      although its name holds the target. */
  lemma ScanReportDropsLateMatch(info: ScanInfo, recv: Option<RecvState>, assistantConnected: bool)
    requires info.interval != 0 && recv.None?
    ensures ScanReport(info, [AdRecord(AdNameComplete, [0x61, 0x61, 0x62]),
                              AnnouncementRecord(1, [])], [0x62], assistantConnected, recv).None?
  {
    var recs := [AdRecord(AdNameComplete, [0x61, 0x61, 0x62]), AnnouncementRecord(1, [])];
    NameTruncationCounterexample();
    assert !IsNameType(recs[1].kind);
  }

  /** broadcast_scan_recv: a report without periodic advertising is ignored;
      without a receive state from a Broadcast Assistant and with a non-empty
      target name, only advertisers whose name passes the name test of
      data_cb (as written, with its truncation) are looked at;
      otherwise the announcement decides. */
  function ScanReport(info: ScanInfo, recs: seq<AdRecord>, target: seq<byte>,
                      assistantConnected: bool, recv: Option<RecvState>): (r: Option<Broadcaster>)
    ensures info.interval == 0 ==> r.None?
    ensures recv.None? && |target| > 0 && !NameFound(target, recs) ==> r.None?
    ensures info.interval != 0 && (recv.Some? || |target| == 0 || NameFound(target, recs)) ==>
              r == CheckAndSync(recs, info, assistantConnected, recv)
  {
    if info.interval == 0 then None
    else if recv.None? && |target| > 0 && !NameFound(target, recs) then None
    else CheckAndSync(recs, info, assistantConnected, recv)
  }
}
