# Broadcast sink decision core

This project models the decision logic of the Zephyr Bluetooth LE Audio
broadcast-sink sample (`samples/bluetooth/bap_broadcast_sink/src/main.c`)
and proves properties of it in Dafny. The sample finds a Broadcast Source,
synchronizes to its periodic advertising (PA), reads the BASE (Broadcast
Audio Source Endpoint) and joins some BISes (Broadcast Isochronous
Streams). It does this either on its own or on behalf of a Broadcast
Assistant that drives it through the Scan Delegator. The model covers the
pure rules inside that flow:

- **Bit helpers** (`bitfields.dfy`, module `Bitfields`).
  - `keep_n_least_significant_ones` and `get_stream_count` work on 32-bit
    bitfields, modelled as the set of their 1-bit positions.
  - Bit `i` of a BIS-index bitfield is BIS index `i + 1`.
- **Build-time sizes** (`limits.dfy`, module `SinkConfig`). The stack
  constants and Kconfig values are parameters, together with the bounds
  the sample's integer types need.
- **PA sync decisions** (`pa_sync.dfy`, module `PaSync`):
  - the sync timeout derived from the PA interval;
  - the PA timer's choice between NO_PAST and FAILED;
  - `pa_sync_req_cb`;
  - the PA synced and terminated callbacks.
- **BASE handling** (`base.dfy`, module `Base`):
  - resolving each subgroup's per-BIS channel allocations, with the
    subgroup allocation as fallback (section 3.7.2.2 of the Basic Audio
    Profile gives the BASE layout);
  - counting subgroups;
  - the latch-once `base_recv_cb`.
- **BIS selection** (`selection.dfy`, module `Selection`):
  - `select_bis_sync_bitfield` in its targeted-channel mode (exact or
    combined channel-allocation match);
  - the same function in its unconstrained mode (requests intersected with
    the BISes present, capped to the stream count under "no preference").
- **BIS-sync request** (`delegator.dfy`, module `Delegator`):
  `bis_sync_req_cb` checks the Broadcast Assistant's per-subgroup requests,
  records them, and decides whether to stop the sink and whether to signal.
- **Scanning** (`scan.dfy`, module `Scan`):
  - spotting the Broadcast Audio Announcement in 16-bit Service Data
    (section 1.11 of the Core Specification Supplement Part A, section
    3.7.2.1 of the Basic Audio Profile);
  - its 24-bit little-endian Broadcast_ID;
  - the accept rule;
  - the case-insensitive `is_substring`;
  - the broadcast-name filter of `broadcast_scan_recv`.

Shared types live in `common.dfy` (module `Common`).

Channel allocations (`enum bt_audio_location`, a 32-bit mask) are sets of
bits like the other bitfields. OR is union, AND is intersection, and mono
audio is the empty set.

The code is followed wherever it differs from a plain reading of the
sample's intent:

- A rejected BIS-sync request has already rewritten the requested-BIS
  table (main.c:554-568). The table is therefore not left unchanged.
- A subgroup whose subgroup-level allocation cannot be read is skipped but
  still counted (main.c:284-287, 314-315). This also makes the mono fallback
  of the allocation loop unreachable: the loop runs only after the subgroup
  allocation was found.
- `base_recv_cb` neither latches nor signals when the subgroup iteration
  fails (main.c:337-341).
- In targeted mode the search stops at whichever match, exact or combined,
  completes first in increasing BIS index order. A combined match therefore
  beats a later exact one (main.c:1078-1107), as
  `Selection.CombinedMatchBeatsLaterExact` shows. An exact match does not
  always win.
- `is_substring("", "")` is false, while the empty string is found in any
  non-empty string (main.c:733-743).

## Model

| member | source | states |
|---|---|---|
| Bitfields.Lsb | samples/bluetooth/bap_broadcast_sink/src/main.c:1038 | `b & -b` of a non-zero bitfield is a set bit no higher than any other set bit |
| Bitfields.KeepLeastSignificantOnes | samples/bluetooth/bap_broadcast_sink/src/main.c:1033-1045 | the result is a subset of the input with exactly min(n, popcount) bits, and every kept bit is below every dropped bit |
| Bitfields.LowestNUnique | samples/bluetooth/bap_broadcast_sink/src/main.c:1033-1045 | the lowest-n description fixes the result: two bitfields meeting it are equal |
| Bitfields.GetStreamCount | samples/bluetooth/bap_broadcast_sink/src/main.c:1048-1059 | the count is the number of set bits below BT_ISO_MAX_GROUP_ISO_COUNT, so it is at most the popcount and at most that count |
| Bitfields.CountedBitsAll | samples/bluetooth/bap_broadcast_sink/src/main.c:1048-1059 | when every set bit lies below the counted range, the stream count is the popcount |
| PaSync.SyncTimeout | samples/bluetooth/bap_broadcast_sink/src/main.c:410-431 | the timeout always lies in [MIN, MAX]; the unknown interval gives MAX; otherwise it is 5 × the interval in 10 ms units, after uint32 wrap-around, clamped to [MIN, MAX] |
| PaSync.SyncTimeoutMonotonic | samples/bluetooth/bap_broadcast_sink/src/main.c:410-431 | with non-decreasing, non-wrapping unit conversions, a longer PA interval never gives a shorter timeout, counting the unknown interval as the longest |
| PaSync.PaTimerExpiry | samples/bluetooth/bap_broadcast_sink/src/main.c:390-406 | with a tracked receive state, the PA state becomes NO_PAST exactly when it was INFO_REQ and FAILED otherwise, for that state's source id; with none, nothing is set |
| PaSync.PaSyncRequest | samples/bluetooth/bap_broadcast_sink/src/main.c:433-506 | the request's receive state becomes the tracked one (`req_recv_state`) on every path, the refusal included; an already synced or INFO_REQ state is refused with -1 and nothing else happens; PAST is subscribed exactly when the receiver is enabled, PAST is available and the subscription succeeds, and the PA timer delay is then exactly 10 × `interval_to_sync_timeout` of the PA interval, in ms; errors are propagated; the PA-request gate is given exactly on success |
| PaSync.RefusedRequestStillTracked | samples/bluetooth/bap_broadcast_sink/src/main.c:471-479 | a request refused because its state is INFO_REQ still becomes the tracked state, so an expiring PA timer then reports NO_PAST for that source |
| PaSync.PaSynced | samples/bluetooth/bap_broadcast_sink/src/main.c:796-812 | a sync is accepted exactly when it is the tracked handle or matches the requested address and SID; an accepted sync becomes the tracked handle only when none is tracked |
| PaSync.PaTerminated | samples/bluetooth/bap_broadcast_sink/src/main.c:814-843 | only the tracked sync matters; losing it clears the handle and signals first; the sink is stopped exactly when the loss is not local, a receive state exists and the BIG is synced; the source is removed exactly when, in addition, no stop was needed or the stop succeeded; stopping precedes removal; no effect is issued twice |
| Base.ApplyBisAllocations | samples/bluetooth/bap_broadcast_sink/src/main.c:211-237 | after the per-BIS callbacks, each entry holds the allocation of the last successful lookup for that index, marked valid, and is untouched otherwise |
| Base.FillFallback | samples/bluetooth/bap_broadcast_sink/src/main.c:300-312 | every present BIS index at or after the start without a valid allocation gets the subgroup allocation and becomes valid; every other entry, including index 0, is unchanged |
| Base.ResolveSlot | samples/bluetooth/bap_broadcast_sink/src/main.c:250-318 | a non-LC3 subgroup is left alone; an LC3 subgroup stores its BIS-index bitfield; a subgroup without a subgroup allocation gets no BIS-level lookups; in a completed subgroup every present index holds its own allocation, or else the subgroup's |
| Base.ResolveSubgroup | samples/bluetooth/bap_broadcast_sink/src/main.c:250-318 | the entry at subgroup_cnt is resolved and the count advances by one, skipped or not, keeping the data within its bounds |
| Base.ResolveAll | samples/bluetooth/bap_broadcast_sink/src/main.c:332-336 | over a whole BASE, subgroup i lands in entry subgroup_cnt + i, the count grows by exactly the number of subgroups, and other entries are untouched |
| Base.BaseReceive | samples/bluetooth/bap_broadcast_sink/src/main.c:320-353 | a second BASE changes nothing; the first is resolved from zeroed data; a failed iteration neither latches nor signals; without an assistant every subgroup requests "no preference" and the BIS-sync gate is given |
| Base.LaterBaseIgnored | samples/bluetooth/bap_broadcast_sink/src/main.c:325-327 | once a BASE was taken, any later BASE leaves the state unchanged and signals nothing |
| Base.ResolvedAllocation | samples/bluetooth/bap_broadcast_sink/src/main.c:250-312 | for a completed LC3 subgroup every BIS index in its bitfield is valid, holding its per-BIS allocation if one was found and the subgroup allocation otherwise |
| Base.NoLookupWithoutBis | samples/bluetooth/bap_broadcast_sink/src/main.c:211-237 | an index no reported BIS carries gets no BIS-level allocation |
| Base.IndexZeroStaysInvalid | samples/bluetooth/bap_broadcast_sink/src/main.c:300-312 | entry 0 of a fresh subgroup stays invalid, since the fallback loop starts at BIS index 1 |
| Selection.SelectUnconstrained | samples/bluetooth/bap_broadcast_sink/src/main.c:1114-1133 | without a "no preference" request the result is the OR over subgroups of request AND BIS indexes; with one it is the STREAM_COUNT lowest bits of that OR |
| Selection.NoRequestsOfferNothing | samples/bluetooth/bap_broadcast_sink/src/main.c:1117-1125 | all-zero requests select nothing |
| Selection.OfferedIsRequestedAndPresent | samples/bluetooth/bap_broadcast_sink/src/main.c:1122-1123 | a bit is selected exactly when one and the same subgroup both requests it and contains it |
| Selection.MatchSubgroup | samples/bluetooth/bap_broadcast_sink/src/main.c:1078-1107 | the search of one subgroup returns nothing exactly when no BIS index ends it; otherwise it stops at the first index with an exact match or a completing combined match, and returns that BIS or all partial matches so far |
| Selection.SelectTargeted | samples/bluetooth/bap_broadcast_sink/src/main.c:1067-1113 | the result is the pick of the first requesting subgroup that matches, or 0 when none matches |
| Selection.SelectBisSyncBitfield | samples/bluetooth/bap_broadcast_sink/src/main.c:1061-1137 | with a target channel the targeted result, otherwise the unconstrained result |
| Selection.PickMeetsTarget | samples/bluetooth/bap_broadcast_sink/src/main.c:1090-1101 | a non-zero pick is requested and uses only BISes with valid allocations touching the target; it is one BIS whose allocation equals the target, or a set whose allocations OR to the target |
| Selection.TargetedResultUnique | samples/bluetooth/bap_broadcast_sink/src/main.c:1067-1113 | the targeted description determines the result |
| Selection.CombinedMatchBeatsLaterExact | samples/bluetooth/bap_broadcast_sink/src/main.c:1078-1107 | a combined match on BISes 1 and 2 ends the search before the exact match on BIS 3 |
| Selection.FrontLeftTargetPicksBisOne | samples/bluetooth/bap_broadcast_sink/src/main.c:1067-1113 | for any BT_ISO_BIS_INDEX_MAX of at least 3 and any MAX_SUBGROUPS: BIS 1 front left, BIS 2 front right, BIS 3 with only the mono subgroup allocation; a front-left target selects BIS 1 alone |
| Delegator.BisSyncRequest | samples/bluetooth/bap_broadcast_sink/src/main.c:545-621 | the table always becomes the first num_subgroups requests with zeros elsewhere; specific requests spanning several subgroups or too many streams give -EINVAL; a request while the BIG is synced gives -EINVAL; releasing a synced BIG stops the sink and propagates its error; success records the broadcast id and signals exactly when some request is non-zero |
| Delegator.AnyRequestMeans | samples/bluetooth/bap_broadcast_sink/src/main.c:558-568 | the sync_req flag is set exactly when some request is non-zero |
| Delegator.AnySpecificMeans | samples/bluetooth/bap_broadcast_sink/src/main.c:558-568 | the no-preference flag is cleared exactly when some request is non-zero and not NO_PREF |
| Delegator.NoRequestCounted | samples/bluetooth/bap_broadcast_sink/src/main.c:558-568 | the requesting-subgroup count is zero exactly when no request is non-zero |
| Delegator.RejectedWithinGroup | samples/bluetooth/bap_broadcast_sink/src/main.c:570-587 | when every requested BIS index lies below BT_ISO_MAX_GROUP_ISO_COUNT, the check refuses a specific request exactly when more than one subgroup requests or more BISes are requested than there are streams |
| Delegator.RequestedUnionMeans | samples/bluetooth/bap_broadcast_sink/src/main.c:564 | a BIS is in the ORed requests exactly when some subgroup requests it |
| Delegator.TwoSubgroupRequestRefused | samples/bluetooth/bap_broadcast_sink/src/main.c:570-586 | a specific request that spans two subgroups is refused |
| Delegator.NoPreferenceNeverRejected | samples/bluetooth/bap_broadcast_sink/src/main.c:570-587 | requests that are all NO_PREF or zero pass the check, however many subgroups they span |
| Scan.Le24RoundTrip | samples/bluetooth/bap_broadcast_sink/src/main.c:700 | reading back a 24-bit Broadcast_ID encoded little-endian gives the ID |
| Scan.EncodeLe24RoundTrip | samples/bluetooth/bap_broadcast_sink/src/main.c:700 | any three octets read as a 24-bit ID encode back to themselves |
| Scan.CheckRecord | samples/bluetooth/bap_broadcast_sink/src/main.c:684-700 | records other than 16-bit service data, and records shorter than UUID plus Broadcast_ID, are skipped; an announcement's ID is below 2^24 |
| Scan.AnnouncementRoundTrip | samples/bluetooth/bap_broadcast_sink/src/main.c:684-700 | the record test finds the Broadcast_ID in any Broadcast Audio Announcement service data, whatever follows it |
| Scan.AnnouncementIsRecord | samples/bluetooth/bap_broadcast_sink/src/main.c:684-700 | every record the test accepts is the announcement of its ID |
| Scan.FirstAnnouncement | samples/bluetooth/bap_broadcast_sink/src/main.c:677-722 | parsing stops at the first announcement; every record before it is skipped |
| Scan.CheckAndSync | samples/bluetooth/bap_broadcast_sink/src/main.c:707-721 | a broadcaster is stored only from the first announcement and only when no assistant is connected or the receive state names its address, SID and ID |
| Scan.LaterAnnouncementIgnored | samples/bluetooth/bap_broadcast_sink/src/main.c:720-721 | records after the first announcement never change the outcome |
| Scan.IsSubstring | samples/bluetooth/bap_broadcast_sink/src/main.c:724-744 | true exactly when the substring occurs, ignoring case, at a position inside the string |
| Scan.EmptyPatternCase | samples/bluetooth/bap_broadcast_sink/src/main.c:724-744 | the empty string is found exactly in non-empty strings |
| Scan.ContainsIgnoresCase | samples/bluetooth/bap_broadcast_sink/src/main.c:738 | lower-casing both strings does not change the answer |
| Scan.ContainsInside | samples/bluetooth/bap_broadcast_sink/src/main.c:724-744 | a non-empty string is found in any string that has it inside |
| Scan.CStr | samples/bluetooth/bap_broadcast_sink/src/main.c:726-727 | strlen stops at the first NUL: the result is a NUL-free prefix followed by a NUL or the end |
| Scan.AsWrittenOnlyNearStart | samples/bluetooth/bap_broadcast_sink/src/main.c:746-757 | as written, a name passes only if the target sits at offset 0 or 1 |
| Scan.NameTruncationCounterexample | samples/bluetooth/bap_broadcast_sink/src/main.c:749-757 | target "b" is not found in the name "aab" as written, but is found in the whole name |
| Scan.NameMatchesAnywhere | samples/bluetooth/bap_broadcast_sink/src/main.c:749-757 | with the whole name searched, a name that holds the target anywhere passes |
| Scan.AsWrittenImpliesIntended | samples/bluetooth/bap_broadcast_sink/src/main.c:749-757 | every name the truncated test accepts also holds the target when read in full: the test as written is stricter than the intended one |
| Scan.NameFound | samples/bluetooth/bap_broadcast_sink/src/main.c:746-766 | the name filter passes exactly when some shortened, complete or broadcast name record passes the test as written, which searches only the first strlen(target) + 1 octets |
| Scan.NameFoundHoldsTarget | samples/bluetooth/bap_broadcast_sink/src/main.c:746-766 | every advertiser the filter lets through has a name record that holds the target |
| Scan.ScanReport | samples/bluetooth/bap_broadcast_sink/src/main.c:768-790 | reports without periodic advertising are ignored; without a receive state and with a non-empty target, only advertisers passing the name filter as written go on; otherwise the announcement check decides |
| Scan.ScanReportDropsLateMatch | samples/bluetooth/bap_broadcast_sink/src/main.c:768-790 | without a receive state, an advertiser named "aab" with a valid announcement is dropped for target "b" |

## Left out

- Kernel semaphores, `k_sem_reset`, the PA timer as delayed work, and the blocking wait, timeout and retry loop of `main` are left out. They coordinate threads and are not decisions. The gates a callback gives are result flags.
- Bluetooth host calls are left out. These are scan start/stop; PA sync create, delete and PAST subscribe; broadcast sink create, sync, stop and delete; advertising; `set_pa_state` and `rem_src`; PACS registration in `init`. Their bodies are not part of this model. Their results are inputs (`subscribeErr`, `setStateErr`, `stopErr`).
- `reset()` is left out, including its PA-sync deletion branch, which tests a stale `err` (main.c:933-939). It is a sequence of host calls.
- `recv_state_updated_cb`, `pa_sync_term_req_cb`, `broadcast_code_cb`, `syncable_cb`, `connected` and `disconnected` are left out. They only record the receive state, copy the broadcast code, or call the host and give a gate. The tracked receive state and the assistant connection are inputs.
- The stream callbacks, `stream_recv_cb`, and the LC3 and USB audio output are left out as I/O.
- `pa_sync_create` is left out, as are the PA sync parameters it fills in (skip 5, the options). It only fills a structure for a host call.
- Codec decoding inside the stack is left out: codec configuration, `bt_audio_codec_cfg_get_chan_allocation`, `bt_bap_base_subgroup_get_bis_indexes` and `bt_data_parse`. Their results are inputs: an optional codec id, an optional allocation per subgroup and per BIS, a BIS-index bitfield, and a list of (AD type, payload) records.
- `bt_uuid_create` on two octets always succeeds, so its failure branch (main.c:692-694) is not modelled.
- The stack constants and Kconfig values are parameters with stated bounds, not fixed numbers. These are BT_ISO_BIS_INDEX_MAX, BT_ISO_MAX_GROUP_ISO_COUNT, the PA timeout range, BT_BAP_PA_INTERVAL_UNKNOWN, BT_BAP_BIS_SYNC_NO_PREF, the interval conversion macros, STREAM_COUNT, MAX_SUBGROUPS and TARGET_BROADCAST_CHANNEL. Their definitions are not part of this model.
- The stack is assumed never to report more subgroups than MAX_SUBGROUPS or a BIS index above BT_ISO_BIS_INDEX_MAX. The sample does not check either.
- A failed per-BIS allocation lookup is assumed to leave the entry alone. Whether the stack writes a value on failure is not visible.
- Base.ResolveSlot: the mono fallback of the allocation loop is not modelled, because the loop only runs after the subgroup allocation was found (main.c:284-287).
- PaSync.SyncTimeoutMonotonic: this holds only for unit conversions that never decrease and never wrap a uint32_t. The macros are parameters here.

## Findings

| source | as written | input that shows it | evidently intended | confidence | as-written member | corrected member |
|---|---|---|---|---|---|---|
| samples/bluetooth/bap_broadcast_sink/src/main.c:749-757 | `data_cb` copies at most NAME_LEN - 1 = strlen(target) + 1 octets of the advertised name before calling `is_substring`, so the target is found only at offset 0 or 1 | target "b", advertised name "aab": the buffer holds "aa" and the broadcaster is ignored | the target is searched in the whole advertised name, as `is_substring` scans every position | medium; not executed | Scan.NameTruncationCounterexample | Scan.NameMatchesAnywhere |

The scan model (`Scan.NameFound`, `Scan.ScanReport`) follows the code and
uses the name test as written, `Scan.NameMatchesAsWritten`. The corrected
test, `Scan.NameMatches`, searches the whole name.
`Scan.AsWrittenImpliesIntended` shows that it accepts every name the code
accepts, and `Scan.NameMatchesAnywhere` proves the property that was
evidently intended.
