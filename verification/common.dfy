/** Types shared by every part of the broadcast-sink model: optional values,
    bytes, LE addresses and the Scan Delegator receive state that the
    Broadcast Assistant drives. */
module Common {

  datatype Option<+T> = None | Some(value: T)

  /** An octet of advertising data or of a C string. */
  type byte = x: int | 0 <= x < 256

  /** An LE address (bt_addr_le_t): address type and the six address octets. */
  datatype Address = Address(kind: byte, octets: seq<byte>)

  /** PA sync state of a receive state (enum bt_bap_pa_state). */
  datatype PaState = NotSynced | InfoRequested | Synced | Failed | NoPast

  /** The fields of one Scan Delegator receive state that the sample reads. */
  datatype RecvState = RecvState(
    srcId: nat,
    addr: Address,
    advSid: nat,
    broadcastId: nat,
    paState: PaState,
    numSubgroups: nat)

  /** Status codes returned to the stack: 0 is success, negative is an errno. */
  const EINVAL: int := 22
}
