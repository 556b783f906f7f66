/** The privilege broker's wire format: 20-byte packed header, 16-byte request, the dispatch
    envelope and the 12-byte backend report, all little-endian.
 */
module BrokerProtocol {
  import opened Wire

  const IPC_MAGIC: u32 := 0x4E41434C
  const MAX_PAYLOAD: nat := 65536
  const PROTOCOL_VERSION: u32 := 1

  const SUBSYSTEM_WIFI: u16 := 1
  const SUBSYSTEM_PRIVILEGE_BROKER: u16 := 5

  const STATUS_UNSUPPORTED: i32 := -2
  const STATUS_PERMISSION_DENIED: i32 := -3

  const BROKER_PING: u16 := 1
  const BROKER_GET_BACKEND: u16 := 2
  const BROKER_DISPATCH: u16 := 3

  const BACKEND_UID2000: u32 := 1

  const CAP_WIFI_SCAN: u32 := 0x1001
  const CAP_BT_SCAN: u32 := 0x1101

  const BT_SCAN_START: u32 := 1
  const BT_SCAN_GET: u32 := 2
  const BT_SCAN_STOP: u32 := 3
  const WIFI_SCAN_START: u32 := 1
  const WIFI_SCAN_GET: u32 := 2

  const CMD_WIFI_START_SCAN: u16 := 200
  const CMD_WIFI_GET_RESULTS: u16 := 201

  const HEADER_SIZE: nat := 20
  const REQUEST_SIZE: nat := 16
  const ENVELOPE_SIZE: nat := REQUEST_SIZE + 4
  const RESPONSE_SIZE: nat := 12

  datatype IpcHeader = IpcHeader(
    magic: u32, transactionId: u32, subsystem: u16, command: u16, status: i32, payloadLen: u32)

  function EncodeHeader(h: IpcHeader): (s: seq<byte>)
    ensures |s| == HEADER_SIZE
  {
    U32(h.magic) + U32(h.transactionId) + U16(h.subsystem) + U16(h.command) + I32(h.status) + U32(h.payloadLen)
  }

  function DecodeHeader(s: seq<byte>): IpcHeader
    requires |s| == HEADER_SIZE
  {
    IpcHeader(GetU32(s[0..4]), GetU32(s[4..8]), GetU16(s[8..10]), GetU16(s[10..12]),
              GetI32(s[12..16]), GetU32(s[16..20]))
  }

  lemma HeaderRoundTrip(h: IpcHeader)
    ensures DecodeHeader(EncodeHeader(h)) == h
  {
    var s := EncodeHeader(h);
    assert s[0..4] == U32(h.magic);
    assert s[4..8] == U32(h.transactionId);
    assert s[8..10] == U16(h.subsystem);
    assert s[10..12] == U16(h.command);
    assert s[12..16] == I32(h.status);
    assert s[16..20] == U32(h.payloadLen);
  }

  datatype BrokerRequest = BrokerRequest(protocolVersion: u32, capability: u32, backend: u32, command: u32)

  function EncodeRequest(r: BrokerRequest): (s: seq<byte>)
    ensures |s| == REQUEST_SIZE
  {
    U32(r.protocolVersion) + U32(r.capability) + U32(r.backend) + U32(r.command)
  }

  function DecodeRequest(s: seq<byte>): BrokerRequest
    requires |s| == REQUEST_SIZE
  {
    BrokerRequest(GetU32(s[0..4]), GetU32(s[4..8]), GetU32(s[8..12]), GetU32(s[12..16]))
  }

  /** What the client puts on the wire: request, data length, data. */
  function EncodeEnvelope(r: BrokerRequest, data: seq<byte>): (s: seq<byte>)
    requires |data| < U32_BOUND
    ensures |s| == ENVELOPE_SIZE + |data|
  {
    EncodeRequest(r) + U32(|data|) + data
  }

  /** The daemon's length checks on a dispatch payload. */
  predicate EnvelopeFits(payload: seq<byte>)
  {
    && ENVELOPE_SIZE <= |payload| < U32_BOUND
    && GetU32(payload[REQUEST_SIZE..ENVELOPE_SIZE]) == |payload| - ENVELOPE_SIZE
  }

  function EnvelopeRequest(payload: seq<byte>): BrokerRequest
    requires ENVELOPE_SIZE <= |payload|
  {
    DecodeRequest(payload[..REQUEST_SIZE])
  }

  /** What the client encodes is what the daemon decodes. */
  lemma EnvelopeDecodes(r: BrokerRequest, data: seq<byte>)
    requires |data| < U32_BOUND - ENVELOPE_SIZE
    ensures var s := EncodeEnvelope(r, data);
            EnvelopeFits(s) && EnvelopeRequest(s) == r && s[ENVELOPE_SIZE..] == data
  {
    var s := EncodeEnvelope(r, data);
    var q := EncodeRequest(r);
    assert s[..REQUEST_SIZE] == q;
    assert s[REQUEST_SIZE..ENVELOPE_SIZE] == U32(|data|);
    assert q[0..4] == U32(r.protocolVersion);
    assert q[4..8] == U32(r.capability);
    assert q[8..12] == U32(r.backend);
    assert q[12..16] == U32(r.command);
  }

  /** And every payload that passes the daemon's length checks is the encoding of what was
      decoded from it: nothing else is accepted, and no byte is ignored. */
  lemma EnvelopeEncodes(payload: seq<byte>)
    requires EnvelopeFits(payload)
    ensures payload == EncodeEnvelope(EnvelopeRequest(payload), payload[ENVELOPE_SIZE..])
  {
    WordsFaithful(payload[0..4]);
    WordsFaithful(payload[4..8]);
    WordsFaithful(payload[8..12]);
    WordsFaithful(payload[12..16]);
    WordsFaithful(payload[REQUEST_SIZE..ENVELOPE_SIZE]);
    var q := payload[..REQUEST_SIZE];
    assert q[0..4] == payload[0..4];
    assert q[4..8] == payload[4..8];
    assert q[8..12] == payload[8..12];
    assert q[12..16] == payload[12..16];
    assert q == q[0..4] + q[4..8] + q[8..12] + q[12..16];
    assert payload == q + payload[REQUEST_SIZE..ENVELOPE_SIZE] + payload[ENVELOPE_SIZE..];
  }

  /** NaclBrokerResponse: status, backend, payload length. */
  function EncodeBackendReport(status: i32, backend: u32): (s: seq<byte>)
    ensures |s| == RESPONSE_SIZE
  {
    I32(status) + U32(backend) + U32(0)
  }

  datatype BackendReport = BackendReport(status: i32, backend: u32, payloadLen: u32)

  function DecodeBackendReport(s: seq<byte>): BackendReport
    requires |s| == RESPONSE_SIZE
  {
    BackendReport(GetI32(s[0..4]), GetU32(s[4..8]), GetU32(s[8..12]))
  }

  lemma BackendReportRoundTrip(status: i32, backend: u32)
    ensures DecodeBackendReport(EncodeBackendReport(status, backend)) == BackendReport(status, backend, 0)
  {
    var s := EncodeBackendReport(status, backend);
    assert s[0..4] == I32(status);
    assert s[4..8] == U32(backend);
    assert s[8..12] == U32(0);
  }

  /** nacl_privilege_capability_supported: only what the daemon dispatches. */
  predicate CapabilitySupported(capability: u32)
  {
    capability == CAP_BT_SCAN || capability == CAP_WIFI_SCAN
  }
}
