/** The broker's conversation byte by byte: a second account of both sides, with every offset
    and number written out, equal to what the two programs say.
 */
module BrokerFrames {
  import opened Wire
  import opened Sockets
  import opened BrokerProtocol
  import opened BrokerDaemon
  import opened BrokerClient

  // ---- What the client sends ----

  /** A request without payload (1 asks for life, 2 for the backend, 3 dispatches). */
  function RequestBytes(command: u16, length: u32): seq<byte>
  {
    U32(0x4E41434C) + U32(1) + U16(5) + U16(command) + I32(0) + U32(length)
  }

  /** A dispatch: 20 bytes of header, 16 of request, the data length, the data. */
  function DispatchBytes(capability: u32, backend: u32, command: u32, data: seq<byte>): seq<byte>
    requires |data| < U32_BOUND - 20
  {
    RequestBytes(3, 20 + |data|) + U32(1) + U32(capability) + U32(backend) + U32(command) + U32(|data|) + data
  }

  lemma ClientSends(capability: u32, backend: u32, command: u32, data: seq<byte>, length: u32)
    requires |data| < U32_BOUND - 20
    ensures EncodeHeader(RequestHeader(BROKER_PING, length)) == RequestBytes(1, length)
    ensures EncodeHeader(RequestHeader(BROKER_GET_BACKEND, length)) == RequestBytes(2, length)
    ensures var envelope := EncodeEnvelope(BrokerRequest(PROTOCOL_VERSION, capability, backend, command), data);
            EncodeHeader(RequestHeader(BROKER_DISPATCH, |envelope|)) + envelope
              == DispatchBytes(capability, backend, command, data)
  {
    var envelope := EncodeEnvelope(BrokerRequest(PROTOCOL_VERSION, capability, backend, command), data);
    var header := EncodeHeader(RequestHeader(BROKER_DISPATCH, |envelope|));
    assert header == RequestBytes(3, 20 + |data|);
    Associates(header, U32(1), U32(capability), U32(backend), U32(command), U32(|data|), data);
  }

  lemma Associates(h: seq<byte>, a: seq<byte>, b: seq<byte>, c: seq<byte>, d: seq<byte>, n: seq<byte>, data: seq<byte>)
    ensures h + (a + b + c + d + n + data) == h + a + b + c + d + n + data
  {
  }

  // ---- What the daemon answers ----

  /** The status and body for a request of `n` payload bytes, read off the stream. */
  function Verdict(input: seq<byte>, n: nat, uid2000: bool, answer: Answer): Answer
    requires |input| >= 20 + n
  {
    if GetU32(input[0..4]) != 0x4E41434C then Answer(-1, [])
    else if GetU16(input[8..10]) != 5 then Answer(-2, [])
    else if !uid2000 then Answer(-3, [])
    else if GetU16(input[10..12]) == 1 then Answer(0, [])
    else if GetU16(input[10..12]) == 2 then
      if n != 0 then Answer(-1, []) else Answer(0, U32(0) + U32(1) + U32(0))
    else if GetU16(input[10..12]) == 3 then
      if n < 20 then Answer(-1, [])
      else if Calls(input, n) then (if answer.status == 0 then answer else Answer(answer.status, []))
      else Answer(-2, [])
    else Answer(-2, [])
  }

  /** Version 1, a Wi-Fi or Bluetooth scan, the uid 2000 backend, and the right data length. */
  predicate Calls(input: seq<byte>, n: nat)
    requires |input| >= 20 + n && n >= 20
  {
    && GetU32(input[20..24]) == 1
    && (GetU32(input[24..28]) == 0x1001 || GetU32(input[24..28]) == 0x1101)
    && GetU32(input[28..32]) == 1
    && GetU32(input[36..40]) == n - 20
  }

  /** The reply repeats the first twelve bytes of the request. */
  function ReplyBytes(input: seq<byte>, uid2000: bool, answer: Answer): seq<byte>
    requires |answer.bytes| <= 65536
  {
    if |input| < 20 then []
    else
      var n := GetU32(input[16..20]);
      if n > 65536 then input[..12] + I32(-1) + U32(0)
      else if |input| < 20 + n then []
      else
        var a := Verdict(input, n, uid2000, answer);
        input[..12] + I32(a.status) + U32(|a.bytes|) + a.bytes
  }

  lemma HeaderBytes(s: seq<byte>)
    requires |s| >= 20
    ensures DecodeHeader(s[..20]) ==
              IpcHeader(GetU32(s[0..4]), GetU32(s[4..8]), GetU16(s[8..10]), GetU16(s[10..12]),
                        GetI32(s[12..16]), GetU32(s[16..20]))
  {
    var q := s[..20];
    assert q[0..4] == s[0..4];
    assert q[4..8] == s[4..8];
    assert q[8..10] == s[8..10];
    assert q[10..12] == s[10..12];
    assert q[12..16] == s[12..16];
    assert q[16..20] == s[16..20];
  }

  /** A frame with new status and length keeps the twelve bytes before them. */
  lemma FrameBytes(s: seq<byte>, a: Answer)
    requires |s| >= 20 && |a.bytes| <= 65536
    ensures Frame(DecodeHeader(s[..20]), a) == s[..12] + I32(a.status) + U32(|a.bytes|) + a.bytes
  {
    HeaderBytes(s);
    WordsFaithful(s[0..4]);
    WordsFaithful(s[4..8]);
    HalfWordsFaithful(s[8..10]);
    HalfWordsFaithful(s[10..12]);
    assert s[..12] == s[0..4] + s[4..8] + s[8..10] + s[10..12];
    hide U32, U16, I32;
  }

  lemma SliceOfSlice(s: seq<byte>, lo: nat, hi: nat, a: nat, b: nat)
    requires a <= b <= hi - lo && hi <= |s|
    ensures s[lo..hi][a..b] == s[lo + a..lo + b]
  {
    var t := s[lo..hi];
    forall i | 0 <= i < b - a ensures t[a..b][i] == s[lo + a..lo + b][i] {
      assert t[a..b][i] == t[a + i] == s[lo + a + i];
    }
  }

  lemma PayloadBytes(s: seq<byte>, n: nat)
    requires |s| >= 20 + n && n >= 20
    ensures var payload := s[20..20 + n];
            && payload[16..20] == s[36..40]
            && DecodeRequest(payload[..16]) ==
                 BrokerRequest(GetU32(s[20..24]), GetU32(s[24..28]), GetU32(s[28..32]), GetU32(s[32..36]))
  {
    var payload := s[20..20 + n];
    SliceOfSlice(s, 20, 20 + n, 16, 20);
    SliceOfSlice(s, 20, 20 + n, 0, 16);
    SliceOfSlice(s, 20, 36, 0, 4);
    SliceOfSlice(s, 20, 36, 4, 8);
    SliceOfSlice(s, 20, 36, 8, 12);
    SliceOfSlice(s, 20, 36, 12, 16);
    assert payload[..16] == s[20..36];
  }

  lemma VerdictBytes(input: seq<byte>, n: nat, uid2000: bool, answer: Answer)
    requires |input| >= 20 + n && GetU32(input[16..20]) == n <= 65536
    ensures Judge(DecodeHeader(input[..20]), input[20..20 + n], uid2000, answer) == Verdict(input, n, uid2000, answer)
    ensures n >= 20 ==>
              (Dispatched(DecodeHeader(input[..20]), input[20..20 + n], uid2000) <==>
                 && GetU32(input[0..4]) == 0x4E41434C && GetU16(input[8..10]) == 5 && uid2000
                 && GetU16(input[10..12]) == 3 && Calls(input, n))
  {
    HeaderBytes(input);
    hide DecodeHeader;
    if n >= 20 {
      PayloadBytes(input, n);
      hide DecodeRequest;
    }
  }

  /** For every byte stream, what handle_client writes is that reply. */
  lemma DaemonReplies(input: seq<byte>, uid2000: bool, answer: Answer)
    requires |answer.bytes| <= 65536
    ensures Respond(input, uid2000, answer) == ReplyBytes(input, uid2000, answer)
  {
    if |input| >= 20 {
      HeaderBytes(input);
      var n := GetU32(input[16..20]);
      hide DecodeHeader, Judge, Verdict, Frame;
      if n > 65536 {
        FrameBytes(input, Answer(-1, []));
      } else if |input| >= 20 + n {
        VerdictBytes(input, n, uid2000, answer);
        FrameBytes(input, Verdict(input, n, uid2000, answer));
      }
    }
  }
}
