/** The privilege broker's client, and the theorem that a call through the broker is the
    local call. */
module BrokerClient {
  import opened Options
  import opened Wire
  import opened Sockets
  import opened BrokerProtocol
  import opened BrokerDaemon
  import BleClient
  import BleDevices

  const MAX_DATA: nat := MAX_PAYLOAD - ENVELOPE_SIZE

  /** How the calls on the two ends of the broker connection go; None in place of a link is a
      connect that fails. */
  datatype Link = Link(clientReads: seq<Outcome>, clientWrites: seq<Outcome>,
                       daemonReads: seq<Outcome>, daemonWrites: seq<Outcome>)

  predicate Steady(link: Link)
  {
    && Reliable(link.clientReads) && Reliable(link.clientWrites)
    && Reliable(link.daemonReads) && Reliable(link.daemonWrites)
  }

  /** A Wi-Fi or Bluetooth scan for the uid 2000 backend. */
  predicate Permitted(capability: u32, backend: u32)
  {
    (capability == 0x1001 || capability == 0x1101) && backend == 1
  }

  /** What the broker's checks followed by dispatch_capability give in one process. */
  function LocalCall(capability: u32, backend: u32, uid2000: bool, answer: Answer): Answer
  {
    if !uid2000 then Answer(-3, [])
    else if !Permitted(capability, backend) then Answer(-2, [])
    else if answer.status == 0 then answer
    else Answer(answer.status, [])
  }

  function RequestHeader(command: u16, length: u32): IpcHeader
  {
    IpcHeader(IPC_MAGIC, 1, SUBSYSTEM_PRIVILEGE_BROKER, command, STATUS_OK, length)
  }

  /** The client's half after the request is out: header, bound check, then the payload into
      the caller's buffer or, when it does not fit, into the bin. */
  method ReceiveReply(conn: Connection, response: array<byte>, responseLen: Option<u32>,
                      ghost request: IpcHeader, ghost a: Answer)
    returns (rc: i32, newLen: Option<u32>)
    requires responseLen.Some? ==> responseLen.value <= response.Length
    requires |a.bytes| <= MAX_PAYLOAD
    modifies conn`incoming, conn`readScript, response
    ensures Reliable(old(conn.readScript)) && old(conn.incoming) == Frame(request, a) ==>
              conn.incoming == [] && Received(a, responseLen, rc, newLen, old(response[..]), response[..])
    ensures Reliable(old(conn.readScript)) ==>
              Understood(old(conn.incoming), responseLen, rc, newLen, old(response[..]), response[..])
  {
    FrameReads(request, a);
    HeaderFields(conn.incoming);
    var reply;
    rc, reply := ReceiveHeader(conn);
    newLen := responseLen;
    if rc == STATUS_OK && reply.payloadLen > MAX_PAYLOAD {
      rc := STATUS_ERROR;
    }
    if rc == STATUS_OK && reply.payloadLen > 0 {
      if responseLen.None? || responseLen.value < reply.payloadLen {
        conn.Drain(reply.payloadLen);
        rc := STATUS_ERROR;
      } else {
        newLen := Some(reply.payloadLen);
        rc := conn.ReadFull(response, reply.payloadLen);
      }
    } else if responseLen.Some? {
      newLen := Some(0);
    }
    if rc == STATUS_OK {
      rc := reply.status;
    }
  }

  /** What the caller sees of any bytes that come instead of a reply, or as one. */
  predicate Understood(reply: seq<byte>, responseLen: Option<u32>, rc: i32, newLen: Option<u32>,
                       before: seq<byte>, after: seq<byte>)
  {
    if |reply| < 20 then rc == -1 && after == before
    else
      var n := GetU32(reply[16..20]);
      if n > 65536 then rc == -1 && after == before && newLen == if responseLen.Some? then Some(0) else None
      else if |reply| < 20 + n then rc == -1
      else Received(Answer(GetI32(reply[12..16]), reply[20..20 + n]), responseLen, rc, newLen, before, after)
  }

  lemma FrameReads(request: IpcHeader, a: Answer)
    requires |a.bytes| <= MAX_PAYLOAD
    ensures var s := Frame(request, a);
            && |s| == HEADER_SIZE + |a.bytes| && s[HEADER_SIZE..] == a.bytes
            && DecodeHeader(s[..HEADER_SIZE]) == request.(status := a.status, payloadLen := |a.bytes|)
  {
    var h := request.(status := a.status, payloadLen := |a.bytes|);
    HeaderRoundTrip(h);
    assert Frame(request, a)[..HEADER_SIZE] == EncodeHeader(h);
  }

  /** What the caller sees when the daemon's answer is `a`. */
  predicate Received(a: Answer, responseLen: Option<u32>, rc: i32, newLen: Option<u32>,
                     before: seq<byte>, after: seq<byte>)
  {
    var n := |a.bytes|;
    if n == 0 then
      rc == a.status && after == before && newLen == if responseLen.Some? then Some(0) else None
    else if responseLen.None? || responseLen.value < n then
      rc == -1 && after == before && newLen == responseLen
    else
      rc == a.status && newLen == Some(n) && |after| == |before| && n <= |after| &&
      after[..n] == a.bytes && after[n..] == before[n..]
  }

  /** What dispatch_capability owes inside the daemon. */
  twostate predicate Answered(services: Services, request: BrokerRequest, dataLen: nat, answer: Answer)
    reads services.bluetooth
  {
    Answers(request, dataLen, old(services.bluetooth.State()), services.bluetooth.State(),
            services.btLink, services.wifi, MAX_PAYLOAD, answer)
  }

  /** broker_request. The daemon takes its turn where the client blocks in its first read; it
      closes the connection when it is done. */
  method Exchange(link: Option<Link>, uid2000: bool, services: Services, command: u16, payload: seq<byte>,
                  response: array<byte>, responseLen: Option<u32>)
    returns (rc: i32, newLen: Option<u32>, ghost answer: Answer)
    requires |payload| < U32_BOUND
    requires responseLen.Some? ==> responseLen.value <= response.Length
    modifies response, services.bluetooth
    ensures |answer.bytes| <= MAX_PAYLOAD
    ensures |payload| > MAX_PAYLOAD || link.None? ==>
              rc == STATUS_ERROR && newLen == responseLen && unchanged(response) && unchanged(services.bluetooth)
    // a connection that fails at once gives an error and a length of zero
    ensures |payload| <= MAX_PAYLOAD && link.Some? && link.value.clientWrites != [] && link.value.clientWrites[0].Failed? ==>
              && rc == -1 && newLen == (if responseLen.Some? then Some(0) else None)
              && unchanged(response) && unchanged(services.bluetooth)
    ensures |payload| <= MAX_PAYLOAD && link.Some? && Steady(link.value) ==>
              var h := RequestHeader(command, |payload|);
              && Received(Judge(h, payload, uid2000, answer), responseLen, rc, newLen, old(response[..]), response[..])
              && (if Dispatched(h, payload, uid2000)
                  then Answered(services, EnvelopeRequest(payload), |payload| - ENVELOPE_SIZE, answer)
                  else unchanged(services.bluetooth))
  {
    hide Judge, DecodeHeader, EncodeHeader, Dispatched, Answers, Received;
    answer := Answer(STATUS_OK, []);
    newLen := responseLen;
    if |payload| > MAX_PAYLOAD {
      return STATUS_ERROR, newLen, answer;
    }
    if link.None? {
      return STATUS_ERROR, newLen, answer;
    }
    var conn := new Connection([], link.value.clientReads, link.value.clientWrites);
    var h := RequestHeader(command, |payload|);
    rc := conn.WriteFull(EncodeHeader(h));
    if rc == STATUS_OK && |payload| > 0 {
      rc := conn.WriteFull(payload);
    }
    if rc != STATUS_OK {
      newLen := if responseLen.Some? then Some(0) else None;
      return;
    }
    RequestReads(h, payload);
    assert conn.outgoing == EncodeHeader(h) + payload;
    var server := new Connection(conn.outgoing, link.value.daemonReads, link.value.daemonWrites);
    answer := HandleClient(server, uid2000, services);
    conn.incoming := server.outgoing;
    ghost var a := Judge(h, payload, uid2000, answer);
    assert [] + Frame(h, a) == Frame(h, a);
    rc, newLen := ReceiveReply(conn, response, responseLen, h, a);
  }

  lemma RequestReads(h: IpcHeader, payload: seq<byte>)
    requires h.payloadLen == |payload|
    ensures var s := EncodeHeader(h) + payload;
            && DecodeHeader(s[..HEADER_SIZE]) == h
            && s[HEADER_SIZE..HEADER_SIZE + |payload|] == payload
  {
    HeaderRoundTrip(h);
    assert (EncodeHeader(h) + payload)[..HEADER_SIZE] == EncodeHeader(h);
  }

  /** The daemon judges a client's envelope as the local call does. */
  lemma EnvelopeJudged(request: BrokerRequest, data: seq<byte>, uid2000: bool)
    requires request.protocolVersion == PROTOCOL_VERSION && |data| <= MAX_DATA
    ensures var envelope := EncodeEnvelope(request, data);
            var h := RequestHeader(BROKER_DISPATCH, |envelope|);
            && (forall answer ::
                  Judge(h, envelope, uid2000, answer) == LocalCall(request.capability, request.backend, uid2000, answer))
            && (Dispatched(h, envelope, uid2000) <==>
                  uid2000 && Permitted(request.capability, request.backend))
  {
    EnvelopeDecodes(request, data);
  }

  /** nacl_privilege_broker_dispatch. On a connection that does not fail, whatever the transfer
      sizes and interruptions: exactly what LocalCall says, seen through the caller's buffer. */
  method Dispatch(link: Option<Link>, uid2000: bool, services: Services,
                  capability: u32, backend: u32, command: u32, payload: Option<seq<byte>>, payloadLen: u32,
                  response: array<byte>, responseLen: Option<u32>)
    returns (rc: i32, newLen: Option<u32>, ghost answer: Answer)
    requires payload.Some? ==> payloadLen <= |payload.value|
    requires responseLen.Some? ==> responseLen.value <= response.Length
    modifies response, services.bluetooth
    ensures payloadLen > MAX_DATA || (payloadLen > 0 && payload.None?) || link.None? ==>
              rc == STATUS_ERROR && newLen == responseLen && unchanged(response) && unchanged(services.bluetooth)
    ensures payloadLen <= MAX_DATA && (payloadLen > 0 ==> payload.Some?) && link.Some? && Steady(link.value) ==>
              && |answer.bytes| <= MAX_PAYLOAD
              && Received(LocalCall(capability, backend, uid2000, answer), responseLen, rc, newLen,
                          old(response[..]), response[..])
              && (if uid2000 && Permitted(capability, backend)
                  then Answered(services, BrokerRequest(1, capability, backend, command), payloadLen, answer)
                  else unchanged(services.bluetooth))
  {
    var request := BrokerRequest(PROTOCOL_VERSION, capability, backend, command);
    newLen, answer := responseLen, Answer(STATUS_OK, []);
    if payloadLen > MAX_DATA {
      return STATUS_ERROR, newLen, answer;
    }
    if payloadLen > 0 && payload.None? {
      return STATUS_ERROR, newLen, answer;
    }
    var data := if payloadLen > 0 then payload.value[..payloadLen] else [];
    var envelope := EncodeEnvelope(request, data);
    EnvelopeDecodes(request, data);
    EnvelopeJudged(request, data, uid2000);
    hide Received, Answers, EncodeEnvelope, Judge, Dispatched, LocalCall;
    rc, newLen, answer := Exchange(link, uid2000, services, BROKER_DISPATCH, envelope, response, responseLen);
  }

  /** nacl_privilege_broker_get_backend. */
  method GetBackend(link: Option<Link>, uid2000: bool, services: Services)
    returns (rc: i32, backend: Option<u32>)
    modifies services.bluetooth
    ensures link.None? ==> rc == STATUS_ERROR && backend.None?
    ensures link.Some? && Steady(link.value) ==>
              unchanged(services.bluetooth) &&
              (if uid2000 then rc == 0 && backend == Some(1) else rc == -3 && backend.None?)
  {
    var response := new byte[RESPONSE_SIZE];
    var newLen;
    ghost var answer;
    rc, newLen, answer := Exchange(link, uid2000, services, BROKER_GET_BACKEND, [], response, Some(RESPONSE_SIZE));
    backend := None;
    assert response[..] == response[..RESPONSE_SIZE];
    BackendReportRoundTrip(STATUS_OK, BACKEND_UID2000);
    if rc == STATUS_OK && newLen == Some(RESPONSE_SIZE) {
      backend := Some(DecodeBackendReport(response[..]).backend);
    }
  }

  /** nacl_privilege_broker_ping. */
  method Ping(link: Option<Link>, uid2000: bool, services: Services) returns (rc: i32)
    modifies services.bluetooth
    ensures link.None? ==> rc == STATUS_ERROR
    ensures link.Some? && Steady(link.value) ==>
              unchanged(services.bluetooth) && rc == if uid2000 then 0 else -3
  {
    var nothing := new byte[0];
    var newLen;
    ghost var answer;
    rc, newLen, answer := Exchange(link, uid2000, services, BROKER_PING, [], nothing, None);
  }

  // ---- What the refinement means for the scan commands ----

  /** A scan start or stop that succeeds in the daemon reaches the caller as success exactly
      when the caller offers room for all 65536 stray bytes of its reply. */
  lemma ScanCommandNeedsFullBuffer(command: u32, was: BleDevices.Scanner, now: BleDevices.Scanner,
                                   btLink: Option<BleClient.Link>, wifi: Option<WifiPeer>, answer: Answer,
                                   responseLen: Option<u32>, rc: i32, newLen: Option<u32>,
                                   before: seq<byte>, after: seq<byte>)
    requires command == 1 || command == 3
    requires Answers(BrokerRequest(1, 0x1101, 1, command), 0, was, now, btLink, wifi, MAX_PAYLOAD, answer)
    requires Received(LocalCall(0x1101, 1, true, answer), responseLen, rc, newLen, before, after)
    requires answer.status == 0
    ensures rc == 0 <==> responseLen.Some? && responseLen.value >= 65536
  {
  }

  /** The device list through three layers: the broker hands over the first 728 records at
      most, whole and in order, the length it reports is their size, and the daemon keeps
      what it had. */
  lemma DevicesThroughBroker(was: BleDevices.Scanner, now: BleDevices.Scanner,
                             btLink: BleClient.Link, wifi: Option<WifiPeer>, answer: Answer,
                             responseLen: u32, rc: i32, newLen: Option<u32>,
                             before: seq<byte>, after: seq<byte>)
    requires Answers(BrokerRequest(1, 0x1101, 1, 2), 0, was, now, Some(btLink), wifi, MAX_PAYLOAD, answer)
    requires Received(LocalCall(0x1101, 1, true, answer), Some(responseLen), rc, newLen, before, after)
    requires BleClient.PromptDaemon(btLink) && |was.discovered| * 90 < U32_BOUND
    requires rc == 0 && responseLen <= |before|
    ensures var count := if |was.discovered| < 728 then |was.discovered| else 728;
            && newLen == Some(count * 90)
            && |after| == |before| >= count * 90
            && (forall i :: 0 <= i < count ==> after[i * 90..(i + 1) * 90] == was.discovered[i])
    ensures now == was
  {
    var count := |answer.bytes| / 90;
    assert answer.status == 0;
    assert MAX_PAYLOAD / BleDevices.RECORD_SIZE == 728;
    if count > 0 {
      forall i | 0 <= i < count ensures after[i * 90..(i + 1) * 90] == was.discovered[i] {
        BleClient.SlicesAgree(after, answer.bytes, count * 90, i * 90, (i + 1) * 90);
      }
    }
  }

  /** And the Wi-Fi service: its reply to the literal request is what the caller sees. */
  lemma WifiThroughBroker(command: u32, was: BleDevices.Scanner, now: BleDevices.Scanner,
                          btLink: Option<BleClient.Link>, wifi: WifiPeer, answer: Answer, reply: seq<byte>,
                          responseLen: u32, rc: i32, newLen: Option<u32>, before: seq<byte>, after: seq<byte>)
    requires command == 1 || command == 2
    requires Answers(BrokerRequest(1, 0x1001, 1, command), 0, was, now, btLink, Some(wifi), MAX_PAYLOAD, answer)
    requires Received(LocalCall(0x1001, 1, true, answer), Some(responseLen), rc, newLen, before, after)
    requires WifiReliable(wifi) && reply == wifi.replyTo(WifiRequest(command))
    requires 20 <= |reply| == 20 + GetU32(reply[16..20]) <= 65556 && GetI32(reply[12..16]) == 0
    ensures rc == 0 <==> |reply| - 20 <= responseLen || |reply| == 20
    ensures rc == 0 ==> newLen == Some(|reply| - 20)
    ensures rc == 0 && responseLen <= |before| ==> after == reply[20..] + before[|reply| - 20..]
    ensures rc != 0 ==> rc == -1 && after == before
    ensures now == was
  {
    hide WifiRequest;
    assert answer == Answer(0, reply[20..]);
    if rc == 0 && 20 < |reply| && responseLen <= |before| {
      assert after == after[..|reply| - 20] + after[|reply| - 20..];
    }
  }
}
