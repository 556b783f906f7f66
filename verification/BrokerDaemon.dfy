/** The privilege broker daemon: one request frame in, at most one reply frame out. */
module BrokerDaemon {
  import opened Options
  import opened Wire
  import opened Sockets
  import opened BrokerProtocol
  import opened BleDevices
  import BleClient

  /** The Wi-Fi service seen from the broker: what it sends back for the bytes it gets, and how
      the calls go. */
  datatype WifiPeer = WifiPeer(replyTo: seq<byte> -> seq<byte>, readScript: seq<Outcome>, writeScript: seq<Outcome>)

  /** The two back ends; None where connecting to the service fails. */
  datatype Services = Services(bluetooth: BluetoothDaemon, btLink: Option<BleClient.Link>, wifi: Option<WifiPeer>)

  /** What a capability handler leaves behind: a status and the first `*out_len` bytes. */
  datatype Answer = Answer(status: i32, bytes: seq<byte>)

  // ---- Wi-Fi ----

  /** The service's reply as seen through `capacity` bytes of room. */
  function WifiAnswer(reply: seq<byte>, capacity: nat): Answer
  {
    if |reply| < 20 then Answer(-1, [])
    else
      var length := GetU32(reply[16..20]);
      if length > 65536 || length > capacity || |reply| < 20 + length then Answer(-1, [])
      else Answer(GetI32(reply[12..16]), reply[20..20 + length])
  }

  /** The request for a scan (1) or for its results (2). */
  function WifiRequest(command: u32): seq<byte>
  {
    U32(0x4E41434C) + U32(1) + U16(1) + U16(if command == 1 then 200 else 201) + I32(0) + U32(0)
  }

  predicate WifiCommand(command: u32)
  {
    command == WIFI_SCAN_START || command == WIFI_SCAN_GET
  }

  predicate WifiReliable(peer: WifiPeer)
  {
    Reliable(peer.readScript) && Reliable(peer.writeScript)
  }

  /** wifi_dispatch. `outLen` is `*out_len`, in and out. */
  method WifiDispatch(command: u32, out: array<byte>, capacity: nat, wifi: Option<WifiPeer>)
    returns (status: i32, outLen: nat)
    requires capacity <= out.Length
    modifies out
    ensures outLen <= capacity
    ensures !WifiCommand(command) ==> status == STATUS_UNSUPPORTED
    ensures WifiCommand(command) && wifi.None? ==> status == STATUS_ERROR
    ensures WifiCommand(command) && wifi.Some? && WifiReliable(wifi.value) ==>
              var expected := WifiAnswer(wifi.value.replyTo(WifiRequest(command)), capacity);
              status == expected.status && (status == STATUS_OK ==> out[..outLen] == expected.bytes)
  {
    outLen := capacity;
    var ipcCommand: u16;
    if command == WIFI_SCAN_START {
      ipcCommand := CMD_WIFI_START_SCAN;
    } else if command == WIFI_SCAN_GET {
      ipcCommand := CMD_WIFI_GET_RESULTS;
    } else {
      return STATUS_UNSUPPORTED, outLen;
    }
    if wifi.None? {
      return STATUS_ERROR, outLen;
    }
    var conn := new Connection([], wifi.value.readScript, wifi.value.writeScript);
    var req := IpcHeader(IPC_MAGIC, 1, SUBSYSTEM_WIFI, ipcCommand, STATUS_OK, 0);
    var rc := conn.WriteFull(EncodeHeader(req));
    if rc < 0 {
      return STATUS_ERROR, outLen;
    }
    assert Reliable(wifi.value.writeScript) ==> conn.outgoing == WifiRequest(command);
    conn.incoming := wifi.value.replyTo(conn.outgoing);
    status, outLen := ReceiveWifiReply(conn, out, capacity);
  }

  /** Its second half: header, bound check, payload. */
  method ReceiveWifiReply(conn: Connection, out: array<byte>, capacity: nat) returns (status: i32, outLen: nat)
    requires capacity <= out.Length
    modifies conn`incoming, conn`readScript, out
    ensures outLen <= capacity
    ensures Reliable(old(conn.readScript)) ==>
              var expected := WifiAnswer(old(conn.incoming), capacity);
              status == expected.status && (status == STATUS_OK ==> out[..outLen] == expected.bytes)
    // a payload that does not fit is read off the connection all the same
    ensures Reliable(old(conn.readScript)) && |old(conn.incoming)| >= 20 ==>
              var length := GetU32(old(conn.incoming)[16..20]);
              length <= 65536 && |old(conn.incoming)| >= 20 + length ==> conn.incoming == old(conn.incoming)[20 + length..]
  {
    outLen := capacity;
    HeaderFields(conn.incoming);
    ghost var reply := conn.incoming;
    hide DecodeHeader;
    var rc, resp := ReceiveHeader(conn);
    if rc < 0 || resp.payloadLen > MAX_PAYLOAD {
      return STATUS_ERROR, outLen;
    }
    if resp.payloadLen > 0 {
      if outLen < resp.payloadLen {
        conn.Drain(resp.payloadLen);
        return STATUS_ERROR, outLen;
      }
      outLen := resp.payloadLen;
      rc := conn.ReadFull(out, resp.payloadLen);
      if rc < 0 {
        return STATUS_ERROR, outLen;
      }
      assert reply[HEADER_SIZE..][..outLen] == reply[HEADER_SIZE..HEADER_SIZE + outLen];
    } else {
      outLen := 0;
    }
    status := resp.status;
  }

  lemma HeaderFields(s: seq<byte>)
    ensures |s| >= HEADER_SIZE ==>
              var h := DecodeHeader(s[..HEADER_SIZE]);
              h.status == GetI32(s[12..16]) && h.payloadLen == GetU32(s[16..20])
  {
    if |s| >= HEADER_SIZE {
      assert s[..HEADER_SIZE][12..16] == s[12..16] && s[..HEADER_SIZE][16..20] == s[16..20];
    }
  }

  /** Fill a header buffer with read_full and look at it as a record. */
  method ReceiveHeader(conn: Connection) returns (rc: i32, h: IpcHeader)
    modifies conn`incoming, conn`readScript
    ensures rc == STATUS_OK || rc == STATUS_ERROR
    ensures rc == STATUS_OK ==> |old(conn.incoming)| >= HEADER_SIZE &&
                                h == DecodeHeader(old(conn.incoming)[..HEADER_SIZE]) &&
                                conn.incoming == old(conn.incoming)[HEADER_SIZE..]
    ensures Reliable(old(conn.readScript)) ==>
              Reliable(conn.readScript) && (rc == STATUS_OK <==> |old(conn.incoming)| >= HEADER_SIZE)
  {
    var buffer := new byte[HEADER_SIZE];
    rc := conn.ReadFull(buffer, HEADER_SIZE);
    assert buffer[..] == buffer[..HEADER_SIZE];
    h := DecodeHeader(buffer[..]);
  }

  // ---- Bluetooth ----

  /** What bt_dispatch owes for each command, and what it makes of the daemon's state. */
  ghost predicate BtAnswers(command: u32, was: Scanner, now: Scanner, btLink: Option<BleClient.Link>, capacity: nat, a: Answer)
  {
    if command == BT_SCAN_START || command == BT_SCAN_STOP then
      // *out_len is left at its initial capacity, so a success carries that many stray bytes
      && |a.bytes| == capacity
      && (btLink.None? ==> a.status == STATUS_ERROR && now == was)
      && (btLink.Some? && BleClient.PromptDaemon(btLink.value) ==>
            || BleClient.Switched(command == BT_SCAN_START, was, now)
            || (a.status != STATUS_OK && now == was))
      && (btLink.Some? && BleClient.PromptDaemon(btLink.value) && BleClient.CalmLink(btLink.value) ==>
            && a.status == (if command == BT_SCAN_START && was.isScanning then -3 else STATUS_OK)
            && BleClient.Switched(command == BT_SCAN_START, was, now))
    else if command == BT_SCAN_GET then
      && (btLink.None? || capacity < RECORD_SIZE ==> a.status == STATUS_ERROR && now == was)
      && (btLink.Some? && BleClient.PromptDaemon(btLink.value) ==> now == was)
      && (a.status == STATUS_OK ==> |a.bytes| % RECORD_SIZE == 0)
      && (a.status == STATUS_OK && btLink.Some? && BleClient.PromptDaemon(btLink.value) &&
          |was.discovered| * RECORD_SIZE < U32_BOUND ==>
            BleClient.FirstRecords(was.discovered, capacity / RECORD_SIZE, a.bytes, |a.bytes| / RECORD_SIZE))
      && (btLink.Some? && BleClient.PromptDaemon(btLink.value) && BleClient.CalmLink(btLink.value) ==>
            (capacity >= RECORD_SIZE ==> a.status == STATUS_OK))
    else
      a.status == STATUS_UNSUPPORTED && now == was
  }

  /** bt_dispatch. */
  method BtDispatch(command: u32, out: array<byte>, capacity: nat, services: Services)
    returns (status: i32, outLen: nat)
    requires capacity <= out.Length && capacity <= MAX_PAYLOAD
    modifies services.bluetooth, out
    ensures outLen <= capacity
    ensures BtAnswers(command, old(services.bluetooth.State()), services.bluetooth.State(),
                      services.btLink, capacity, Answer(status, out[..outLen]))
  {
    outLen := capacity;
    if command == BT_SCAN_START || command == BT_SCAN_STOP {
      if services.btLink.None? {
        return -1, outLen;
      }
      var bt := if command == BT_SCAN_START then CMD_START_LE_SCAN else CMD_STOP_LE_SCAN;
      status := BleClient.ScanCommand(services.bluetooth, services.btLink.value, bt, 1);
      return;
    }
    if command == BT_SCAN_GET {
      var room := outLen / RECORD_SIZE;
      if room == 0 {
        return STATUS_ERROR, outLen;
      }
      if services.btLink.None? {
        return -1, outLen;
      }
      var count;
      status, count := BleClient.GetDiscoveredDevices(services.bluetooth, services.btLink.value, out, room, 1);
      if status == 0 {
        outLen := count * RECORD_SIZE;
        if BleClient.PromptDaemon(services.btLink.value) && |old(services.bluetooth.discovered)| * RECORD_SIZE < U32_BOUND {
          RecordsInPrefix(old(services.bluetooth.discovered), room, out[..], count);
        }
      }
      return;
    }
    status := STATUS_UNSUPPORTED;
  }

  lemma RecordsInPrefix(records: seq<BleRecord>, capacity: nat, out: seq<byte>, count: nat)
    requires BleClient.FirstRecords(records, capacity, out, count)
    ensures BleClient.FirstRecords(records, capacity, out[..count * RECORD_SIZE], count)
  {
    forall i | 0 <= i < count
      ensures out[..count * RECORD_SIZE][i * RECORD_SIZE..(i + 1) * RECORD_SIZE] == records[i]
    {
      assert out[..count * RECORD_SIZE][i * RECORD_SIZE..(i + 1) * RECORD_SIZE]
          == out[i * RECORD_SIZE..(i + 1) * RECORD_SIZE];
    }
  }

  // ---- Dispatch ----

  /** What dispatch_capability owes for a request, and what it makes of the Bluetooth daemon's state. */
  ghost predicate Answers(request: BrokerRequest, dataLen: nat, was: Scanner, now: Scanner,
                          btLink: Option<BleClient.Link>, wifi: Option<WifiPeer>, capacity: nat, a: Answer)
  {
    && |a.bytes| <= capacity
    && (if dataLen != 0 then a.status == STATUS_UNSUPPORTED && now == was
        else if request.capability == CAP_BT_SCAN then
          BtAnswers(request.command, was, now, btLink, capacity, a)
        else if request.capability == CAP_WIFI_SCAN then
          && now == was
          && (!WifiCommand(request.command) ==> a.status == STATUS_UNSUPPORTED)
          && (WifiCommand(request.command) && wifi.None? ==> a.status == STATUS_ERROR)
          && (WifiCommand(request.command) && wifi.Some? && WifiReliable(wifi.value) ==>
                var expected := WifiAnswer(wifi.value.replyTo(WifiRequest(request.command)), capacity);
                a.status == expected.status && (a.status == STATUS_OK ==> a == expected))
        else a.status == STATUS_UNSUPPORTED && now == was)
  }

  /** dispatch_capability. */
  method DispatchCapability(request: BrokerRequest, dataLen: nat, out: array<byte>, capacity: nat, services: Services)
    returns (status: i32, outLen: nat)
    requires capacity <= out.Length && capacity <= MAX_PAYLOAD
    modifies services.bluetooth, out
    ensures outLen <= capacity
    ensures Answers(request, dataLen, old(services.bluetooth.State()), services.bluetooth.State(),
                    services.btLink, services.wifi, capacity, Answer(status, out[..outLen]))
  {
    outLen := capacity;
    if dataLen != 0 {
      return STATUS_UNSUPPORTED, outLen;
    }
    if request.capability == CAP_BT_SCAN {
      status, outLen := BtDispatch(request.command, out, capacity, services);
    } else if request.capability == CAP_WIFI_SCAN {
      status, outLen := WifiDispatch(request.command, out, capacity, services.wifi);
    } else {
      status := STATUS_UNSUPPORTED;
    }
  }

  /** A payload that passes every check before dispatch_capability is called. */
  predicate Dispatchable(payload: seq<byte>)
  {
    && EnvelopeFits(payload)
    && EnvelopeRequest(payload).protocolVersion == PROTOCOL_VERSION
    && CapabilitySupported(EnvelopeRequest(payload).capability)
    && EnvelopeRequest(payload).backend == BACKEND_UID2000
  }

  /** The one path on which dispatch_capability runs. */
  predicate Dispatched(h: IpcHeader, payload: seq<byte>, uid2000: bool)
  {
    && h.magic == IPC_MAGIC && h.subsystem == SUBSYSTEM_PRIVILEGE_BROKER && uid2000
    && h.command == BROKER_DISPATCH && Dispatchable(payload)
  }

  /** A failing handler's bytes are thrown away. */
  function Settled(a: Answer): Answer
  {
    if a.status == STATUS_OK then a else Answer(a.status, [])
  }

  /** The outcome of a whole request, `answer` being what dispatch_capability said. */
  function Judge(h: IpcHeader, payload: seq<byte>, uid2000: bool, answer: Answer): (a: Answer)
    ensures |answer.bytes| <= MAX_PAYLOAD ==> |a.bytes| <= MAX_PAYLOAD
  {
    if h.magic != IPC_MAGIC then Answer(STATUS_ERROR, [])
    else if h.subsystem != SUBSYSTEM_PRIVILEGE_BROKER then Answer(STATUS_UNSUPPORTED, [])
    else if !uid2000 then Answer(STATUS_PERMISSION_DENIED, [])
    else if h.command == BROKER_PING then Answer(STATUS_OK, [])
    else if h.command == BROKER_GET_BACKEND then
      if h.payloadLen != 0 then Answer(STATUS_ERROR, [])
      else Answer(STATUS_OK, EncodeBackendReport(STATUS_OK, BACKEND_UID2000))
    else if h.command == BROKER_DISPATCH then
      if |payload| < ENVELOPE_SIZE then Answer(STATUS_ERROR, [])
      else if !Dispatchable(payload) then Answer(STATUS_UNSUPPORTED, [])
      else Settled(answer)
    else Answer(STATUS_UNSUPPORTED, [])
  }

  function Frame(request: IpcHeader, a: Answer): seq<byte>
    requires |a.bytes| <= MAX_PAYLOAD
  {
    EncodeHeader(request.(status := a.status, payloadLen := |a.bytes|)) + a.bytes
  }

  /** Everything handle_client writes, for every input byte stream. */
  function Respond(input: seq<byte>, uid2000: bool, answer: Answer): seq<byte>
    requires |answer.bytes| <= MAX_PAYLOAD
  {
    if |input| < HEADER_SIZE then []
    else
      var h := DecodeHeader(input[..HEADER_SIZE]);
      if h.payloadLen > MAX_PAYLOAD then Frame(h, Answer(STATUS_ERROR, []))
      else if |input| < HEADER_SIZE + h.payloadLen then []
      else Frame(h, Judge(h, input[HEADER_SIZE..HEADER_SIZE + h.payloadLen], uid2000, answer))
  }

  /** At most one reply frame, which echoes the request and announces exactly the bytes that
      follow, never more than 65536. */
  lemma AtMostOneFrame(input: seq<byte>, uid2000: bool, answer: Answer)
    requires |answer.bytes| <= MAX_PAYLOAD
    ensures var reply := Respond(input, uid2000, answer);
            reply != [] ==>
              HEADER_SIZE <= |input| && HEADER_SIZE <= |reply| &&
              var h, r := DecodeHeader(input[..HEADER_SIZE]), DecodeHeader(reply[..HEADER_SIZE]);
              && r.magic == h.magic && r.transactionId == h.transactionId
              && r.subsystem == h.subsystem && r.command == h.command
              && r.payloadLen == |reply| - HEADER_SIZE <= MAX_PAYLOAD
  {
    hide EncodeHeader, DecodeHeader, Judge;
    var reply := Respond(input, uid2000, answer);
    if reply != [] {
      var h := DecodeHeader(input[..HEADER_SIZE]);
      var a := if h.payloadLen > MAX_PAYLOAD then Answer(STATUS_ERROR, [])
               else Judge(h, input[HEADER_SIZE..HEADER_SIZE + h.payloadLen], uid2000, answer);
      var r := h.(status := a.status, payloadLen := |a.bytes|);
      HeaderRoundTrip(r);
      assert reply == EncodeHeader(r) + a.bytes;
      assert reply[..HEADER_SIZE] == EncodeHeader(r);
    }
  }

  /** The branches of handle_client between the request and the reply. `answer` is what
      dispatch_capability said, if it was called. */
  method Serve(h: IpcHeader, payload: seq<byte>, uid2000: bool, services: Services)
    returns (status: i32, body: seq<byte>, ghost answer: Answer)
    requires |payload| == h.payloadLen <= MAX_PAYLOAD
    modifies services.bluetooth
    ensures |answer.bytes| <= MAX_PAYLOAD && |body| <= MAX_PAYLOAD
    ensures Answer(status, body) == Judge(h, payload, uid2000, answer)
    ensures if Dispatched(h, payload, uid2000) then
              Answers(EnvelopeRequest(payload), |payload| - ENVELOPE_SIZE,
                      old(services.bluetooth.State()), services.bluetooth.State(),
                      services.btLink, services.wifi, MAX_PAYLOAD, answer)
            else unchanged(services.bluetooth)
  {
    status, body, answer := STATUS_OK, [], Answer(STATUS_OK, []);
    if h.magic != IPC_MAGIC {
      status := STATUS_ERROR;
    } else if h.subsystem != SUBSYSTEM_PRIVILEGE_BROKER {
      status := STATUS_UNSUPPORTED;
    } else if !uid2000 {
      status := STATUS_PERMISSION_DENIED;
    } else if h.command == BROKER_PING {
      status := STATUS_OK;
    } else if h.command == BROKER_GET_BACKEND {
      if h.payloadLen != 0 {
        status := STATUS_ERROR;
      } else {
        body := EncodeBackendReport(STATUS_OK, BACKEND_UID2000);
      }
    } else if h.command == BROKER_DISPATCH {
      if h.payloadLen < ENVELOPE_SIZE {
        status := STATUS_ERROR;
      } else {
        var request := DecodeRequest(payload[..REQUEST_SIZE]);
        var dataLen := GetU32(payload[REQUEST_SIZE..ENVELOPE_SIZE]);
        if request.protocolVersion != PROTOCOL_VERSION || !CapabilitySupported(request.capability) ||
           request.backend != BACKEND_UID2000 || dataLen != h.payloadLen - REQUEST_SIZE - 4 {
          status := STATUS_UNSUPPORTED;
        } else {
          var out := new byte[MAX_PAYLOAD];
          var outLen;
          status, outLen := DispatchCapability(request, dataLen, out, MAX_PAYLOAD, services);
          answer := Answer(status, out[..outLen]);
          if status == STATUS_OK {
            body := out[..outLen];
          }
        }
      }
    } else {
      status := STATUS_UNSUPPORTED;
    }
  }

  /** handle_client on an accepted connection. */
  method HandleClient(conn: Connection, uid2000: bool, services: Services) returns (ghost answer: Answer)
    modifies conn, services.bluetooth
    ensures |answer.bytes| <= MAX_PAYLOAD
    ensures old(conn.Sound()) ==>
              conn.outgoing == old(conn.outgoing) + Respond(old(conn.incoming), uid2000, answer)
    // and when only the writes are sure to complete: that response or nothing
    ensures Reliable(old(conn.writeScript)) ==>
              || conn.outgoing == old(conn.outgoing)
              || conn.outgoing == old(conn.outgoing) + Respond(old(conn.incoming), uid2000, answer)
    ensures old(conn.Sound()) && |old(conn.incoming)| >= HEADER_SIZE ==>
              var h := DecodeHeader(old(conn.incoming)[..HEADER_SIZE]);
              h.payloadLen <= MAX_PAYLOAD && |old(conn.incoming)| >= HEADER_SIZE + h.payloadLen ==>
                var payload := old(conn.incoming)[HEADER_SIZE..HEADER_SIZE + h.payloadLen];
                if Dispatched(h, payload, uid2000) then
                  Answers(EnvelopeRequest(payload), |payload| - ENVELOPE_SIZE,
                          old(services.bluetooth.State()), services.bluetooth.State(),
                          services.btLink, services.wifi, MAX_PAYLOAD, answer)
                else unchanged(services.bluetooth)
  {
    hide Judge, DecodeHeader, EncodeHeader, Answers, Dispatched;
    answer := Answer(STATUS_OK, []);
    var rc, h := ReceiveHeader(conn);
    if rc < 0 {
      return;
    }
    if h.payloadLen > MAX_PAYLOAD {
      SendFrame(conn, h, STATUS_ERROR, []);
      return;
    }
    var payload;
    rc, payload := ReceivePayload(conn, h.payloadLen);
    if rc < 0 {
      return;
    }
    assert old(conn.incoming)[HEADER_SIZE..HEADER_SIZE + h.payloadLen]
        == old(conn.incoming)[HEADER_SIZE..][..h.payloadLen];
    var status, body;
    status, body, answer := Serve(h, payload, uid2000, services);
    SendFrame(conn, h, status, body);
  }

  method ReceivePayload(conn: Connection, length: nat) returns (rc: i32, payload: seq<byte>)
    modifies conn`incoming, conn`readScript
    ensures rc == STATUS_OK || rc == STATUS_ERROR
    ensures rc == STATUS_OK ==> length <= |old(conn.incoming)| && payload == old(conn.incoming)[..length]
    ensures Reliable(old(conn.readScript)) ==>
              Reliable(conn.readScript) && (rc == STATUS_OK <==> |old(conn.incoming)| >= length)
  {
    rc := STATUS_OK;
    var buffer := new byte[length];
    if length > 0 {
      rc := conn.ReadFull(buffer, length);
    }
    payload := buffer[..];
    assert payload == buffer[..length];
  }

  /** The reply header, then the body if there is one. The results are not looked at. */
  method SendFrame(conn: Connection, request: IpcHeader, status: i32, body: seq<byte>)
    requires |body| <= MAX_PAYLOAD
    modifies conn`outgoing, conn`writeScript
    ensures Reliable(old(conn.writeScript)) ==>
              conn.outgoing == old(conn.outgoing) + Frame(request, Answer(status, body))
  {
    var _ := conn.WriteFull(EncodeHeader(request.(status := status, payloadLen := |body|)));
    if |body| > 0 {
      var _ := conn.WriteFull(body);
    }
  }
}
