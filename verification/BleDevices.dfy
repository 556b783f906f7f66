/** The Bluetooth daemon's device list and the client library that fetches it. */
module BleDevices {
  import opened Wire
  import opened Sockets

  const RECORD_SIZE: nat := 90
  const BT_MAGIC: u32 := 0x4E414342
  const CMD_START_LE_SCAN: u16 := 300
  const CMD_STOP_LE_SCAN: u16 := 301
  const CMD_GET_DEVICES: u16 := 302
  const BT_HEADER_SIZE: nat := 18

  type BleRecord = r: seq<byte> | |r| == RECORD_SIZE witness seq(RECORD_SIZE, _ => 0)

  datatype BtHeader = BtHeader(magic: u32, transactionId: u32, command: u16, status: i32, payloadLen: u32)

  function EncodeBtHeader(h: BtHeader): (s: seq<byte>)
    ensures |s| == BT_HEADER_SIZE
  {
    U32(h.magic) + U32(h.transactionId) + U16(h.command) + I32(h.status) + U32(h.payloadLen)
  }

  function DecodeBtHeader(s: seq<byte>): BtHeader
    requires |s| == BT_HEADER_SIZE
  {
    BtHeader(GetU32(s[0..4]), GetU32(s[4..8]), GetU16(s[8..10]), GetI32(s[10..14]), GetU32(s[14..18]))
  }

  lemma BtHeaderRoundTrip(h: BtHeader)
    ensures DecodeBtHeader(EncodeBtHeader(h)) == h
  {
    var s := EncodeBtHeader(h);
    assert s[0..4] == U32(h.magic);
    assert s[4..8] == U32(h.transactionId);
    assert s[8..10] == U16(h.command);
    assert s[10..14] == I32(h.status);
    assert s[14..18] == U32(h.payloadLen);
  }

  /** The vector's memory: the records one after the other. */
  function Flatten(records: seq<BleRecord>): (s: seq<byte>)
    ensures |s| == |records| * RECORD_SIZE
  {
    if records == [] then [] else Flatten(records[..|records| - 1]) + records[|records| - 1]
  }

  lemma {:induction false} FlattenAt(records: seq<BleRecord>, i: nat)
    requires i < |records|
    ensures (i + 1) * RECORD_SIZE <= |Flatten(records)|
    ensures Flatten(records)[i * RECORD_SIZE..(i + 1) * RECORD_SIZE] == records[i]
  {
    if i < |records| - 1 {
      FlattenAt(records[..|records| - 1], i);
    }
  }

  /** What one GET_DEVICES reply carries: the length field has 32 bits. */
  function ReplyLength(records: seq<BleRecord>): u32
  {
    |records| * RECORD_SIZE % U32_BOUND
  }

  function DevicesHeader(request: BtHeader, records: seq<BleRecord>): BtHeader
  {
    request.(status := 0, payloadLen := ReplyLength(records))
  }

  /** The next transfer moves a whole header. */
  predicate Prompt(script: seq<Outcome>)
  {
    script == [] || (script[0].Moves? && script[0].limit >= BT_HEADER_SIZE)
  }

  /** No call is interrupted or fails; transfers may still be short. */
  predicate Smooth(script: seq<Outcome>)
  {
    forall o :: o in script ==> o.Moves?
  }

  /** What the daemon keeps from one request to the next. */
  datatype Scanner = Scanner(isScanning: bool, discovered: seq<BleRecord>)

  class BluetoothDaemon {
    var isScanning: bool
    var discovered: seq<BleRecord>

    ghost function State(): Scanner
      reads this
    {
      Scanner(isScanning, discovered)
    }

    constructor ()
      ensures !isScanning && discovered == []
    {
      isScanning, discovered := false, [];
    }

    method Execute(request: BtHeader) returns (response: BtHeader, payload: seq<byte>)
      modifies this
      ensures Served(old(State()), request, State())
      ensures EncodeBtHeader(response) + payload == Reply(old(State()), request)
      ensures response.payloadLen == |payload|
    {
      response := request.(status := 0, payloadLen := 0);
      payload := [];
      if request.magic != BT_MAGIC {
        response := response.(status := -1);
      } else if request.command == CMD_START_LE_SCAN {
        if !isScanning {
          discovered := [];
          isScanning := true;
        } else {
          response := response.(status := -3);
        }
      } else if request.command == CMD_STOP_LE_SCAN {
        isScanning := false;
      } else if request.command == CMD_GET_DEVICES {
        response := response.(payloadLen := ReplyLength(discovered));
        payload := Flatten(discovered)[..response.payloadLen];
      } else {
        response := response.(status := -4);
      }
    }

    /** handle_client_request. The header arrives by a single read; bytes it does not bring
        are whatever the stack held, and the buffer here starts with arbitrary bytes too. */
    method HandleClientRequest(client: Connection)
      modifies this, client
      ensures Prompt(old(client.readScript)) && |old(client.incoming)| >= BT_HEADER_SIZE ==>
                var request := DecodeBtHeader(old(client.incoming)[..BT_HEADER_SIZE]);
                Served(old(State()), request, State()) &&
                (Prompt(old(client.writeScript)) ==>
                  var reply := Reply(old(State()), request);
                  && old(client.outgoing) + reply[..BT_HEADER_SIZE] <= client.outgoing
                  && client.outgoing <= old(client.outgoing) + reply
                  && (old(client.writeScript) == [] ==> client.outgoing == old(client.outgoing) + reply))
      // a client that hangs up without a word, or cannot be read, is not answered
      ensures old(client.incoming == [] || (client.readScript != [] && !client.readScript[0].Moves?)) ==>
                State() == old(State()) && client.outgoing == old(client.outgoing)
    {
      hide DecodeBtHeader, EncodeBtHeader, Served, Reply;
      var n, request := ReceiveRequest(client);
      if n <= 0 {
        return;
      }
      var response, payload := Execute(request);
      var header := EncodeBtHeader(response);
      ghost var reply := Reply(old(State()), request);
      assert reply == header + payload && reply[..BT_HEADER_SIZE] == header;
      SendReply(client, header, payload);
      assert old(client.outgoing) + header + payload == old(client.outgoing) + reply;
    }
  }

  method ReceiveRequest(client: Connection) returns (n: int, request: BtHeader)
    modifies client`incoming, client`readScript
    ensures Prompt(old(client.readScript)) && |old(client.incoming)| >= BT_HEADER_SIZE ==>
              n == BT_HEADER_SIZE && request == DecodeBtHeader(old(client.incoming)[..BT_HEADER_SIZE])
    ensures old(client.incoming == [] || (client.readScript != [] && !client.readScript[0].Moves?)) ==> n <= 0
  {
    var buffer := new byte[BT_HEADER_SIZE];
    var errno;
    n, errno := client.Read(buffer, 0, BT_HEADER_SIZE);
    assert n == BT_HEADER_SIZE ==> buffer[..] == buffer[0..n];
    request := DecodeBtHeader(buffer[..]);
  }

  /** One write for the header and one for the payload; their results are not looked at. */
  method SendReply(client: Connection, header: seq<byte>, payload: seq<byte>)
    requires |header| == BT_HEADER_SIZE
    modifies client`outgoing, client`writeScript
    ensures Prompt(old(client.writeScript)) ==>
              && old(client.outgoing) + header <= client.outgoing
              && client.outgoing <= old(client.outgoing) + header + payload
              && (old(client.writeScript) == [] ==> client.outgoing == old(client.outgoing) + header + payload)
  {
    var _, _ := client.Write(header, 0);
    assert header[0..BT_HEADER_SIZE] == header;
    if |payload| > 0 {
      var n, _ := client.Write(payload, 0);
      assert n > 0 ==> payload[0..n] <= payload;
    }
  }

  predicate Served(was: Scanner, request: BtHeader, now: Scanner)
  {
    if request.magic == BT_MAGIC && request.command == CMD_START_LE_SCAN then
      now.isScanning && now.discovered == if was.isScanning then was.discovered else []
    else if request.magic == BT_MAGIC && request.command == CMD_STOP_LE_SCAN then
      !now.isScanning && now.discovered == was.discovered
    else
      now == was
  }

  /** The frame the daemon means to send. */
  function Reply(was: Scanner, request: BtHeader): (s: seq<byte>)
    ensures |s| >= BT_HEADER_SIZE
  {
    var plain := request.(status := 0, payloadLen := 0);
    if request.magic != BT_MAGIC then EncodeBtHeader(plain.(status := -1))
    else if request.command == CMD_START_LE_SCAN then EncodeBtHeader(plain.(status := if was.isScanning then -3 else 0))
    else if request.command == CMD_STOP_LE_SCAN then EncodeBtHeader(plain)
    else if request.command == CMD_GET_DEVICES then
      EncodeBtHeader(DevicesHeader(request, was.discovered)) + Flatten(was.discovered)[..ReplyLength(was.discovered)]
    else EncodeBtHeader(plain.(status := -4))
  }

  // ---- Byte by byte ----

  /** Status, length and list behind the ten bytes that a reply repeats from the request. */
  function ReplyTail(was: Scanner, magic: u32, command: u16): seq<byte>
  {
    if magic != 0x4E414342 then I32(-1) + U32(0)
    else if command == 300 then I32(if was.isScanning then -3 else 0) + U32(0)
    else if command == 301 then I32(0) + U32(0)
    else if command == 302 then
      var length := 90 * |was.discovered| % 4294967296;
      I32(0) + U32(length) + Flatten(was.discovered)[..length]
    else I32(-4) + U32(0)
  }

  /** 300 starts a scan, and clears the list unless one is running; 301 stops it; nothing else
      changes anything. */
  function StateAfter(was: Scanner, magic: u32, command: u16): Scanner
  {
    if magic != 0x4E414342 then was
    else if command == 300 then (if was.isScanning then was else Scanner(true, []))
    else if command == 301 then was.(isScanning := false)
    else was
  }

  lemma BtHeaderBytes(q: seq<byte>, status: i32, length: u32)
    requires |q| == 18
    ensures EncodeBtHeader(DecodeBtHeader(q).(status := status, payloadLen := length))
         == q[..10] + I32(status) + U32(length)
  {
    WordsFaithful(q[0..4]);
    WordsFaithful(q[4..8]);
    HalfWordsFaithful(q[8..10]);
    assert q[..10] == q[0..4] + q[4..8] + q[8..10];
  }

  /** For every 18 bytes that reach the daemon: the reply and the state they lead to. */
  lemma RepliesByBytes(was: Scanner, q: seq<byte>, now: Scanner)
    requires |q| == 18
    ensures Reply(was, DecodeBtHeader(q)) == q[..10] + ReplyTail(was, GetU32(q[0..4]), GetU16(q[8..10]))
    ensures Served(was, DecodeBtHeader(q), now) <==> now == StateAfter(was, GetU32(q[0..4]), GetU16(q[8..10]))
  {
    var h, magic, command := DecodeBtHeader(q), GetU32(q[0..4]), GetU16(q[8..10]);
    assert h.magic == magic && h.command == command;
    HeaderOnly(q, -1);
    HeaderOnly(q, -3);
    HeaderOnly(q, 0);
    HeaderOnly(q, -4);
    HeaderAndList(q, was);
    hide EncodeBtHeader, DecodeBtHeader, DevicesHeader, Flatten, U32, I32, GetU32, GetU16;
    Answered(was, h, q[..10]);
  }

  /** The same, with the header fields that matter named. */
  lemma Answered(was: Scanner, h: BtHeader, front: seq<byte>)
    requires forall status :: status in {-1, -3, 0, -4} ==>
               EncodeBtHeader(h.(status := status, payloadLen := 0)) == front + (I32(status) + U32(0))
    requires var length := ReplyLength(was.discovered);
             EncodeBtHeader(DevicesHeader(h, was.discovered)) + Flatten(was.discovered)[..length]
               == front + (I32(0) + U32(length) + Flatten(was.discovered)[..length])
    ensures Reply(was, h) == front + ReplyTail(was, h.magic, h.command)
  {
    hide EncodeBtHeader, DevicesHeader, Flatten, U32, I32;
  }

  lemma HeaderOnly(q: seq<byte>, status: i32)
    requires |q| == 18
    ensures EncodeBtHeader(DecodeBtHeader(q).(status := status, payloadLen := 0)) == q[..10] + (I32(status) + U32(0))
  {
    BtHeaderBytes(q, status, 0);
    assert q[..10] + I32(status) + U32(0) == q[..10] + (I32(status) + U32(0));
  }

  lemma HeaderAndList(q: seq<byte>, was: Scanner)
    requires |q| == 18
    ensures var length := ReplyLength(was.discovered);
            EncodeBtHeader(DevicesHeader(DecodeBtHeader(q), was.discovered)) + Flatten(was.discovered)[..length]
              == q[..10] + (I32(0) + U32(length) + Flatten(was.discovered)[..length])
  {
    var length := ReplyLength(was.discovered);
    BtHeaderBytes(q, 0, length);
    Grouped(q[..10], I32(0), U32(length), Flatten(was.discovered)[..length]);
    hide EncodeBtHeader, DecodeBtHeader, Flatten, U32, I32, ReplyLength;
  }

  lemma Grouped(a: seq<byte>, b: seq<byte>, c: seq<byte>, d: seq<byte>)
    ensures a + b + c + d == a + (b + c + d)
  {
  }
}
