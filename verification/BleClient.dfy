/** The client library of the Bluetooth daemon: one connection per call, the daemon takes its
    turn while the client waits for the reply header. */
module BleClient {
  import opened Wire
  import opened Sockets
  import opened BleDevices

  /** How the calls on the two ends of one connection go. */
  datatype Link = Link(clientReads: seq<Outcome>, clientWrites: seq<Outcome>,
                       daemonReads: seq<Outcome>, daemonWrites: seq<Outcome>)

  /** Headers cross whole, as a local socket delivers them; payloads may still be cut. */
  predicate PromptDaemon(link: Link)
  {
    Prompt(link.daemonReads) && Prompt(link.daemonWrites)
  }

  function Request(command: u16, txId: u32): BtHeader
  {
    BtHeader(BT_MAGIC, txId, command, 0, 0)
  }

  /** The client's first write does not take the header. */
  predicate Mute(link: Link)
  {
    link.clientWrites != [] && !(link.clientWrites[0].Moves? && link.clientWrites[0].limit >= 18)
  }

  lemma RequestBytes(command: u16, txId: u32)
    ensures EncodeBtHeader(Request(command, txId)) == U32(0x4E414342) + U32(txId) + U16(command) + I32(0) + U32(0)
  {
  }

  /** Send a request header, let the daemon serve it, read the reply header. */
  method Transact(daemon: BluetoothDaemon, link: Link, command: u16, txId: u32)
    returns (ok: bool, response: BtHeader, conn: Connection)
    modifies daemon
    ensures fresh(conn)
    ensures ok && PromptDaemon(link) ==>
              var reply := Reply(old(daemon.State()), Request(command, txId));
              && Served(old(daemon.State()), Request(command, txId), daemon.State())
              && response == DecodeBtHeader(reply[..BT_HEADER_SIZE])
              && conn.incoming <= reply[BT_HEADER_SIZE..]
              && (link.daemonWrites == [] ==> conn.incoming == reply[BT_HEADER_SIZE..])
    ensures PromptDaemon(link) && Prompt(link.clientReads) && Prompt(link.clientWrites) ==> ok
    // and a call that fails has been served whole or not at all
    ensures PromptDaemon(link) ==>
              daemon.State() == old(daemon.State()) ||
              Served(old(daemon.State()), Request(command, txId), daemon.State())
    ensures Mute(link) ==> !ok && daemon.State() == old(daemon.State())
    ensures forall o :: o in conn.readScript ==> o in link.clientReads
  {
    hide DecodeBtHeader, EncodeBtHeader, Served, Reply;
    conn := new Connection([], link.clientReads, link.clientWrites);
    response := Request(command, txId);
    var header := EncodeBtHeader(response);
    var sent, _ := conn.Write(header, 0);
    if sent != BT_HEADER_SIZE {
      return false, response, conn;
    }
    assert conn.outgoing == [] + header[0..BT_HEADER_SIZE] == header;
    var serverSide := new Connection(conn.outgoing, link.daemonReads, link.daemonWrites);
    BtHeaderRoundTrip(response);
    assert serverSide.incoming[..BT_HEADER_SIZE] == header;
    ghost var reply := Reply(daemon.State(), response);
    daemon.HandleClientRequest(serverSide);
    conn.incoming := serverSide.outgoing;
    assert [] + reply == reply && [] + reply[..BT_HEADER_SIZE] == reply[..BT_HEADER_SIZE];
    ok, response := ReadHeader(conn, reply, PromptDaemon(link), link.daemonWrites == []);
  }

  /** One read for the reply header. `reply` is what the daemon meant to send; `cut` says
      that at least its header came through, `whole` that nothing is missing. */
  method ReadHeader(conn: Connection, ghost reply: seq<byte>, ghost cut: bool, ghost whole: bool)
    returns (ok: bool, response: BtHeader)
    requires |reply| >= BT_HEADER_SIZE
    requires cut ==> reply[..BT_HEADER_SIZE] <= conn.incoming <= reply
    requires cut && whole ==> conn.incoming == reply
    modifies conn`incoming, conn`readScript
    ensures ok && cut ==> response == DecodeBtHeader(reply[..BT_HEADER_SIZE]) &&
                          conn.incoming <= reply[BT_HEADER_SIZE..]
    ensures ok && cut && whole ==> conn.incoming == reply[BT_HEADER_SIZE..]
    ensures cut && Prompt(old(conn.readScript)) ==> ok
    ensures forall o :: o in conn.readScript ==> o in old(conn.readScript)
  {
    var buffer := new byte[BT_HEADER_SIZE];
    var n, _ := conn.Read(buffer, 0, BT_HEADER_SIZE);
    ok := n == BT_HEADER_SIZE;
    assert ok ==> buffer[..] == buffer[0..n] == old(conn.incoming)[..BT_HEADER_SIZE];
    assert cut ==> old(conn.incoming)[..BT_HEADER_SIZE] == reply[..BT_HEADER_SIZE];
    response := DecodeBtHeader(buffer[..]);
  }

  /** A start leaves the daemon scanning, with the list it had or, when it was idle, an empty
      one; a stop leaves it idle with the list it had. */
  predicate Switched(on: bool, was: Scanner, now: Scanner)
  {
    now == if on && !was.isScanning then Scanner(true, []) else was.(isScanning := on)
  }

  /** bt_start_le_scan and bt_stop_le_scan, which differ in the command alone. */
  method ScanCommand(daemon: BluetoothDaemon, link: Link, command: u16, txId: u32) returns (status: i32)
    requires command == CMD_START_LE_SCAN || command == CMD_STOP_LE_SCAN
    modifies daemon
    ensures PromptDaemon(link) && Prompt(link.clientReads) && Prompt(link.clientWrites) ==>
              status == (if command == CMD_START_LE_SCAN && old(daemon.isScanning) then -3 else 0) &&
              Switched(command == CMD_START_LE_SCAN, old(daemon.State()), daemon.State())
    ensures PromptDaemon(link) ==>
              || Switched(command == CMD_START_LE_SCAN, old(daemon.State()), daemon.State())
              || (status == -1 && daemon.State() == old(daemon.State()))
    ensures PromptDaemon(link) ==> status == 0 || status == -1 || status == -3
    ensures Mute(link) ==> status == -1 && daemon.State() == old(daemon.State())
  {
    var ok, response, conn := Transact(daemon, link, command, txId);
    if !ok {
      return -1;
    }
    ghost var plain := Request(command, txId);
    ghost var reply := Reply(old(daemon.State()), plain);
    assert reply[..BT_HEADER_SIZE] == reply;
    BtHeaderRoundTrip(plain);
    BtHeaderRoundTrip(plain.(status := -3));
    status := response.status;
  }

  /** The copy loop: any read that moves nothing ends it. */
  method ReadPayload(conn: Connection, buffer: array<byte>) returns (total: nat)
    modifies conn`incoming, conn`readScript, buffer
    ensures total <= buffer.Length
    ensures total == buffer.Length ==> buffer[..] <= old(conn.incoming)
    ensures Smooth(old(conn.readScript)) && buffer.Length <= |old(conn.incoming)| ==> total == buffer.Length
  {
    total := 0;
    while total < buffer.Length
      invariant total <= buffer.Length && total <= |old(conn.incoming)|
      invariant conn.incoming == old(conn.incoming)[total..]
      invariant buffer[..total] == old(conn.incoming)[..total]
      invariant forall o :: o in conn.readScript ==> o in old(conn.readScript)
      decreases buffer.Length - total
    {
      var r, _ := conn.Read(buffer, total, buffer.Length - total);
      if r <= 0 {
        break;
      }
      Grown(old(conn.incoming), total, r, buffer[..total], buffer[total..total + r], buffer[..total + r]);
      total := total + r;
    }
    assert total == buffer.Length ==> buffer[..] == buffer[..total];
  }

  function Min(a: nat, b: nat): (m: nat)
    ensures m <= a && m <= b && (m == a || m == b)
  {
    if a < b then a else b
  }

  /** What a caller gets for `capacity` slots when the daemon holds `records`. */
  ghost predicate FirstRecords(records: seq<BleRecord>, capacity: nat, out: seq<byte>, count: nat)
  {
    && count == Min(|records|, capacity)
    && count * RECORD_SIZE <= |out|
    && forall i :: 0 <= i < count ==> out[i * RECORD_SIZE..(i + 1) * RECORD_SIZE] == records[i]
  }

  /** Neither byte count overflows its 32-bit field. */
  predicate InRange(records: seq<BleRecord>, capacity: nat)
  {
    capacity * RECORD_SIZE < U32_BOUND && |records| * RECORD_SIZE < U32_BOUND
  }

  /** Whole headers, whole daemon writes, and client reads that are at worst short. */
  predicate CalmLink(link: Link)
  {
    link.daemonWrites == [] && Prompt(link.clientWrites) && Prompt(link.clientReads) && Smooth(link.clientReads)
  }

  /** bt_get_discovered_devices. */
  method GetDiscoveredDevices(daemon: BluetoothDaemon, link: Link, out: array<byte>, maxCount: u32, txId: u32)
    returns (status: i32, count: nat)
    requires maxCount * RECORD_SIZE <= out.Length
    modifies daemon, out
    // the byte limit is a 32-bit product; nothing past it is written, whatever arrives
    ensures var limit := maxCount * RECORD_SIZE % U32_BOUND; out[limit..] == old(out[limit..])
    ensures count * RECORD_SIZE <= maxCount * RECORD_SIZE % U32_BOUND
    ensures PromptDaemon(link) && status == 0 && InRange(old(daemon.discovered), maxCount) ==>
              FirstRecords(old(daemon.discovered), maxCount, out[..], count) &&
              out[count * RECORD_SIZE..] == old(out[count * RECORD_SIZE..])
    ensures PromptDaemon(link) ==> daemon.State() == old(daemon.State())
    ensures PromptDaemon(link) && CalmLink(link) ==> status == 0
    ensures PromptDaemon(link) ==> status == 0 || status == -1 || status == -3
    ensures status != 0 ==> count == 0 && out[..] == old(out[..])
  {
    hide Flatten, FirstRecords, ReplyLength;
    count := 0;
    var ok, response, conn := AskForDevices(daemon, link, txId);
    if !ok {
      return -1, 0;
    }
    status := response.status;
    if status == 0 && response.payloadLen > 0 {
      var fetched;
      fetched, count := FetchRecords(conn, response.payloadLen, out, maxCount);
      if !fetched {
        return -3, 0;
      }
      if PromptDaemon(link) && InRange(old(daemon.discovered), maxCount) {
        UncutList(old(daemon.discovered), maxCount);
        FetchedAll(old(daemon.discovered), maxCount, Flatten(old(daemon.discovered)), out[..], count);
      }
    } else if status == 0 && PromptDaemon(link) && InRange(old(daemon.discovered), maxCount) {
      NothingFetched(old(daemon.discovered), maxCount, out[..]);
    }
  }

  method AskForDevices(daemon: BluetoothDaemon, link: Link, txId: u32)
    returns (ok: bool, response: BtHeader, conn: Connection)
    modifies daemon
    ensures fresh(conn)
    ensures ok && PromptDaemon(link) ==>
              var bytes := Flatten(old(daemon.discovered))[..ReplyLength(old(daemon.discovered))];
              && response.status == 0 && response.payloadLen == |bytes|
              && conn.incoming <= bytes
              && (link.daemonWrites == [] ==> conn.incoming == bytes)
    ensures PromptDaemon(link) ==> daemon.State() == old(daemon.State())
    ensures PromptDaemon(link) && CalmLink(link) ==> ok
    ensures forall o :: o in conn.readScript ==> o in link.clientReads
  {
    hide Reply, DecodeBtHeader;
    ok, response, conn := Transact(daemon, link, CMD_GET_DEVICES, txId);
    GetReply(old(daemon.State()), txId);
  }

  /** The payload into a buffer of its own, then as much of it as the caller has room for. */
  method FetchRecords(conn: Connection, length: u32, out: array<byte>, maxCount: u32)
    returns (fetched: bool, count: nat)
    requires 0 < length && maxCount * RECORD_SIZE <= out.Length
    modifies conn`incoming, conn`readScript, out
    ensures var limit := maxCount * RECORD_SIZE % U32_BOUND;
            var target := if fetched then Min(length, limit) else 0;
            && target <= out.Length && out[target..] == old(out[target..])
            && (fetched ==> length <= |old(conn.incoming)| && out[..target] == old(conn.incoming)[..target])
            && count == target / RECORD_SIZE
    ensures Smooth(old(conn.readScript)) && length <= |old(conn.incoming)| ==> fetched
  {
    var limit := maxCount * RECORD_SIZE % U32_BOUND;
    var target := Min(length, limit);
    var temp := new byte[length];
    var total := ReadPayload(conn, temp);
    if total != length {
      return false, 0;
    }
    forall i | 0 <= i < target {
      out[i] := temp[i];
    }
    assert out[..target] == temp[..target] == temp[..][..target];
    return true, target / RECORD_SIZE;
  }

  lemma GetReply(was: Scanner, txId: u32)
    ensures var records, reply := was.discovered, Reply(was, Request(CMD_GET_DEVICES, txId));
            var header := DecodeBtHeader(reply[..BT_HEADER_SIZE]);
            && header.status == 0 && header.payloadLen == ReplyLength(records)
            && reply[BT_HEADER_SIZE..] == Flatten(records)[..ReplyLength(records)]
  {
    var header := DevicesHeader(Request(CMD_GET_DEVICES, txId), was.discovered);
    BtHeaderRoundTrip(header);
    var reply := Reply(was, Request(CMD_GET_DEVICES, txId));
    assert reply[..BT_HEADER_SIZE] == EncodeBtHeader(header);
  }

  /** A prefix of the vector's memory that ends on a record boundary holds whole records. */
  lemma PrefixHoldsRecords(records: seq<BleRecord>, count: nat, out: seq<byte>)
    requires count <= |records| && count * RECORD_SIZE <= |out|
    requires out[..count * RECORD_SIZE] == Flatten(records)[..count * RECORD_SIZE]
    ensures forall i :: 0 <= i < count ==> out[i * RECORD_SIZE..(i + 1) * RECORD_SIZE] == records[i]
  {
    forall i | 0 <= i < count
      ensures out[i * RECORD_SIZE..(i + 1) * RECORD_SIZE] == records[i]
    {
      FlattenAt(records, i);
      SlicesAgree(out, Flatten(records), count * RECORD_SIZE, i * RECORD_SIZE, (i + 1) * RECORD_SIZE);
    }
  }

  lemma UncutList(records: seq<BleRecord>, capacity: nat)
    requires InRange(records, capacity)
    ensures Flatten(records)[..ReplyLength(records)] == Flatten(records) && capacity * RECORD_SIZE % U32_BOUND == capacity * RECORD_SIZE
  {
  }

  lemma NothingFetched(records: seq<BleRecord>, capacity: nat, out: seq<byte>)
    requires InRange(records, capacity) && |Flatten(records)[..ReplyLength(records)]| == 0
    ensures FirstRecords(records, capacity, out, 0)
  {
  }

  lemma FetchedAll(records: seq<BleRecord>, capacity: nat, bytes: seq<byte>, out: seq<byte>, count: nat)
    requires InRange(records, capacity) && bytes == Flatten(records)
    requires var target := Min(|bytes|, capacity * RECORD_SIZE);
             target <= |out| && out[..target] == bytes[..target] && count == target / RECORD_SIZE
    ensures FirstRecords(records, capacity, out, count)
    ensures count * RECORD_SIZE == Min(|bytes|, capacity * RECORD_SIZE)
  {
    ShorterOfTwo(|records|, capacity);
    PrefixHoldsRecords(records, count, out);
  }

  lemma SlicesAgree(a: seq<byte>, b: seq<byte>, n: nat, lo: nat, hi: nat)
    requires lo <= hi <= n <= |a| && n <= |b| && a[..n] == b[..n]
    ensures a[lo..hi] == b[lo..hi]
  {
    assert a[lo..hi] == a[..n][lo..hi];
    assert b[lo..hi] == b[..n][lo..hi];
  }

  lemma ShorterOfTwo(records: nat, capacity: nat)
    ensures Min(records * RECORD_SIZE, capacity * RECORD_SIZE) == Min(records, capacity) * RECORD_SIZE
  {
  }
}
