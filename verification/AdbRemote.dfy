/** The remote end of an ADB connection as the list of packets it sends. */
module AdbRemote {
  import opened Wire
  import opened Sockets
  import opened AdbCodec

  predicate Fits(ps: seq<Packet>, room: u32)
  {
    forall p :: p in ps ==> |p.data| <= room
  }

  predicate Encodable(ps: seq<Packet>)
  {
    Fits(ps, U32_BOUND - 1)
  }

  /** The packets as bytes. */
  function Stream(ps: seq<Packet>): seq<byte>
    requires Encodable(ps)
  {
    if ps == [] then [] else EncodePacket(ps[0]) + Stream(ps[1..])
  }

  lemma {:induction false} StreamSnoc(ps: seq<Packet>, p: Packet)
    requires Encodable(ps + [p])
    ensures Encodable(ps) && Stream(ps + [p]) == Stream(ps) + EncodePacket(p)
  {
    forall q | q in ps ensures q in ps + [p] {
    }
    if ps == [] {
      assert [p] == ps + [p];
    } else {
      assert (ps + [p])[1..] == ps[1..] + [p];
      StreamSnoc(ps[1..], p);
    }
  }

  /** Every packet is read whole: headers in one piece, payloads in any. */
  predicate Delivered(script: seq<Outcome>, ps: seq<Packet>)
    decreases |ps|
  {
    ps == [] ||
    (PacketArrives(script, |ps[0].data|) && Delivered(AfterPayload(Later(script), |ps[0].data|), ps[1..]))
  }

  /** The remote sends `ps`, which fit the reader's buffer, and then `rest`; writes do not fail. */
  ghost predicate Hears(conn: Connection, ps: seq<Packet>, rest: seq<byte>, room: u32)
    reads conn
  {
    && conn.writeScript == [] && Fits(ps, room) && Encodable(ps)
    && conn.incoming == Stream(ps) + rest
    && Delivered(conn.readScript, ps)
  }

  lemma StreamFirst(ps: seq<Packet>, rest: seq<byte>)
    requires Encodable(ps) && ps != []
    ensures Encodable(ps[1..])
    ensures Stream(ps) + rest == EncodePacket(ps[0]) + (Stream(ps[1..]) + rest)
  {
    hide EncodePacket;
  }

  lemma DeliveredFirst(script: seq<Outcome>, ps: seq<Packet>)
    requires Delivered(script, ps) && ps != []
    ensures PacketArrives(script, |ps[0].data|)
    ensures Delivered(AfterPayload(Later(script), |ps[0].data|), ps[1..])
  {
    hide PacketArrives, AfterPayload;
  }

  lemma NextReady(ps: seq<Packet>, rest: seq<byte>, script: seq<Outcome>, room: u32)
    requires Fits(ps, room) && Encodable(ps) && ps != [] && Delivered(script, ps)
    ensures Encodable(ps[1..]) && Fits(ps[1..], room)
    ensures Parse(Stream(ps) + rest, room) == Got(ps[0], Stream(ps[1..]) + rest)
    ensures PacketArrives(script, |ps[0].data|)
    ensures Delivered(AfterPayload(Later(script), |ps[0].data|), ps[1..])
  {
    hide Stream, EncodePacket, Parse, Delivered, PacketArrives, AfterPayload;
    StreamFirst(ps, rest);
    DeliveredFirst(script, ps);
    PacketRoundTrip(ps[0], Stream(ps[1..]) + rest, room);
  }

  /** adb_read_packet, when it is known what the remote says. */
  method ReadHeard(conn: Connection, payload: array<byte>, room: u32, ghost ps: seq<Packet>, ghost rest: seq<byte>)
    returns (rc: int, header: AdbHeader)
    requires room <= payload.Length
    modifies conn`incoming, conn`readScript, payload
    ensures rc == 0 || rc == -1
    ensures |conn.incoming| <= |old(conn.incoming)|
    ensures rc == 0 ==> |conn.incoming| < |old(conn.incoming)| && header.dataLength <= room
    ensures old(Hears(conn, ps, rest, room)) && ps != [] ==>
              && rc == 0 && Hears(conn, ps[1..], rest, room)
              && header == HeaderFor(ps[0], header)
              && payload[..] == ps[0].data + old(payload[..])[|ps[0].data|..]
  {
    hide EncodePacket;
    if Hears(conn, ps, rest, room) && ps != [] {
      NextReady(ps, rest, conn.readScript, room);
    }
    hide Stream, Parse, PacketArrives, AfterPayload, Delivered, EncodePacket;
    rc, header := ReadPacket(conn, payload, room);
    if rc == 0 {
      assert payload[..] == payload[..header.dataLength] + payload[header.dataLength..];
    }
  }

  /** The fields a reader acts on are the packet's. */
  function HeaderFor(p: Packet, h: AdbHeader): AdbHeader
    requires |p.data| < U32_BOUND
  {
    h.(command := p.command, arg0 := p.arg0, arg1 := p.arg1, dataLength := |p.data|)
  }
}
