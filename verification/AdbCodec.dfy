/** ADB packets: a 24-byte little-endian header whose last word is the complement of the
    first, then a payload guarded by the sum of its bytes.
 */
module AdbCodec {
  import opened Wire
  import opened Sockets
  import BitFlips

  const A_CNXN: u32 := 0x4e584e43
  const A_OPEN: u32 := 0x4e45504f
  const A_OKAY: u32 := 0x59414b4f
  const A_CLSE: u32 := 0x45534c43
  const A_WRTE: u32 := 0x45545257
  const A_AUTH: u32 := 0x48545541

  const AUTH_TOKEN: u32 := 1
  const AUTH_SIGNATURE: u32 := 2
  const AUTH_RSAPUBLICKEY: u32 := 3

  const ADB_VERSION: u32 := 0x01000000
  const ADB_MAX_PACKET: u32 := 1048576
  const ADB_HEADER_SIZE: nat := 24

  datatype AdbHeader = AdbHeader(command: u32, arg0: u32, arg1: u32, dataLength: u32, dataCheck: u32, magic: u32)

  datatype Packet = Packet(command: u32, arg0: u32, arg1: u32, data: seq<byte>)

  /** command ^ 0xFFFFFFFF. */
  function Complement(x: u32): u32
  {
    0xFFFF_FFFF - x
  }

  lemma ComplementIsXor(v: bv32)
    ensures Complement(v as int) == (v ^ 0xFFFF_FFFF) as int
  {
    BitFlips.FlippedVector(v);
  }

  /** Starting from the number: `Low32` is `x as bv32`, `Flip32` the exclusive or, and
      `Value32` the way back. */
  lemma ComplementIsXorOf(x: u32)
    ensures Complement(x) == BitFlips.Value32(BitFlips.Flip32(BitFlips.Low32(x)))
  {
    hide BitFlips.Value32, BitFlips.Flip32, BitFlips.Low32;
    BitFlips.FlippedNumber(x);
  }

  /** The characters of a C string, without the NUL. */
  function Ascii(text: string): (s: seq<byte>)
    requires forall i :: 0 <= i < |text| ==> text[i] < 128 as char
    ensures |s| == |text|
  {
    seq(|text|, i requires 0 <= i < |text| => text[i] as int)
  }

  lemma Spells(text: string, command: u32)
    requires |text| == 4 && forall i :: 0 <= i < 4 ==> text[i] < 128 as char
    requires command == text[0] as int + 256 * text[1] as int + 65536 * text[2] as int + 16777216 * text[3] as int
    ensures U32(command) == Ascii(text)
  {
    FourBytesValue(Ascii(text));
    WordsFaithful(Ascii(text));
  }

  /** On the wire each command spells its name. */
  lemma CommandsSpell()
    ensures U32(A_CNXN) == Ascii("CNXN") && U32(A_OPEN) == Ascii("OPEN") && U32(A_OKAY) == Ascii("OKAY")
    ensures U32(A_CLSE) == Ascii("CLSE") && U32(A_WRTE) == Ascii("WRTE") && U32(A_AUTH) == Ascii("AUTH")
  {
    hide U32, Ascii;
    Spells("CNXN", A_CNXN);
    Spells("OPEN", A_OPEN);
    Spells("OKAY", A_OKAY);
    Spells("CLSE", A_CLSE);
    Spells("WRTE", A_WRTE);
    Spells("AUTH", A_AUTH);
  }

  // ---- Checksum ----

  function ByteSum(data: seq<byte>): nat
  {
    if data == [] then 0 else ByteSum(data[..|data| - 1]) + data[|data| - 1]
  }

  function Checksum(data: seq<byte>): u32
  {
    ByteSum(data) % U32_BOUND
  }

  /** calculate_checksum: a 32-bit accumulator. */
  method CalculateChecksum(data: seq<byte>) returns (sum: u32)
    ensures sum == Checksum(data)
  {
    sum := 0;
    for i := 0 to |data|
      invariant sum == Checksum(data[..i])
    {
      assert data[..i + 1][..i] == data[..i];
      sum := (sum + data[i]) % U32_BOUND;
    }
    assert data[..|data|] == data;
  }

  lemma {:induction false} ByteSumBound(data: seq<byte>)
    ensures ByteSum(data) <= 255 * |data|
  {
    if data != [] {
      ByteSumBound(data[..|data| - 1]);
    }
  }

  /** Up to the protocol's packet limit the sum never wraps. */
  lemma ChecksumExact(data: seq<byte>)
    requires |data| <= ADB_MAX_PACKET
    ensures Checksum(data) == ByteSum(data)
  {
    ByteSumBound(data);
  }

  lemma {:induction false} ByteSumUpdate(data: seq<byte>, i: nat, b: byte)
    requires i < |data|
    ensures ByteSum(data[i := b]) == ByteSum(data) - data[i] + b
  {
    var n := |data| - 1;
    if i == n {
      assert data[i := b][..n] == data[..n];
    } else {
      ByteSumUpdate(data[..n], i, b);
      assert data[i := b][..n] == data[..n][i := b];
    }
  }

  /** Any one wrong byte is noticed, at any length. */
  lemma SubstitutionDetected(data: seq<byte>, i: nat, b: byte)
    requires i < |data| && b != data[i]
    ensures Checksum(data[i := b]) != Checksum(data)
  {
    ByteSumUpdate(data, i, b);
    NearbyResidues(ByteSum(data), ByteSum(data[i := b]));
  }

  lemma NearbyResidues(x: nat, y: nat)
    requires x != y && -256 < x - y < 256
    ensures x % U32_BOUND != y % U32_BOUND
  {
  }

  // ---- Codec ----

  function EncodeAdbHeader(h: AdbHeader): (s: seq<byte>)
    ensures |s| == ADB_HEADER_SIZE
  {
    U32(h.command) + U32(h.arg0) + U32(h.arg1) + U32(h.dataLength) + U32(h.dataCheck) + U32(h.magic)
  }

  function DecodeAdbHeader(s: seq<byte>): AdbHeader
    requires |s| == ADB_HEADER_SIZE
  {
    AdbHeader(GetU32(s[0..4]), GetU32(s[4..8]), GetU32(s[8..12]),
              GetU32(s[12..16]), GetU32(s[16..20]), GetU32(s[20..24]))
  }

  lemma AdbHeaderRoundTrip(h: AdbHeader)
    ensures DecodeAdbHeader(EncodeAdbHeader(h)) == h
  {
    var s := EncodeAdbHeader(h);
    assert s[0..4] == U32(h.command);
    assert s[4..8] == U32(h.arg0);
    assert s[8..12] == U32(h.arg1);
    assert s[12..16] == U32(h.dataLength);
    assert s[16..20] == U32(h.dataCheck);
    assert s[20..24] == U32(h.magic);
  }

  function HeaderOf(p: Packet): AdbHeader
    requires |p.data| < U32_BOUND
  {
    AdbHeader(p.command, p.arg0, p.arg1, |p.data|, Checksum(p.data), Complement(p.command))
  }

  function EncodePacket(p: Packet): (s: seq<byte>)
    requires |p.data| < U32_BOUND
    ensures |s| == ADB_HEADER_SIZE + |p.data|
  {
    EncodeAdbHeader(HeaderOf(p)) + p.data
  }

  datatype Parsed = NoPacket | Got(packet: Packet, rest: seq<byte>)

  /** What a reader with `room` bytes for the payload makes of a stream. The checksum of an
      empty payload is not looked at. */
  function Parse(stream: seq<byte>, room: nat): Parsed
  {
    if |stream| < ADB_HEADER_SIZE then NoPacket
    else
      var h := DecodeAdbHeader(stream[..ADB_HEADER_SIZE]);
      var end := ADB_HEADER_SIZE + h.dataLength;
      if Complement(h.command) != h.magic || h.dataLength > room || |stream| < end then NoPacket
      else
        var data := stream[ADB_HEADER_SIZE..end];
        if data != [] && Checksum(data) != h.dataCheck then NoPacket
        else Got(Packet(h.command, h.arg0, h.arg1, data), stream[end..])
  }

  /** A packet put on the stream comes back unchanged and leaves the rest of it untouched. */
  lemma PacketRoundTrip(p: Packet, rest: seq<byte>, room: nat)
    requires |p.data| <= room && |p.data| < U32_BOUND
    ensures Parse(EncodePacket(p) + rest, room) == Got(p, rest)
  {
    var stream := EncodePacket(p) + rest;
    AdbHeaderRoundTrip(HeaderOf(p));
    assert stream[..ADB_HEADER_SIZE] == EncodeAdbHeader(HeaderOf(p));
    assert stream[ADB_HEADER_SIZE..ADB_HEADER_SIZE + |p.data|] == p.data;
    assert stream[ADB_HEADER_SIZE + |p.data|..] == rest;
  }

  /** And a stream with one payload byte replaced is refused. */
  lemma CorruptPayloadRefused(p: Packet, rest: seq<byte>, room: nat, i: nat, b: byte)
    requires |p.data| <= room && |p.data| < U32_BOUND && i < |p.data| && b != p.data[i]
    ensures Parse((EncodePacket(p) + rest)[ADB_HEADER_SIZE + i := b], room) == NoPacket
  {
    var stream := (EncodePacket(p) + rest)[ADB_HEADER_SIZE + i := b];
    AdbHeaderRoundTrip(HeaderOf(p));
    assert stream[..ADB_HEADER_SIZE] == EncodeAdbHeader(HeaderOf(p));
    assert stream[ADB_HEADER_SIZE..ADB_HEADER_SIZE + |p.data|] == p.data[i := b];
    SubstitutionDetected(p.data, i, b);
  }

  // ---- Byte by byte ----

  /** Six words and the payload; the last word is all ones minus the first. */
  lemma PacketBytes(p: Packet)
    requires |p.data| < U32_BOUND
    ensures EncodePacket(p) == U32(p.command) + U32(p.arg0) + U32(p.arg1) + U32(|p.data|) +
                               U32(ByteSum(p.data) % 4294967296) + U32(0xFFFF_FFFF - p.command) + p.data
    ensures EncodePacket(p)[20..24] == U32(0xFFFF_FFFF - p.command)
  {
    assert EncodeAdbHeader(HeaderOf(p))[20..24] == U32(0xFFFF_FFFF - p.command);
  }

  /** What a reader with `room` bytes for the payload accepts. */
  predicate Genuine(stream: seq<byte>, room: nat)
  {
    && 24 <= |stream|
    && GetU32(stream[20..24]) == 0xFFFF_FFFF - GetU32(stream[0..4])
    && (var length := GetU32(stream[12..16]);
        && length <= room && 24 + length <= |stream|
        && (length > 0 ==> GetU32(stream[16..20]) == ByteSum(stream[24..24 + length]) % 4294967296))
  }

  /** Exactly those streams are parsed, and into those words. */
  lemma ParsesIff(stream: seq<byte>, room: nat)
    ensures Parse(stream, room).Got? <==> Genuine(stream, room)
    ensures Genuine(stream, room) ==>
              var end := 24 + GetU32(stream[12..16]);
              Parse(stream, room) == Got(
                Packet(GetU32(stream[0..4]), GetU32(stream[4..8]), GetU32(stream[8..12]), stream[24..end]),
                stream[end..])
  {
    if |stream| >= 24 {
      var q := stream[..24];
      assert q[0..4] == stream[0..4];
      assert q[4..8] == stream[4..8];
      assert q[8..12] == stream[8..12];
      assert q[12..16] == stream[12..16];
      assert q[16..20] == stream[16..20];
      assert q[20..24] == stream[20..24];
      hide GetU32, ByteSum;
    }
  }

  // ---- Sending and receiving ----

  /** adb_send_packet: one write for the header and one for the payload, neither retried. */
  method SendPacket(conn: Connection, command: u32, arg0: u32, arg1: u32, data: seq<byte>) returns (rc: int)
    requires |data| < U32_BOUND
    modifies conn`outgoing, conn`writeScript
    ensures rc == 0 || rc == -1
    ensures rc == 0 ==> conn.outgoing == old(conn.outgoing) + EncodePacket(Packet(command, arg0, arg1, data))
    ensures old(conn.writeScript) == [] ==> rc == 0 && conn.writeScript == []
    ensures !HeaderArrives(old(conn.writeScript)) ==> rc == -1
  {
    var check := CalculateChecksum(data);
    var header := EncodeAdbHeader(AdbHeader(command, arg0, arg1, |data|, check, Complement(command)));
    ghost var packet := EncodePacket(Packet(command, arg0, arg1, data));
    assert packet == header + data && |header| == ADB_HEADER_SIZE;
    hide EncodeAdbHeader, EncodePacket, Checksum, Complement;
    rc := SendParts(conn, header, data);
    assert old(conn.outgoing) + header + data == old(conn.outgoing) + packet;
  }

  /** Its two writes. */
  method SendParts(conn: Connection, header: seq<byte>, data: seq<byte>) returns (rc: int)
    requires |header| == ADB_HEADER_SIZE
    modifies conn`outgoing, conn`writeScript
    ensures rc == 0 || rc == -1
    ensures rc == 0 ==> conn.outgoing == old(conn.outgoing) + header + data
    ensures old(conn.writeScript) == [] ==> rc == 0 && conn.writeScript == []
    ensures !HeaderArrives(old(conn.writeScript)) ==> rc == -1
  {
    var n, errno := conn.Write(header, 0);
    if n != ADB_HEADER_SIZE {
      return -1;
    }
    assert header[0..n] == header;
    if |data| > 0 {
      n, errno := conn.Write(data, 0);
      if n != |data| {
        return -1;
      }
      assert data[0..n] == data;
    } else {
      assert data == [];
    }
    return 0;
  }

  /** The script after the reads that bring `n` payload bytes. */
  function AfterPayload(script: seq<Outcome>, n: nat): seq<Outcome>
    decreases n
  {
    if n == 0 || script == [] then script
    else AfterPayload(script[1..], n - Quota(script, n))
  }

  /** Those reads are at worst short. */
  predicate PayloadArrives(script: seq<Outcome>, n: nat)
    decreases n
  {
    n == 0 || script == [] || (script[0].Moves? && PayloadArrives(script[1..], n - Quota(script, n)))
  }

  predicate HeaderArrives(script: seq<Outcome>)
  {
    script == [] || (script[0].Moves? && script[0].limit >= ADB_HEADER_SIZE)
  }

  /** A packet of `n` payload bytes is read whole, in whatever pieces the payload comes. */
  predicate PacketArrives(script: seq<Outcome>, n: nat)
  {
    HeaderArrives(script) && PayloadArrives(Later(script), n)
  }

  /** adb_read_packet. A success is always the packet the stream starts with. */
  method ReadPacket(conn: Connection, payload: array<byte>, room: nat) returns (rc: int, header: AdbHeader)
    requires room <= payload.Length
    modifies conn`incoming, conn`readScript, payload
    ensures rc == 0 || rc == -1
    ensures |conn.incoming| <= |old(conn.incoming)|
    ensures rc == 0 ==> |conn.incoming| < |old(conn.incoming)| && header.dataLength <= room
    ensures rc == 0 ==>
              && 24 <= |old(conn.incoming)|
              && GetU32(old(conn.incoming)[20..24]) == 0xFFFF_FFFF - GetU32(old(conn.incoming)[0..4])
    ensures rc == 0 ==>
              var parsed := Parse(old(conn.incoming), room);
              && parsed.Got? && conn.incoming == parsed.rest
              && header.command == parsed.packet.command
              && header.arg0 == parsed.packet.arg0 && header.arg1 == parsed.packet.arg1
              && header.dataLength == |parsed.packet.data|
              && payload[..header.dataLength] == parsed.packet.data
              && payload[header.dataLength..] == old(payload[..])[header.dataLength..]
    ensures Parse(old(conn.incoming), room).Got? &&
            PacketArrives(old(conn.readScript), |Parse(old(conn.incoming), room).packet.data|) ==>
              rc == 0 &&
              conn.readScript == AfterPayload(Later(old(conn.readScript)), |Parse(old(conn.incoming), room).packet.data|)
  {
    ghost var stream := conn.incoming;
    ParsesIff(stream, room);
    rc, header := ReadHeader(conn);
    if rc < 0 {
      return;
    }
    if Complement(header.command) != header.magic {
      return -1, header;
    }
    if header.dataLength > 0 {
      if header.dataLength > room {
        return -1, header;
      }
      rc := ReadPayload(conn, payload, header.dataLength);
      if rc < 0 {
        return;
      }
      assert payload[..header.dataLength] == stream[ADB_HEADER_SIZE..ADB_HEADER_SIZE + header.dataLength];
      var check := CalculateChecksum(payload[..header.dataLength]);
      if check != header.dataCheck {
        return -1, header;
      }
    }
    rc := 0;
  }

  /** One read for the header: anything but all of it is an error. */
  method ReadHeader(conn: Connection) returns (rc: int, header: AdbHeader)
    modifies conn`incoming, conn`readScript
    ensures rc == 0 || rc == -1
    ensures rc == 0 ==> ADB_HEADER_SIZE <= |old(conn.incoming)| &&
                        header == DecodeAdbHeader(old(conn.incoming)[..ADB_HEADER_SIZE]) &&
                        conn.incoming == old(conn.incoming)[ADB_HEADER_SIZE..]
    ensures conn.readScript == Later(old(conn.readScript)) && |conn.incoming| <= |old(conn.incoming)|
    ensures ADB_HEADER_SIZE <= |old(conn.incoming)| && HeaderArrives(old(conn.readScript)) ==> rc == 0
  {
    var buffer := new byte[ADB_HEADER_SIZE];
    var r, _ := conn.Read(buffer, 0, ADB_HEADER_SIZE);
    assert r == ADB_HEADER_SIZE ==> buffer[..] == buffer[0..r];
    header := DecodeAdbHeader(buffer[..]);
    rc := if r == ADB_HEADER_SIZE then 0 else -1;
  }

  lemma PayloadNext(script: seq<Outcome>, n: nat)
    requires n > 0 && PayloadArrives(script, n)
    ensures NextMoves(script)
    ensures PayloadArrives(Later(script), n - Quota(script, n))
    ensures AfterPayload(Later(script), n - Quota(script, n)) == AfterPayload(script, n)
  {
  }

  /** One read of it, which carries on where the last one stopped. */
  method ReadOn(conn: Connection, payload: array<byte>, done: nat, length: nat, ghost stream: seq<byte>) returns (chunk: int)
    requires done < length <= payload.Length && done <= |stream|
    requires conn.incoming == stream[done..] && payload[..done] == stream[..done]
    modifies conn`incoming, conn`readScript, payload
    ensures chunk <= length - done && |conn.incoming| <= |old(conn.incoming)|
    ensures chunk > 0 ==>
              && done + chunk <= |stream| && conn.incoming == stream[done + chunk..]
              && payload[..done + chunk] == stream[..done + chunk]
    ensures chunk >= 0 ==> forall i :: done + chunk <= i < payload.Length ==> payload[i] == old(payload[i])
    ensures conn.readScript == Later(old(conn.readScript))
    ensures NextMoves(old(conn.readScript)) && length <= |stream| ==> chunk == Quota(old(conn.readScript), length - done)
    ensures NextMoves(old(conn.readScript)) && length <= |stream| ==> chunk > 0
  {
    var n, _ := conn.Read(payload, done, length - done);
    chunk := n;
    if n > 0 {
      Grown(stream, done, n, payload[..done], payload[done..done + n], payload[..done + n]);
    }
  }

  /** The payload loop: any read that moves nothing is an error. */
  method ReadPayload(conn: Connection, payload: array<byte>, length: nat) returns (rc: int)
    requires length <= payload.Length
    modifies conn`incoming, conn`readScript, payload
    ensures rc == 0 || rc == -1
    ensures |conn.incoming| <= |old(conn.incoming)|
    ensures rc == 0 ==> length <= |old(conn.incoming)| && conn.incoming == old(conn.incoming)[length..] &&
                        payload[..length] == old(conn.incoming)[..length] &&
                        payload[length..] == old(payload[length..])
    ensures length <= |old(conn.incoming)| && PayloadArrives(old(conn.readScript), length) ==>
              rc == 0 && conn.readScript == AfterPayload(old(conn.readScript), length)
  {
    var done := 0;
    ghost var ready := length <= |conn.incoming| && PayloadArrives(conn.readScript, length);
    ghost var after := AfterPayload(conn.readScript, length);
    hide PayloadArrives, AfterPayload;
    while done < length
      invariant done <= length && done <= |old(conn.incoming)|
      invariant conn.incoming == old(conn.incoming)[done..]
      invariant payload[..done] == old(conn.incoming)[..done]
      invariant forall i :: done <= i < payload.Length ==> payload[i] == old(payload[i])
      invariant ready ==> PayloadArrives(conn.readScript, length - done)
      invariant ready ==> AfterPayload(conn.readScript, length - done) == after
      decreases length - done
    {
      if ready {
        PayloadNext(conn.readScript, length - done);
      }
      var chunk := ReadOn(conn, payload, done, length, old(conn.incoming));
      if chunk <= 0 {
        return -1;
      }
      done := done + chunk;
    }
    NothingLeft(conn.readScript);
    return 0;
  }

  lemma NothingLeft(script: seq<Outcome>)
    ensures AfterPayload(script, 0) == script
  {
  }
}
