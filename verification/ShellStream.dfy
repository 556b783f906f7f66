/** Running a shell command and collecting its output into a bounded buffer. */
module ShellStream {
  import opened Options
  import opened Wire
  import opened Sockets
  import opened AdbCodec
  import opened AdbRemote
  import opened AdbSessions

  const AUTO_STATUS_OK: int := 0
  const AUTO_STATUS_ERROR: int := -1
  const AUTO_STATUS_ADB_DISCONNECTED: int := -2

  const CHUNK: u32 := 2048

  predicate Sendable(ps: seq<Packet>)
  {
    Fits(ps, CHUNK)
  }

  /** What the accumulation loop gets: the bytes it copies before any bound, the packets it
      consumes, the acknowledgements it causes, and whether it saw the close. */
  datatype Collected = Collected(output: seq<byte>, used: nat, acks: nat, closed: bool)

  /** `temp` is the receive buffer and `n` the byte count left over from the read before; a
      stray packet overwrites the one and keeps the other. */
  function Collect(ps: seq<Packet>, localId: u32, temp: seq<byte>, n: nat): (c: Collected)
    requires Sendable(ps) && |temp| == CHUNK && n <= CHUNK
    ensures c.used <= |ps|
  {
    if ps == [] then Collected([], 0, 0, false)
    else
      var p := ps[0];
      var now := p.data + temp[|p.data|..];
      if p.command == A_CLSE then Collected([], 1, 0, true)
      else
        var m := if IsData(p, localId) then |p.data| else n;
        var acks := if IsData(p, localId) then 1 else 0;
        if m == 0 then Collected([], 1, acks, false)
        else
          var c := Collect(ps[1..], localId, now, m);
          Collected(now[..m] + c.output, 1 + c.used, acks + c.acks, c.closed)
  }

  function Concat(ps: seq<Packet>): seq<byte>
  {
    if ps == [] then [] else ps[0].data + Concat(ps[1..])
  }

  predicate CleanData(ps: seq<Packet>, localId: u32)
  {
    forall p :: p in ps ==> IsData(p, localId) && 0 < |p.data| <= CHUNK
  }

  /** A remote that sends non-empty data for this channel and then closes it: all payloads in
      order, one acknowledgement each, everything up to the close consumed and nothing after it. */
  lemma {:induction false} CleanRemote(data: seq<Packet>, close: Packet, later: seq<Packet>,
                                       localId: u32, temp: seq<byte>, n: nat)
    requires CleanData(data, localId) && close.command == A_CLSE && |close.data| <= CHUNK && Sendable(later)
    requires |temp| == CHUNK && n <= CHUNK
    ensures Collect(data + [close] + later, localId, temp, n) == Collected(Concat(data), |data| + 1, |data|, true)
  {
    var ps := data + [close] + later;
    if data == [] {
      assert ps[0] == close;
    } else {
      assert ps[0] == data[0] && ps[1..] == data[1..] + [close] + later;
      var now := data[0].data + temp[|data[0].data|..];
      assert now[..|data[0].data|] == data[0].data;
      CleanRemote(data[1..], close, later, localId, now, |data[0].data|);
    }
  }

  /** One stray packet between the data and the close, here an OKAY, and the last payload is
      collected twice. */
  lemma StrayPacketRepeatsData(p: Packet, stray: Packet, close: Packet, localId: u32, temp: seq<byte>)
    requires CleanData([p], localId) && stray.command == A_OKAY && stray.data == []
    requires close.command == A_CLSE && |close.data| <= CHUNK && |temp| == CHUNK
    ensures Collect([p, stray, close], localId, temp, 0).output == p.data + p.data
  {
    var now := p.data + temp[|p.data|..];
    assert [p, stray, close][1..] == [stray, close];
    assert [stray, close][1..] == [close];
    assert stray.data + now[|stray.data|..] == now;
    assert now[..|p.data|] == p.data;
    assert Collect([close], localId, now, |p.data|) == Collected([], 1, 0, true);
    assert Collect([stray, close], localId, now, |p.data|).output == p.data + [];
  }

  function Acks(n: nat, localId: u32, remoteId: u32): seq<byte>
  {
    if n == 0 then [] else EncodePacket(Packet(A_OKAY, localId, remoteId, [])) + Acks(n - 1, localId, remoteId)
  }

  // ---- Exactly when the output is right ----

  /** The bytes sent to this channel. */
  function Payloads(ps: seq<Packet>, localId: u32): seq<byte>
  {
    if ps == [] then []
    else (if IsData(ps[0], localId) then ps[0].data else []) + Payloads(ps[1..], localId)
  }

  predicate NoStray(ps: seq<Packet>, localId: u32)
  {
    forall p :: p in ps ==> IsData(p, localId)
  }

  predicate NoEmptyData(ps: seq<Packet>, localId: u32)
  {
    forall p :: p in ps && IsData(p, localId) ==> p.data != []
  }

  /** Packets that do not close the channel. */
  predicate Unclosed(ps: seq<Packet>)
  {
    Sendable(ps) && forall p :: p in ps ==> p.command != A_CLSE
  }

  /** The byte count the loop tests after reading `p`. */
  function Counted(p: Packet, localId: u32, n: nat): nat
  {
    if IsData(p, localId) then |p.data| else n
  }

  /** The index of the packet after which the loop finds a count of zero and gives up, if there is one. */
  function Stop(ps: seq<Packet>, localId: u32, n: nat): (k: nat)
    ensures k <= |ps|
  {
    if ps == [] || Counted(ps[0], localId, n) == 0 then 0
    else 1 + Stop(ps[1..], localId, Counted(ps[0], localId, n))
  }

  function DataCount(ps: seq<Packet>, localId: u32): nat
  {
    if ps == [] then 0 else (if IsData(ps[0], localId) then 1 else 0) + DataCount(ps[1..], localId)
  }

  /** Up to the packet that stops it the loop collects at least what was sent to the channel, and more
      for every stray packet.
   */
  lemma {:induction false} CollectsToStop(ps: seq<Packet>, close: Packet, localId: u32, temp: seq<byte>, n: nat)
    requires Unclosed(ps) && close.command == A_CLSE && |close.data| <= CHUNK
    requires |temp| == CHUNK && n <= CHUNK
    ensures var output := Collect(ps + [close], localId, temp, n).output;
            var sent := ps[..Stop(ps, localId, n)];
            && |output| >= |Payloads(sent, localId)|
            && (|output| == |Payloads(sent, localId)| <==> NoStray(sent, localId))
            && (NoStray(sent, localId) ==> output == Payloads(sent, localId))
  {
    var all, k := ps + [close], Stop(ps, localId, n);
    if ps == [] {
      assert all[0] == close;
    } else {
      var p := ps[0];
      var now, m := p.data + temp[|p.data|..], Counted(p, localId, n);
      CollectNext(all, localId, temp, n);
      assert all[0] == p && all[1..] == ps[1..] + [close];
      if m > 0 {
        CollectsToStop(ps[1..], close, localId, now, m);
        PayloadsFirst(ps, k, localId);
        hide Collect, Payloads, NoStray;
        assert IsData(p, localId) ==> now[..m] == p.data;
      }
    }
  }

  lemma PayloadsFirst(ps: seq<Packet>, k: nat, localId: u32)
    requires 0 < k <= |ps|
    ensures Payloads(ps[..k], localId)
         == (if IsData(ps[0], localId) then ps[0].data else []) + Payloads(ps[1..][..k - 1], localId)
    ensures NoStray(ps[..k], localId) <==> IsData(ps[0], localId) && NoStray(ps[1..][..k - 1], localId)
  {
    assert ps[..k][1..] == ps[1..][..k - 1];
    NoStrayFirst(ps[..k], localId);
  }

  /** It reads that packet too, or the close, and acknowledges every data packet it reads once. */
  lemma {:induction false} ReadsToStop(ps: seq<Packet>, close: Packet, localId: u32, temp: seq<byte>, n: nat)
    requires Unclosed(ps) && close.command == A_CLSE && |close.data| <= CHUNK
    requires |temp| == CHUNK && n <= CHUNK
    ensures var k, c := Stop(ps, localId, n), Collect(ps + [close], localId, temp, n);
            && (c.closed <==> k == |ps|) && c.used == k + 1
            && c.acks == DataCount((ps + [close])[..k + 1], localId)
  {
    var all, k := ps + [close], Stop(ps, localId, n);
    CollectNext(all, localId, temp, n);
    DataFirst(all, k + 1, localId);
    if ps == [] {
      assert all[0] == close && all[1..][..0] == [];
    } else {
      assert all[0] == ps[0] && all[1..] == ps[1..] + [close];
      hide Collect, DataCount;
      if Counted(ps[0], localId, n) == 0 {
        assert all[1..][..0] == [];
        NoData(localId);
      } else {
        ReadsToStop(ps[1..], close, localId, ps[0].data + temp[|ps[0].data|..], Counted(ps[0], localId, n));
      }
    }
  }

  lemma NoData(localId: u32)
    ensures DataCount([], localId) == 0
  {
  }

  lemma DataFirst(ps: seq<Packet>, k: nat, localId: u32)
    requires 0 < k <= |ps|
    ensures DataCount(ps[..k], localId) == (if IsData(ps[0], localId) then 1 else 0) + DataCount(ps[1..][..k - 1], localId)
  {
    assert ps[..k][1..] == ps[1..][..k - 1];
  }

  lemma NoStrayFirst(ps: seq<Packet>, localId: u32)
    requires ps != []
    ensures NoStray(ps, localId) <==> IsData(ps[0], localId) && NoStray(ps[1..], localId)
  {
    assert ps == [ps[0]] + ps[1..];
  }

  /** The loop reads on to the close exactly when no data is empty and no other packet comes first. */
  lemma {:induction false} ReadsToCloseIff(ps: seq<Packet>, localId: u32, n: nat)
    ensures Stop(ps, localId, n) == |ps| <==>
              NoEmptyData(ps, localId) && (n > 0 || ps == [] || IsData(ps[0], localId))
  {
    if ps != [] {
      assert ps == [ps[0]] + ps[1..];
      ReadsToCloseIff(ps[1..], localId, Counted(ps[0], localId, n));
    }
  }

  /** For every list of packets before a close: the collected output is what was sent to the channel up
      to the stop exactly when nothing else came before it; the close is seen, and the session usable
      again, exactly when no data is empty and no other packet comes first; so the whole output is
      right, and the close seen, exactly for non-empty data and nothing else.
   */
  lemma OutputExactIff(ps: seq<Packet>, close: Packet, localId: u32, temp: seq<byte>)
    requires Unclosed(ps) && close.command == A_CLSE && |close.data| <= CHUNK && |temp| == CHUNK
    ensures var k, c := Stop(ps, localId, 0), Collect(ps + [close], localId, temp, 0);
            && (c.output == Payloads(ps[..k], localId) <==> NoStray(ps[..k], localId))
            && (c.closed <==> NoEmptyData(ps, localId) && (ps == [] || IsData(ps[0], localId)))
            && (c.closed && c.output == Payloads(ps, localId) <==> CleanData(ps, localId))
  {
    hide Collect, Payloads, Stop;
    CollectsToStop(ps, close, localId, temp, 0);
    ReadsToStop(ps, close, localId, temp, 0);
    ReadsToCloseIff(ps, localId, 0);
    assert ps[..|ps|] == ps;
  }

  /** And when the first packet is a stray one, nothing at all is collected. */
  lemma LeadingStrayCollectsNothing(ps: seq<Packet>, localId: u32, temp: seq<byte>)
    requires Sendable(ps) && ps != [] && |temp| == CHUNK
    requires ps[0].command != A_CLSE && !IsData(ps[0], localId)
    ensures Collect(ps, localId, temp, 0) == Collected([], 1, 0, false)
  {
  }

  // ---- The loop ----

  function Min(a: nat, b: nat): nat
  {
    if a < b then a else b
  }

  /** A shell that is open, with `ps` and then `rest` still to come from the remote. */
  ghost predicate Feeding(session: AdbSession, ps: seq<Packet>, rest: seq<byte>)
    reads session, session.socket
  {
    && session.state == ShellActive && session.socket != null
    && Hears(session.socket, ps, rest, CHUNK)
    && ps != [] && ps[|ps| - 1].command == A_CLSE
  }

  /** One turn of the loop as Collect sees it. */
  lemma CollectNext(ps: seq<Packet>, localId: u32, temp: seq<byte>, n: nat)
    requires Sendable(ps) && ps != [] && |temp| == CHUNK && n <= CHUNK
    ensures var p := ps[0];
            var now := p.data + temp[|p.data|..];
            var m := if IsData(p, localId) then |p.data| else n;
            var acks := if IsData(p, localId) then 1 else 0;
            var c := Collect(ps, localId, temp, n);
            if p.command == A_CLSE then c == Collected([], 1, 0, true)
            else if m == 0 then c == Collected([], 1, acks, false)
            else var d := Collect(ps[1..], localId, now, m);
                 c == Collected(now[..m] + d.output, 1 + d.used, acks + d.acks, d.closed)
  {
  }

  /** The read at the head of the loop. */
  method ReadNext(session: AdbSession, temp: array<byte>, n: nat, ghost ps: seq<Packet>, ghost rest: seq<byte>)
    returns (rc: int, m: nat)
    requires session.Valid() && temp.Length == CHUNK && n <= CHUNK
    modifies session, session.socket, temp
    ensures session.Valid() && session.socket == old(session.socket)
    ensures session.localId == old(session.localId) && session.remoteId == old(session.remoteId)
    ensures m <= CHUNK
    ensures rc == 0 ==> session.socket != null && |session.socket.incoming| < |old(session.socket.incoming)|
    ensures old(Feeding(session, ps, rest)) ==>
              var p := ps[0];
              && rc == (if p.command == A_CLSE then -1 else 0)
              && m == (if IsData(p, session.localId) then |p.data| else n)
              && temp[..] == p.data + old(temp[..])[|p.data|..]
              && Hears(session.socket, ps[1..], rest, CHUNK)
              && session.socket.outgoing ==
                   old(session.socket.outgoing) + Acknowledgement(p, session.localId, session.remoteId)
              && session.state == (if rc == 0 then ShellActive else Connected)
              && (p.command != A_CLSE ==> ps[1..] != [] && Feeding(session, ps[1..], rest))
  {
    hide EncodePacket, Stream, Delivered;
    rc, m := session.ReadShell(temp, CHUNK, n, ps, rest);
  }

  /** The output buffer holds the first bytes of `done`, as many as leave room for the NUL. */
  ghost predicate Holds(out: seq<byte>, before: seq<byte>, done: seq<byte>, total: nat, maxOut: nat)
    requires 0 < maxOut <= |out| == |before|
  {
    && total == Min(|done|, maxOut - 1)
    && out[..total] == done[..total]
    && forall i :: total <= i < |out| ==> out[i] == before[i]
  }

  /** memcpy of as much of the chunk as still fits. */
  method Append(out: array<byte>, maxOut: nat, total: nat, temp: array<byte>, n: nat,
                ghost before: seq<byte>, ghost done: seq<byte>) returns (newTotal: nat)
    requires n <= temp.Length && out != temp && 0 < maxOut <= out.Length == |before|
    requires Holds(out[..], before, done, total, maxOut)
    modifies out
    ensures Holds(out[..], before, done + temp[..n], newTotal, maxOut)
  {
    newTotal := total;
    if total < maxOut - 1 {
      var room := maxOut - 1 - total;
      var copyLen := if n < room then n else room;
      forall i | 0 <= i < copyLen {
        out[total + i] := temp[i];
      }
      newTotal := total + copyLen;
      assert out[..newTotal] == done + temp[..copyLen];
    } else {
      assert (done + temp[..n])[..total] == done[..total];
    }
  }

  /** `c`, the whole collection, is what is done plus what the remaining packets give. */
  ghost predicate Midway(ps: seq<Packet>, localId: u32, c: Collected,
                         done: seq<byte>, used: nat, acks: nat, temp: seq<byte>, n: nat)
  {
    && used <= |ps| && Sendable(ps[used..]) && |temp| == CHUNK && n <= CHUNK
    && var d := Collect(ps[used..], localId, temp, n);
       c == Collected(done + d.output, used + d.used, acks + d.acks, d.closed)
  }

  lemma MidwayNext(ps: seq<Packet>, localId: u32, c: Collected,
                   done: seq<byte>, used: nat, acks: nat, temp: seq<byte>, n: nat)
    requires Midway(ps, localId, c, done, used, acks, temp, n) && used < |ps|
    ensures var p := ps[used];
            var now := p.data + temp[|p.data|..];
            var m := if IsData(p, localId) then |p.data| else n;
            var a := if IsData(p, localId) then 1 else 0;
            if p.command == A_CLSE then c == Collected(done, used + 1, acks, true)
            else if m == 0 then c == Collected(done, used + 1, acks + a, false)
            else Midway(ps, localId, c, done + now[..m], used + 1, acks + a, now, m)
  {
    CollectNext(ps[used..], localId, temp, n);
    assert ps[used..][1..] == ps[used + 1..];
    var p := ps[used];
    var now := p.data + temp[|p.data|..];
    var m := if IsData(p, localId) then |p.data| else n;
    if p.command == A_CLSE || m == 0 {
      assert done + [] == done;
    } else {
      var d := Collect(ps[used + 1..], localId, now, m);
      assert done + (now[..m] + d.output) == done + now[..m] + d.output;
    }
  }

  lemma {:induction false} AcksMore(n: nat, localId: u32, remoteId: u32)
    ensures Acks(n + 1, localId, remoteId) ==
            Acks(n, localId, remoteId) + EncodePacket(Packet(A_OKAY, localId, remoteId, []))
  {
    if n > 0 {
      AcksMore(n - 1, localId, remoteId);
    }
  }

  /** The loop stands before packet `used`: `c`, the whole collection, is `done` and what the rest gives. */
  ghost predicate InLoop(session: AdbSession, ps: seq<Packet>, rest: seq<byte>, c: Collected, done: seq<byte>,
                         used: nat, acks: nat, temp: seq<byte>, n: nat, said: seq<byte>)
    reads session, session.socket
  {
    && used < |ps| && Feeding(session, ps[used..], rest)
    && Midway(ps, session.localId, c, done, used, acks, temp, n)
    && session.socket.outgoing == said + Acks(acks, session.localId, session.remoteId)
  }

  /** The loop has ended with `done` collected. */
  ghost predicate Ended(session: AdbSession, ps: seq<Packet>, rest: seq<byte>, c: Collected, done: seq<byte>, said: seq<byte>)
    reads session, session.socket
  {
    && c.output == done && c.used <= |ps| && session.socket != null
    && session.state == (if c.closed then Connected else ShellActive)
    && Hears(session.socket, ps[c.used..], rest, CHUNK)
    && session.socket.outgoing == said + Acks(c.acks, session.localId, session.remoteId)
  }

  lemma LoopBegins(session: AdbSession, ps: seq<Packet>, rest: seq<byte>, temp: seq<byte>)
    requires Feeding(session, ps, rest) && |temp| == CHUNK
    ensures InLoop(session, ps, rest, Collect(ps, session.localId, temp, 0), [], 0, 0, temp, 0, session.socket.outgoing)
  {
    assert ps[0..] == ps;
    assert session.socket.outgoing + Acks(0, session.localId, session.remoteId) == session.socket.outgoing;
  }

  /** One turn of the loop: the collection either ends here or is one packet further. */
  method Turn(session: AdbSession, temp: array<byte>, n: nat, ghost fed: bool, ghost ps: seq<Packet>,
              ghost rest: seq<byte>, ghost c: Collected, ghost done: seq<byte>, ghost used: nat,
              ghost acks: nat, ghost said: seq<byte>)
    returns (rc: int, m: nat, ghost newAcks: nat)
    requires session.Valid() && temp.Length == CHUNK && n <= CHUNK
    requires fed ==> InLoop(session, ps, rest, c, done, used, acks, temp[..], n, said)
    modifies session, session.socket, temp
    ensures session.Valid() && session.socket == old(session.socket) && m <= CHUNK
    ensures session.localId == old(session.localId) && session.remoteId == old(session.remoteId)
    ensures rc == 0 ==> session.socket != null && |session.socket.incoming| < |old(session.socket.incoming)|
    ensures fed && (rc != 0 || m == 0) ==> Ended(session, ps, rest, c, done, said)
    ensures fed && rc == 0 && m > 0 ==>
              InLoop(session, ps, rest, c, done + temp[..m], used + 1, newAcks, temp[..], m, said)
  {
    hide Collect, Stream, Delivered, EncodePacket, Midway, Acks;
    ghost var was := temp[..];
    newAcks := acks;
    ghost var remaining := if fed then ps[used..] else [];
    ghost var local, remote := session.localId, session.remoteId;
    rc, m := ReadNext(session, temp, n, remaining, rest);
    if fed {
      MidwayNext(ps, local, c, done, used, acks, was, n);
      AcksMore(acks, local, remote);
      newAcks := acks + if IsData(ps[used], local) then 1 else 0;
      assert ps[used..][1..] == ps[used + 1..];
    }
  }

  /** The accumulation loop of execute_adb_shell_cmd. */
  method Accumulate(session: AdbSession, out: array?<byte>, maxOut: nat, temp: array<byte>,
                    ghost ps: seq<Packet>, ghost rest: seq<byte>)
    returns (total: nat, ghost done: seq<byte>)
    requires session.Valid() && (out != null ==> 0 < maxOut <= out.Length)
    requires temp.Length == CHUNK && temp != out
    modifies session, session.socket, out, temp
    ensures session.Valid() && session.socket == old(session.socket)
    ensures session.localId == old(session.localId) && session.remoteId == old(session.remoteId)
    ensures out != null ==> Holds(out[..], old(out[..]), done, total, maxOut)
    ensures old(Feeding(session, ps, rest)) ==>
              Ended(session, ps, rest, Collect(ps, session.localId, old(temp[..]), 0), done, old(session.socket.outgoing))
  {
    var n: nat := 0;
    total, done := 0, [];
    ghost var before := if out == null then [] else out[..];
    ghost var used: nat, acks: nat := 0, 0;
    ghost var fed := Feeding(session, ps, rest);
    ghost var c, said := Collected([], 0, 0, false), [];
    if fed {
      c, said := Collect(ps, session.localId, temp[..], 0), session.socket.outgoing;
      LoopBegins(session, ps, rest, temp[..]);
    }
    HoldsNothing(before, maxOut);
    hide Collect, Feeding, InLoop, Ended, Holds;
    while true
      invariant session.Valid() && session.socket == old(session.socket)
      invariant session.localId == old(session.localId) && session.remoteId == old(session.remoteId) && n <= CHUNK
      invariant out != null ==> out.Length == |before| && Holds(out[..], before, done, total, maxOut)
      invariant fed ==> InLoop(session, ps, rest, c, done, used, acks, temp[..], n, said)
      decreases if session.socket == null then 0 else |session.socket.incoming|
    {
      var rc, m;
      rc, m, acks := Turn(session, temp, n, fed, ps, rest, c, done, used, acks, said);
      used := used + 1;
      if rc != 0 || m == 0 {
        break;
      }
      n := m;
      if out != null {
        total := Append(out, maxOut, total, temp, n, before, done);
      }
      done := done + temp[..n];
    }
  }

  lemma HoldsNothing(before: seq<byte>, maxOut: nat)
    ensures 0 < maxOut <= |before| ==> Holds(before, before, [], 0, maxOut)
  {
  }

  /** The caller's buffer afterwards: output, NUL, the rest as it was. */
  ghost predicate Written(out: seq<byte>, before: seq<byte>, output: seq<byte>, maxOut: nat)
    requires 0 < maxOut <= |before|
  {
    var total := Min(|output|, maxOut - 1);
    out == output[..total] + [0] + before[total + 1..]
  }

  lemma WriteNul(out: seq<byte>, before: seq<byte>, done: seq<byte>, total: nat, maxOut: nat)
    requires 0 < maxOut <= |out| == |before| && Holds(out, before, done, total, maxOut)
    ensures total < |out| && Written(out[total := 0], before, done, maxOut)
  {
  }

  /** A connected session whose remote accepts the OPEN with its k-th packet, then sends the rest of
      `ps`, the last of which closes the channel.
   */
  ghost predicate Scripted(session: AdbSession, ps: seq<Packet>, rest: seq<byte>, k: nat)
    reads session, session.socket
  {
    && session.state == Connected && session.socket != null && Hears(session.socket, ps, rest, CHUNK)
    && k + 1 < |ps| && k == FirstAnswer(ps, session.localId) && Accepts(ps[k], session.localId)
    && ps[|ps| - 1].command == A_CLSE
  }

  /** A connected session whose remote rejects the OPEN. */
  ghost predicate Rejected(session: AdbSession, ps: seq<Packet>, rest: seq<byte>)
    reads session, session.socket
  {
    && session.state == Connected && session.socket != null && Hears(session.socket, ps, rest, CHUNK)
    && FirstAnswer(ps, session.localId) < |ps|
    && !Accepts(ps[FirstAnswer(ps, session.localId)], session.localId)
  }

  /** The loop, and the NUL behind what it collected. */
  method CollectOutput(session: AdbSession, out: array?<byte>, maxOut: nat, temp: array<byte>,
                       ghost ps: seq<Packet>, ghost rest: seq<byte>)
    requires session.Valid() && (out != null ==> 0 < maxOut <= out.Length)
    requires temp.Length == CHUNK && temp != out
    modifies session, session.socket, out, temp
    ensures session.Valid() && session.localId == old(session.localId) && session.socket == old(session.socket)
    ensures old(Feeding(session, ps, rest)) ==>
              var c := Collect(ps, session.localId, old(temp[..]), 0);
              && (out != null ==> Written(out[..], old(out[..]), c.output, maxOut))
              && session.state == (if c.closed then Connected else ShellActive)
              && session.socket != null
              && Hears(session.socket, ps[c.used..], rest, CHUNK)
              && session.socket.outgoing ==
                   old(session.socket.outgoing) + Acks(c.acks, session.localId, old(session.remoteId))
  {
    ghost var before := if out == null then [] else out[..];
    assert Feeding(session, ps, rest) ==> session.socket != null;
    hide Collect, Stream, Acks, Feeding, Holds, Written;
    var total, done := Accumulate(session, out, maxOut, temp, ps, rest);
    if out != null {
      WriteNul(out[..], before, done, total, maxOut);
      out[total] := 0;
    }
  }

  method OpenScripted(session: AdbSession, command: seq<byte>, ghost ps: seq<Packet>, ghost rest: seq<byte>, ghost k: nat)
    returns (rc: int)
    requires session.Valid()
    modifies session, session.socket
    ensures session.Valid() && session.socket == old(session.socket) && session.localId == old(session.localId)
    ensures rc == 0 || rc == -1
    ensures rc == 0 ==> session.state == ShellActive
    ensures old(Rejected(session, ps, rest)) ==> rc == -1 && session.state == Error
    ensures old(Scripted(session, ps, rest, k)) ==>
              && rc == 0 && session.remoteId == ps[k].arg0 && Feeding(session, ps[k + 1..], rest)
              && session.socket.outgoing == old(session.socket.outgoing) +
                   EncodePacket(Opening(session.localId, command))
  {
    hide EncodePacket, Stream, Delivered, Opening;
    rc := session.OpenShell(command, ps, rest);
  }

  /** execute_adb_shell_cmd. `out` is null where the caller wants no output. */
  method ExecuteShell(session: AdbSession, command: seq<byte>, out: array?<byte>, maxOut: nat,
                      ghost ps: seq<Packet>, ghost rest: seq<byte>, ghost k: nat)
    returns (status: int, ghost temp0: seq<byte>)
    requires session.Valid() && (out != null ==> 0 < maxOut <= out.Length)
    modifies session, session.socket, out
    ensures session.Valid() && |temp0| == 2048
    ensures session.socket == old(session.socket) && session.localId == old(session.localId)
    ensures old(session.state) != Connected <==> status == -2
    ensures old(session.state) != Connected ==> unchanged(session) && (out != null ==> out[..] == old(out[..]))
    ensures old(Rejected(session, ps, rest)) ==>
              status == -1 && session.state == Error && (out != null ==> out[..] == old(out[..]))
    ensures old(Scripted(session, ps, rest, k)) ==>
              var c := Collect(ps[k + 1..], session.localId, temp0, 0);
              && status == 0
              && (out != null ==> Written(out[..], old(out[..]), c.output, maxOut))
              && session.state == (if c.closed then Connected else ShellActive)
              && session.socket != null && Hears(session.socket, ps[k + 1..][c.used..], rest, CHUNK)
              && session.socket.outgoing == old(session.socket.outgoing) +
                   EncodePacket(Opening(session.localId, command)) +
                   Acks(c.acks, session.localId, ps[k].arg0)
  {
    var temp := new byte[CHUNK];
    temp0 := temp[..];
    if session.state != Connected {
      return AUTO_STATUS_ADB_DISCONNECTED, temp0;
    }
    status := RunCommand(session, command, out, maxOut, temp, ps, rest, k);
  }

  /** Its part from the OPEN on. */
  method RunCommand(session: AdbSession, command: seq<byte>, out: array?<byte>, maxOut: nat, temp: array<byte>,
                    ghost ps: seq<Packet>, ghost rest: seq<byte>, ghost k: nat)
    returns (status: int)
    requires session.Valid() && (out != null ==> 0 < maxOut <= out.Length)
    requires temp.Length == CHUNK && temp != out
    modifies session, session.socket, out, temp
    ensures session.Valid() && session.localId == old(session.localId) && session.socket == old(session.socket)
    ensures status == 0 || status == -1
    ensures old(Rejected(session, ps, rest)) ==>
              status == -1 && session.state == Error && (out != null ==> out[..] == old(out[..]))
    ensures old(Scripted(session, ps, rest, k)) ==>
              var c := Collect(ps[k + 1..], session.localId, old(temp[..]), 0);
              && status == 0
              && (out != null ==> Written(out[..], old(out[..]), c.output, maxOut))
              && session.state == (if c.closed then Connected else ShellActive)
              && session.socket != null && Hears(session.socket, ps[k + 1..][c.used..], rest, CHUNK)
              && session.socket.outgoing == old(session.socket.outgoing) +
                   EncodePacket(Opening(session.localId, command)) +
                   Acks(c.acks, session.localId, ps[k].arg0)
  {
    assert Scripted(session, ps, rest, k) ==> k < |ps| && Sendable(ps[k + 1..]);
    hide Collect, Stream, EncodePacket, Acks, Opening, Feeding, Scripted, Rejected, Written, Hears, FirstAnswer;
    var rc := OpenScripted(session, command, ps, rest, k);
    if rc < 0 {
      return AUTO_STATUS_ERROR;
    }
    ghost var coming := if k < |ps| then ps[k + 1..] else [];
    CollectOutput(session, out, maxOut, temp, coming, rest);
    status := AUTO_STATUS_OK;
  }
}
