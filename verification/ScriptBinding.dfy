/** The script binding's execute, and the session under every sequence of calls. */
module ScriptBinding {
  import opened Options
  import opened Wire
  import opened Sockets
  import opened AdbCodec
  import opened AdbRemote
  import opened AdbSessions
  import ShellStream

  const BUFFER: nat := 4096
  const ROOM: u32 := 4095

  /** What execute gathers from the remote's packets, and how many it acknowledges. */
  datatype Transcript = Transcript(output: seq<byte>, acks: nat)

  /** `buffer` is the receive buffer and `n` the byte count left over from the read before. Unlike
      the native loop, this one reads past empty data and ends only at the close.
   */
  function Gather(ps: seq<Packet>, localId: u32, buffer: seq<byte>, n: nat): Transcript
    requires Fits(ps, ROOM) && |buffer| == BUFFER && n <= ROOM
  {
    if ps == [] || ps[0].command == A_CLSE then
      Transcript([], 0)
    else
      var p := ps[0];
      var now := p.data + buffer[|p.data|..];
      var m := if IsData(p, localId) then |p.data| else n;
      var later := Gather(ps[1..], localId, now[m := 0], m);
      Transcript(now[..m] + later.output, (if IsData(p, localId) then 1 else 0) + later.acks)
  }

  /** Other packets come only while the data packet before them, if any, was empty. */
  predicate StraysHarmless(ps: seq<Packet>, localId: u32, n: nat)
  {
    ps == [] ||
    if IsData(ps[0], localId) then StraysHarmless(ps[1..], localId, |ps[0].data|)
    else n == 0 && StraysHarmless(ps[1..], localId, n)
  }

  predicate Open(ps: seq<Packet>)
  {
    Fits(ps, ROOM) && forall p :: p in ps ==> p.command != A_CLSE
  }

  /** The gathered output is never shorter than what was sent to the channel, and is exactly that when,
      and only when, no other packet follows non-empty data.
   */
  lemma {:induction false} OutputExactIff(ps: seq<Packet>, close: Packet, localId: u32, buffer: seq<byte>, n: nat)
    requires Open(ps) && close.command == A_CLSE && |close.data| <= ROOM
    requires |buffer| == BUFFER && n <= ROOM
    ensures var output := Gather(ps + [close], localId, buffer, n).output;
            && |output| >= |ShellStream.Payloads(ps, localId)|
            && (|output| == |ShellStream.Payloads(ps, localId)| <==> StraysHarmless(ps, localId, n))
            && (output == ShellStream.Payloads(ps, localId) <==> StraysHarmless(ps, localId, n))
  {
    var all := ps + [close];
    if ps == [] {
      assert all[0] == close;
    } else {
      assert all[0] == ps[0] && all[1..] == ps[1..] + [close];
      var p := ps[0];
      var now := p.data + buffer[|p.data|..];
      var m := if IsData(p, localId) then |p.data| else n;
      OutputExactIff(ps[1..], close, localId, now[m := 0], m);
      assert IsData(p, localId) ==> now[..m] == p.data;
    }
  }

  /** An open shell on which the remote still says `ps`, closing the channel at the latest with the last. */
  ghost predicate Speaking(session: AdbSession, ps: seq<Packet>, rest: seq<byte>)
    reads session, session.socket
  {
    && session.state == ShellActive && session.socket != null
    && Hears(session.socket, ps, rest, ROOM)
    && ps != [] && ps[|ps| - 1].command == A_CLSE
  }

  /** A connected session whose remote accepts the OPEN with its k-th packet and then speaks. */
  ghost predicate Scripted(session: AdbSession, ps: seq<Packet>, rest: seq<byte>, k: nat)
    reads session, session.socket
  {
    && session.state == Connected && session.socket != null && Hears(session.socket, ps, rest, ROOM)
    && k + 1 < |ps| && k == FirstAnswer(ps, session.localId) && Accepts(ps[k], session.localId)
    && ps[|ps| - 1].command == A_CLSE
  }

  /** What is gathered so far, followed by what the remaining packets give. */
  function After(output: seq<byte>, acks: nat, later: Transcript): Transcript
  {
    Transcript(output + later.output, acks + later.acks)
  }

  lemma GatherNext(ps: seq<Packet>, localId: u32, buffer: seq<byte>, n: nat, output: seq<byte>, acks: nat, whole: Transcript)
    requires Fits(ps, ROOM) && ps != [] && |buffer| == BUFFER && n <= ROOM
    requires whole == After(output, acks, Gather(ps, localId, buffer, n))
    ensures var p := ps[0];
            var now := p.data + buffer[|p.data|..];
            var m := if IsData(p, localId) then |p.data| else n;
            if p.command == A_CLSE then whole == Transcript(output, acks)
            else whole == After(output + now[..m], acks + (if IsData(p, localId) then 1 else 0),
                                Gather(ps[1..], localId, now[m := 0], m))
  {
    var p := ps[0];
    if p.command == A_CLSE {
      assert output + [] == output;
    } else {
      var now := p.data + buffer[|p.data|..];
      var m := if IsData(p, localId) then |p.data| else n;
      var later := Gather(ps[1..], localId, now[m := 0], m);
      assert output + (now[..m] + later.output) == output + now[..m] + later.output;
    }
  }

  /** The loop stands before `ps`, with n bytes left over from the read before. */
  ghost predicate Gathering(session: AdbSession, buffer: seq<byte>, n: nat, output: seq<byte>, ps: seq<Packet>,
                            rest: seq<byte>, whole: Transcript, acks: nat, said: seq<byte>)
    reads session, session.socket
  {
    && Speaking(session, ps, rest) && |buffer| == BUFFER && n <= ROOM
    && whole == After(output, acks, Gather(ps, session.localId, buffer, n))
    && session.socket.outgoing == said + ShellStream.Acks(acks, session.localId, session.remoteId)
  }

  /** The loop has ended. */
  ghost predicate Gathered(session: AdbSession, output: seq<byte>, whole: Transcript, said: seq<byte>)
    reads session, session.socket
  {
    && session.socket != null && session.socket.writeScript == [] && whole.output == output
    && session.socket.outgoing == said + ShellStream.Acks(whole.acks, session.localId, session.remoteId)
  }

  /** One turn of the loop: a read, and what it brought appended. */
  method GatherOne(session: AdbSession, buffer: array<byte>, n: nat, output: seq<byte>, ghost fed: bool,
                   ghost ps: seq<Packet>, ghost rest: seq<byte>, ghost acks: nat, ghost whole: Transcript, ghost said: seq<byte>)
    returns (rc: int, m: nat, nowOutput: seq<byte>, ghost nowAcks: nat)
    requires session.Valid() && session.channel.Some? && session.greeted && session.socket != null
    requires buffer.Length == BUFFER && n <= ROOM
    requires fed ==> Gathering(session, buffer[..], n, output, ps, rest, whole, acks, said)
    modifies session, session.socket, buffer
    ensures session.Valid() && session.socket == old(session.socket) && session.localId == old(session.localId)
    ensures session.remoteId == old(session.remoteId) && session.channel == old(session.channel) && session.greeted
    ensures old(session.log) <= session.log
    ensures m <= ROOM
    ensures rc == 0 ==> |session.socket.incoming| < |old(session.socket.incoming)|
    ensures fed && rc != 0 ==> Gathered(session, nowOutput, whole, said)
    ensures fed && rc == 0 ==> ps != [] && Gathering(session, buffer[..], m, nowOutput, ps[1..], rest, whole, nowAcks, said)
  {
    hide Gather, Stream, Delivered, EncodePacket, ShellStream.Acks;
    ghost var was := buffer[..];
    ghost var local, remote := session.localId, session.remoteId;
    if fed {
      GatherNext(ps, local, was, n, output, acks, whole);
      ShellStream.AcksMore(acks, local, remote);
    }
    nowOutput, nowAcks := output, acks;
    rc, m := session.ReadShell(buffer, ROOM, n, ps, rest);
    if rc == 0 {
      ghost var now := buffer[..];
      nowOutput := output + buffer[..m];
      buffer[m] := 0;
      assert buffer[..] == now[m := 0];
      nowAcks := acks + if fed && IsData(ps[0], local) then 1 else 0;
    }
  }

  lemma StartGathering(session: AdbSession, buffer: seq<byte>, ps: seq<Packet>, rest: seq<byte>)
    requires |buffer| == BUFFER && Speaking(session, ps, rest)
    ensures Gathering(session, buffer, 0, [], ps, rest, Gather(ps, session.localId, buffer, 0), 0, session.socket.outgoing)
  {
    var t := Gather(ps, session.localId, buffer, 0);
    assert [] + t.output == t.output;
  }

  /** The loop. */
  method GatherOutput(session: AdbSession, buffer: array<byte>, ghost ps: seq<Packet>, ghost rest: seq<byte>)
    returns (output: seq<byte>)
    requires session.Valid() && session.channel.Some? && session.greeted && session.socket != null
    requires buffer.Length == BUFFER
    modifies session, session.socket, buffer
    ensures session.Valid() && session.socket == old(session.socket) && session.localId == old(session.localId)
    ensures session.remoteId == old(session.remoteId) && session.channel == old(session.channel) && session.greeted
    ensures old(session.log) <= session.log
    ensures old(Speaking(session, ps, rest)) ==>
              Gathered(session, output, Gather(ps, session.localId, old(buffer[..]), 0), old(session.socket.outgoing))
  {
    output := [];
    var n: nat := 0;
    ghost var fed := Speaking(session, ps, rest);
    ghost var whole := if fed then Gather(ps, session.localId, buffer[..], 0) else Transcript([], 0);
    ghost var said, acks: nat, coming := session.socket.outgoing, 0, ps;
    if fed {
      StartGathering(session, buffer[..], ps, rest);
    }
    hide Gather, Speaking, Gathering, Gathered;
    var rc := 0;
    while rc == 0
      invariant session.Valid() && session.socket == old(session.socket) && session.localId == old(session.localId)
      invariant session.remoteId == old(session.remoteId) && session.channel == old(session.channel) && session.greeted
      invariant old(session.log) <= session.log && n <= ROOM
      invariant fed && rc == 0 ==> Gathering(session, buffer[..], n, output, coming, rest, whole, acks, said)
      invariant fed && rc != 0 ==> Gathered(session, output, whole, said)
      decreases rc == 0, |session.socket.incoming|
    {
      rc, n, output, acks := GatherOne(session, buffer, n, output, fed, coming, rest, acks, whole, said);
      coming := if coming == [] then [] else coming[1..];
    }
  }

  /** Where a session stands whose OPEN did not succeed. */
  predicate Refused(before: SessionState, after: SessionState)
  {
    if before == Connected then after == ShellOpening || after == Error else after == before
  }

  /** js_adb_session_execute: whatever ended the reading, the channel is closed from this side and the
      session falls back to Connected.
   */
  method ExecuteFromScript(session: AdbSession, command: seq<byte>, ghost ps: seq<Packet>, ghost rest: seq<byte>, ghost k: nat)
    returns (ok: bool, output: seq<byte>, ghost buffer0: seq<byte>)
    requires session.Valid()
    modifies session, session.socket
    ensures session.Valid() && session.socket == old(session.socket) && session.localId == old(session.localId)
    ensures old(session.log) <= session.log
    ensures ok ==> session.state == Connected && session.channel.Some? && old(session.state) == Connected
    ensures !ok ==> Refused(old(session.state), session.state)
    ensures |buffer0| == 4096
    ensures old(Scripted(session, ps, rest, k)) ==>
              var t := Gather(ps[k + 1..], session.localId, buffer0, 0);
              && ok && output == t.output
              && session.socket != null && session.socket.outgoing == old(session.socket.outgoing) +
                   EncodePacket(Opening(session.localId, command)) +
                   ShellStream.Acks(t.acks, session.localId, ps[k].arg0) +
                   EncodePacket(Packet(A_CLSE, session.localId, ps[k].arg0, []))
  {
    assert Scripted(session, ps, rest, k) ==> k < |ps| && Fits(ps[k + 1..], ROOM);
    hide *;
    var buffer := new byte[BUFFER];
    buffer0 := buffer[..];
    var rc := OpenScripted(session, command, ps, rest, k);
    if rc < 0 {
      return false, [], buffer0;
    }
    output := GatherAndClose(session, buffer, if k < |ps| then ps[k + 1..] else [], rest);
    ok := true;
  }

  /** Its part from the accepted OPEN on. */
  method GatherAndClose(session: AdbSession, buffer: array<byte>, ghost ps: seq<Packet>, ghost rest: seq<byte>)
    returns (output: seq<byte>)
    requires session.Valid() && session.channel.Some? && session.greeted && session.socket != null
    requires buffer.Length == BUFFER
    modifies session, session.socket, buffer
    ensures session.Valid() && session.socket == old(session.socket) && session.localId == old(session.localId)
    ensures session.state == Connected && session.channel == old(session.channel)
    ensures old(session.log) <= session.log
    ensures old(Speaking(session, ps, rest)) ==>
              var t := Gather(ps, session.localId, old(buffer[..]), 0);
              && output == t.output
              && session.socket.outgoing == old(session.socket.outgoing) +
                   ShellStream.Acks(t.acks, session.localId, old(session.remoteId)) +
                   EncodePacket(Packet(A_CLSE, session.localId, old(session.remoteId), []))
  {
    hide Speaking, Gather, EncodePacket, ShellStream.Acks, OnChannel;
    output := GatherOutput(session, buffer, ps, rest);
    CloseChannel(session);
  }

  method CloseChannel(session: AdbSession)
    requires session.Valid() && session.channel.Some? && session.greeted && session.socket != null
    modifies session, session.socket
    ensures session.Valid() && session.socket == old(session.socket) && session.localId == old(session.localId)
    ensures session.state == Connected && session.channel == old(session.channel)
    ensures old(session.log) <= session.log
    ensures old(session.socket.writeScript) == [] ==>
              session.socket.outgoing == old(session.socket.outgoing) +
                EncodePacket(Packet(A_CLSE, session.localId, old(session.remoteId), []))
  {
    hide OnChannel, EncodePacket;
    var _ := session.Send(A_CLSE, session.localId, session.remoteId, []);
    session.state := Connected;
  }

  method OpenScripted(session: AdbSession, command: seq<byte>, ghost ps: seq<Packet>, ghost rest: seq<byte>, ghost k: nat)
    returns (rc: int)
    requires session.Valid()
    modifies session, session.socket
    ensures session.Valid() && session.socket == old(session.socket) && session.localId == old(session.localId)
    ensures old(session.log) <= session.log
    ensures rc == 0 || rc == -1
    ensures rc == 0 ==> session.state == ShellActive && session.channel.Some? && session.greeted && session.socket != null
    ensures rc == 0 ==> old(session.state) == Connected
    ensures rc != 0 ==> Refused(old(session.state), session.state)
    ensures old(Scripted(session, ps, rest, k)) ==>
              && rc == 0 && session.remoteId == ps[k].arg0 && Speaking(session, ps[k + 1..], rest)
              && session.socket.outgoing == old(session.socket.outgoing) +
                   EncodePacket(Opening(session.localId, command))
  {
    hide EncodePacket, Stream, Delivered, Opening, OnChannel;
    rc := session.OpenShell(command, ps, rest);
  }

  /** One call a client can make. */
  datatype Call =
    | CallConnect(attempt: Option<Connection>)
    | CallHandshake(keys: Keys)
    | CallOpen(command: seq<byte>)
    | CallWrite(data: seq<byte>)
    | CallRead(maxLen: u32)
    | CallExecute(command: seq<byte>)
    | CallClose

  ghost predicate Callable(call: Call, sockets: set<Connection>)
  {
    match call
    case CallConnect(attempt) => attempt.Some? ==> attempt.value in sockets
    case CallHandshake(keys) => keys.Fit()
    case CallWrite(data) => |data| < U32_BOUND
    case _ => true
  }

  /** The states a call can lead to, and what it returns. */
  ghost predicate Moves(before: SessionState, call: Call, rc: int, after: SessionState)
  {
    match call
    case CallConnect(attempt) => if attempt.Some? then rc == 0 && after == Connecting else rc == -1 && after == Error
    case CallHandshake(_) =>
      if rc == 0 then after == Connected
      else rc == -1 && (after == before || after == TokenReceived || after == Error)
    case CallOpen(_) =>
      if rc == 0 then before == Connected && after == ShellActive else rc == -1 && Refused(before, after)
    case CallWrite(_) => after == before && (rc == -1 || (rc == 0 && before == ShellActive))
    case CallRead(_) =>
      if rc == 0 then before == ShellActive && after == ShellActive
      else rc == -1 && (after == before || (before == ShellActive && after == Connected))
    case CallExecute(_) =>
      if rc == 0 then before == Connected && after == Connected else rc == -1 && Refused(before, after)
    case CallClose => rc == 0 && after == Disconnected
  }

  /** Each call moves the session as it may. */
  ghost predicate AllMove(states: seq<SessionState>, calls: seq<Call>, rcs: seq<int>)
  {
    && |states| == |calls| + 1 && |rcs| == |calls|
    && forall i :: 0 <= i < |calls| ==> Moves(states[i], calls[i], rcs[i], states[i + 1])
  }

  lemma OneMoreMove(states: seq<SessionState>, calls: seq<Call>, rcs: seq<int>, i: nat, rc: int, after: SessionState)
    requires i < |calls| && AllMove(states, calls[..i], rcs) && Moves(states[i], calls[i], rc, after)
    ensures AllMove(states + [after], calls[..i + 1], rcs + [rc])
  {
    hide Moves;
  }

  /** One of them. */
  method DriveOne(session: AdbSession, call: Call, ghost sockets: set<Connection>) returns (rc: int)
    requires session.Valid() && (session.socket == null || session.socket in sockets)
    requires Callable(call, sockets)
    modifies session, sockets
    ensures session.Valid() && session.localId == old(session.localId)
    ensures session.socket == null || session.socket in sockets
    ensures old(session.log) <= session.log
    ensures Moves(old(session.state), call, rc, session.state)
  {
    rc := 0;
    match call {
      case CallConnect(attempt) => rc := session.Connect(attempt);
      case CallHandshake(keys) => rc := session.Handshake(keys, [], []);
      case CallOpen(command) => rc := session.OpenShell(command, [], []);
      case CallWrite(data) => rc := session.WriteShell(data);
      case CallRead(maxLen) =>
        var buffer := new byte[maxLen];
        var bytesRead;
        rc, bytesRead := session.ReadShell(buffer, maxLen, 0, [], []);
      case CallExecute(command) =>
        var ok, _, _ := ExecuteFromScript(session, command, [], [], 0);
        rc := if ok then 0 else -1;
      case CallClose => session.Close();
    }
  }

  /** The session's promises hold after every sequence of calls, whatever the remote ends of
      its sockets send and however their transfers go, and every call moves it as it may. */
  method Drive(session: AdbSession, calls: seq<Call>, ghost sockets: set<Connection>)
    returns (rcs: seq<int>, states: seq<SessionState>)
    requires session.Valid() && (session.socket == null || session.socket in sockets)
    requires forall call :: call in calls ==> Callable(call, sockets)
    modifies session, sockets
    ensures session.Valid() && session.localId == old(session.localId)
    ensures old(session.log) <= session.log
    ensures AllMove(states, calls, rcs) && states[0] == old(session.state) && states[|calls|] == session.state
  {
    rcs, states := [], [session.state];
    for i := 0 to |calls|
      invariant session.Valid() && session.localId == old(session.localId) && old(session.log) <= session.log
      invariant session.socket == null || session.socket in sockets
      invariant |states| == i + 1 && states[0] == old(session.state) && states[i] == session.state
      invariant AllMove(states, calls[..i], rcs)
    {
      assert Callable(calls[i], sockets);
      hide *;
      var rc := DriveOne(session, calls[i], sockets);
      OneMoreMove(states, calls, rcs, i, rc, session.state);
      rcs, states := rcs + [rc], states + [session.state];
    }
    assert calls[..|calls|] == calls;
  }
}
