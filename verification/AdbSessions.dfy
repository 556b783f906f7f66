/** The ADB client session: its state, its socket, and what it may say on a channel. */
module AdbSessions {
  import opened Options
  import opened Wire
  import opened Sockets
  import opened AdbCodec
  import opened AdbRemote

  datatype SessionState =
    Disconnected | Connecting | TokenReceived | AuthSent | Connected | ShellOpening | ShellActive | Error

  /** A packet handed to the socket, with the remote channel id of the OPEN accepted last. */
  datatype Sent = Sent(command: u32, arg0: u32, arg1: u32, channel: Option<u32>)

  predicate ChannelCommand(command: u32)
  {
    command == A_WRTE || command == A_OKAY || command == A_CLSE
  }

  /** Every WRTE, OKAY and CLSE went out on the channel that was open when it did. */
  predicate OnChannel(log: seq<Sent>, localId: u32)
  {
    forall e :: e in log && ChannelCommand(e.command) ==> e.arg0 == localId && e.channel == Some(e.arg1)
  }

  const IDENTITY: seq<byte> := Ascii("host::NativeAndroidCapabilityLibrary")
  const SHELL_PREFIX: seq<byte> := Ascii("shell:")

  /** snprintf(destination, 512, "shell:%s", command), with its terminator. */
  function Destination(command: seq<byte>): (s: seq<byte>)
    ensures |s| <= 512
  {
    var text := SHELL_PREFIX + command;
    (if |text| > 511 then text[..511] else text) + [0]
  }

  /** As much of the command as the buffer takes. */
  function Cut(command: seq<byte>): seq<byte>
  {
    if |command| <= 505 then command else command[..505]
  }

  /** "shell:", the command up to its 505th byte, and a NUL. */
  lemma DestinationBytes(command: seq<byte>)
    ensures Destination(command) == [115, 104, 101, 108, 108, 58] + Cut(command) + [0]
    ensures [115, 104, 101, 108, 108, 58] == Ascii("shell:")
    ensures |command| <= 505 ==> Destination(command) == [115, 104, 101, 108, 108, 58] + command + [0]
    ensures |command| > 505 ==> |Destination(command)| == 512
  {
  }

  /** Two commands look alike to the remote exactly when they agree up to there; shorter ones
      only when they are equal. */
  lemma DestinationsDiffer(a: seq<byte>, b: seq<byte>)
    ensures Destination(a) == Destination(b) <==> Cut(a) == Cut(b)
    ensures |a| <= 505 && |b| <= 505 ==> (Destination(a) == Destination(b) <==> a == b)
  {
    DestinationBytes(a);
    DestinationBytes(b);
    Between(Destination(a), Cut(a));
    Between(Destination(b), Cut(b));
  }

  lemma Between(s: seq<byte>, middle: seq<byte>)
    requires s == [115, 104, 101, 108, 108, 58] + middle + [0]
    ensures s[6..|s| - 1] == middle
  {
  }

  /** The OPEN that carries a command: "shell:", the command up to its 505th byte, a NUL. */
  function Opening(localId: u32, command: seq<byte>): (p: Packet)
    ensures |p.data| <= 512
  {
    Packet(0x4e45504f, localId, 0, [115, 104, 101, 108, 108, 58] + Cut(command) + [0])
  }

  lemma OpeningSpelt(localId: u32, command: seq<byte>)
    ensures Packet(A_OPEN, localId, 0, Destination(command)) == Opening(localId, command)
  {
    DestinationBytes(command);
  }

  /** What a remote reads from its bytes. */
  lemma OpenParses(command: seq<byte>, localId: u32, rest: seq<byte>, room: nat)
    requires room >= 512
    ensures Parse(EncodePacket(Packet(A_OPEN, localId, 0, Destination(command))) + rest, room)
         == Got(Packet(0x4e45504f, localId, 0, [115, 104, 101, 108, 108, 58] + Cut(command) + [0]), rest)
  {
    OpeningSpelt(localId, command);
    PacketRoundTrip(Opening(localId, command), rest, room);
  }

  /** The CNXN that opens a handshake. */
  function Hello(): (p: Packet)
  {
    Packet(0x4e584e43, 0x0100_0000, 1048576, Ascii("host::NativeAndroidCapabilityLibrary"))
  }

  lemma HelloSpelt()
    ensures Packet(A_CNXN, ADB_VERSION, ADB_MAX_PACKET, IDENTITY) == Hello()
    ensures |IDENTITY| == 36
  {
  }

  /** The remote's answer to our OPEN. */
  predicate Accepts(p: Packet, localId: u32)
  {
    p.command == A_OKAY && p.arg1 == localId
  }

  predicate IsData(p: Packet, localId: u32)
  {
    p.command == A_WRTE && p.arg1 == localId
  }

  /** What reading `p` from the shell sends back. */
  function Acknowledgement(p: Packet, localId: u32, remoteId: u32): seq<byte>
  {
    if IsData(p, localId) then EncodePacket(Packet(A_OKAY, localId, remoteId, [])) else []
  }

  // ---- The handshake as the remote's packets decide it ----

  /** What the signing library gives for each token in turn, and the public key file; None, or no
      answer left, is a failure.
   */
  datatype Keys = Keys(signatures: seq<Option<seq<byte>>>, publicKey: Option<seq<byte>>)
  {
    predicate Fit()
    {
      && (forall s :: s in signatures && s.Some? ==> |s.value| < U32_BOUND)
      && (publicKey.Some? ==> |publicKey.value| < U32_BOUND - 1)
    }

    function Next(): Keys
    {
      Keys(if signatures == [] then [] else signatures[1..], publicKey)
    }

    function Signature(): Option<seq<byte>>
    {
      if signatures == [] then None else signatures[0]
    }

    /** The signed token, or the public key when signing fails; nothing when there is neither. */
    function Reply(): (reply: Option<Packet>)
      requires Fit()
      ensures reply.Some? ==> |reply.value.data| < U32_BOUND
    {
      if Signature().Some? then
        Some(Packet(A_AUTH, AUTH_SIGNATURE, 0, Signature().value))
      else if publicKey.Some? then
        Some(Packet(A_AUTH, AUTH_RSAPUBLICKEY, 0, publicKey.value + [0]))
      else
        None
    }
  }

  predicate IsToken(p: Packet)
  {
    p.command == A_AUTH && p.arg0 == AUTH_TOKEN
  }

  /** How the handshake ends, what it answered, and how many packets it read. */
  datatype Greeting = Greeting(state: SessionState, replies: seq<Packet>, used: nat)

  function Greet(ps: seq<Packet>, keys: Keys): (g: Greeting)
    requires keys.Fit()
    ensures g.used <= |ps| && Encodable(g.replies)
    decreases |ps|
  {
    if ps == [] then Greeting(Error, [], 0)
    else if ps[0].command == A_CNXN then Greeting(Connected, [], 1)
    else if IsToken(ps[0]) then
      match keys.Reply()
      case None => Greeting(TokenReceived, [], 1)
      case Some(reply) =>
        var g := Greet(ps[1..], keys.Next());
        Greeting(g.state, [reply] + g.replies, 1 + g.used)
    else if ps[0].command == A_CLSE then Greeting(Error, [], 1)
    else
      var g := Greet(ps[1..], keys);
      g.(used := 1 + g.used)
  }

  /** A greeting of which some packets are read and some answers given. */
  function Continued(said: seq<Packet>, used: nat, g: Greeting): Greeting
  {
    Greeting(g.state, said + g.replies, used + g.used)
  }

  lemma GreetNext(ps: seq<Packet>, keys: Keys, said: seq<Packet>, used: nat, whole: Greeting)
    requires keys.Fit() && ps != [] && Encodable(said)
    requires whole == Continued(said, used, Greet(ps, keys))
    ensures var p := ps[0];
            if p.command == A_CNXN then whole == Greeting(Connected, said, used + 1)
            else if IsToken(p) then
              match keys.Reply()
              case None => whole == Greeting(TokenReceived, said, used + 1)
              case Some(reply) =>
                Encodable(said + [reply]) && whole == Continued(said + [reply], used + 1, Greet(ps[1..], keys.Next()))
            else if p.command == A_CLSE then whole == Greeting(Error, said, used + 1)
            else whole == Continued(said, used + 1, Greet(ps[1..], keys))
  {
    assert said + [] == said;
    if IsToken(ps[0]) && keys.Reply().Some? {
      var reply := keys.Reply().value;
      var g := Greet(ps[1..], keys.Next());
      assert said + ([reply] + g.replies) == said + [reply] + g.replies;
    }
  }

  /** The remote welcomes or rejects us in the end. */
  predicate Settles(ps: seq<Packet>)
  {
    ps != [] && (ps[|ps| - 1].command == A_CNXN || ps[|ps| - 1].command == A_CLSE)
  }

  function Tokens(ps: seq<Packet>): nat
  {
    if ps == [] then 0 else (if IsToken(ps[0]) then 1 else 0) + Tokens(ps[1..])
  }

  /** The next n tokens can be answered. */
  predicate Answerable(keys: Keys, n: nat)
  {
    keys.publicKey.Some? || (n <= |keys.signatures| && forall j :: 0 <= j < n ==> keys.signatures[j].Some?)
  }

  lemma AnswerableNext(keys: Keys, n: nat)
    requires keys.Fit()
    ensures Answerable(keys, n + 1) <==> keys.Reply().Some? && Answerable(keys.Next(), n)
  {
    if keys.signatures != [] {
      assert forall j :: 0 <= j < |keys.signatures| - 1 ==> keys.signatures[1..][j] == keys.signatures[j + 1];
      assert forall j :: 0 < j < |keys.signatures| ==> keys.signatures[j] == keys.signatures[1..][j - 1];
    }
  }

  /** The k-th packet is the first to welcome or reject us, it welcomes, and every token before it can be answered. */
  predicate WelcomedAt(ps: seq<Packet>, keys: Keys, k: nat)
  {
    && k < |ps| && ps[k].command == A_CNXN
    && (forall i :: 0 <= i < k ==> ps[i].command != A_CLSE && ps[i].command != A_CNXN)
    && Answerable(keys, Tokens(ps[..k]))
  }

  /** The keys left after the first packet. */
  function KeysAfter(p: Packet, keys: Keys): Keys
  {
    if IsToken(p) then keys.Next() else keys
  }

  lemma WelcomedLater(ps: seq<Packet>, keys: Keys, k: nat)
    requires keys.Fit() && ps != []
    ensures WelcomedAt(ps, keys, k + 1) <==>
              && ps[0].command != A_CLSE && ps[0].command != A_CNXN
              && (IsToken(ps[0]) ==> keys.Reply().Some?)
              && WelcomedAt(ps[1..], KeysAfter(ps[0], keys), k)
  {
    if k + 1 < |ps| {
      assert ps[..k + 1][1..] == ps[1..][..k];
      AnswerableNext(keys, Tokens(ps[1..][..k]));
      assert forall i :: 0 < i < |ps| ==> ps[i] == ps[1..][i - 1];
    }
  }

  lemma WelcomedNow(ps: seq<Packet>, keys: Keys)
    requires keys.Fit() && ps != []
    ensures WelcomedAt(ps, keys, 0) <==> ps[0].command == A_CNXN
  {
    assert ps[..0] == [];
  }

  /** The handshake connects exactly when some packet welcomes us in that sense. */
  lemma {:induction false} ConnectsIff(ps: seq<Packet>, keys: Keys)
    requires keys.Fit()
    ensures Greet(ps, keys).state == Connected <==> exists k: nat :: WelcomedAt(ps, keys, k)
    decreases |ps|
  {
    if ps != [] {
      var next := KeysAfter(ps[0], keys);
      ConnectsIff(ps[1..], next);
      WelcomedNow(ps, keys);
      forall k: nat ensures WelcomedAt(ps, keys, k + 1) <==>
                              && ps[0].command != A_CLSE && ps[0].command != A_CNXN
                              && (IsToken(ps[0]) ==> keys.Reply().Some?)
                              && WelcomedAt(ps[1..], next, k)
      {
        WelcomedLater(ps, keys, k);
      }
      assert Greet(ps, keys).state == Connected <==>
             ps[0].command == A_CNXN ||
             (ps[0].command != A_CLSE && (IsToken(ps[0]) ==> keys.Reply().Some?) && Greet(ps[1..], next).state == Connected);
      hide WelcomedAt, Greet;
      if k: nat :| WelcomedAt(ps, keys, k) {
        if k > 0 {
          assert WelcomedAt(ps, keys, (k - 1) + 1);
          assert WelcomedAt(ps[1..], next, k - 1);
        }
      }
      if Greet(ps, keys).state == Connected && ps[0].command != A_CNXN {
        var k: nat :| WelcomedAt(ps[1..], next, k);
        assert WelcomedAt(ps, keys, k + 1);
      }
    }
  }

  /** One answer for every token read, the last excepted when there was none to give. */
  lemma {:induction false} EveryTokenAnswered(ps: seq<Packet>, keys: Keys)
    requires keys.Fit()
    ensures var g := Greet(ps, keys);
            |g.replies| + (if g.state == TokenReceived then 1 else 0) == Tokens(ps[..g.used])
    decreases |ps|
  {
    if ps != [] {
      var g := Greet(ps, keys);
      EveryTokenAnswered(ps[1..], KeysAfter(ps[0], keys));
      assert g.used > 0;
      assert ps[..g.used][1..] == ps[1..][..g.used - 1];
    }
  }

  /** Reply j answers token j: its signature, or else the public key file and a NUL. */
  lemma {:induction false} RepliesInOrder(ps: seq<Packet>, keys: Keys, j: nat)
    requires keys.Fit() && j < |Greet(ps, keys).replies|
    ensures Greet(ps, keys).replies[j] ==
              if j < |keys.signatures| && keys.signatures[j].Some?
              then Packet(0x48545541, 2, 0, keys.signatures[j].value)
              else if keys.publicKey.Some? then Packet(0x48545541, 3, 0, keys.publicKey.value + [0])
              else Packet(0, 0, 0, [])
    ensures (j < |keys.signatures| && keys.signatures[j].Some?) || keys.publicKey.Some?
    decreases |ps|
  {
    if IsToken(ps[0]) {
      if j > 0 {
        RepliesInOrder(ps[1..], keys.Next(), j - 1);
      }
    } else {
      RepliesInOrder(ps[1..], keys, j);
    }
  }

  /** A connection is made by the last packet read, and it is the one that welcomes us. */
  lemma {:induction false} ConnectedAtLast(ps: seq<Packet>, keys: Keys)
    requires keys.Fit() && Greet(ps, keys).state == Connected
    ensures Greet(ps, keys).used > 0 && WelcomedAt(ps, keys, Greet(ps, keys).used - 1)
    decreases |ps|
  {
    WelcomedNow(ps, keys);
    if ps[0].command != A_CNXN {
      ConnectedAtLast(ps[1..], KeysAfter(ps[0], keys));
      WelcomedLater(ps, keys, Greet(ps, keys).used - 2);
    }
  }

  /** A token is AUTH of kind 1. */
  lemma TokenWords(p: Packet)
    ensures IsToken(p) <==> p.command == 0x48545541 && p.arg0 == 1
  {
  }

  /** The first packet that accepts our OPEN or rejects it. */
  function FirstAnswer(ps: seq<Packet>, localId: u32): (k: nat)
    ensures k <= |ps|
    ensures k < |ps| ==> Accepts(ps[k], localId) || ps[k].command == A_CLSE
    ensures forall i :: 0 <= i < k ==> !Accepts(ps[i], localId) && ps[i].command != A_CLSE
  {
    if ps == [] || Accepts(ps[0], localId) || ps[0].command == A_CLSE then 0
    else 1 + FirstAnswer(ps[1..], localId)
  }

  /** The loop stands before `ps`: `whole` is what is said and what the rest gives. */
  ghost predicate Answering(conn: Connection, ps: seq<Packet>, rest: seq<byte>, keys: Keys, whole: Greeting,
                            said: seq<Packet>, used: nat, base: seq<byte>)
    reads conn
  {
    && keys.Fit() && Encodable(said) && Hears(conn, ps, rest, 8192) && Settles(ps)
    && whole == Continued(said, used, Greet(ps, keys))
    && conn.outgoing == base + Stream(said)
  }

  /** The loop has ended with `ps` unread. */
  ghost predicate Answered(conn: Connection, ps: seq<Packet>, rest: seq<byte>, state: SessionState, whole: Greeting,
                           said: seq<Packet>, used: nat, base: seq<byte>)
    reads conn
  {
    && Encodable(said) && Encodable(ps) && whole == Greeting(state, said, used)
    && conn.incoming == Stream(ps) + rest
    && conn.outgoing == base + Stream(said)
  }

  lemma NothingSaid(conn: Connection, ps: seq<Packet>, rest: seq<byte>, keys: Keys)
    requires keys.Fit()
    ensures Hears(conn, ps, rest, 8192) && Settles(ps) ==>
              Answering(conn, ps, rest, keys, Greet(ps, keys), [], 0, conn.outgoing)
    ensures Encodable([])
  {
    assert conn.outgoing + Stream([]) == conn.outgoing;
    hide Hears, Settles, Greet;
    assert [] + Greet(ps, keys).replies == Greet(ps, keys).replies;
  }

  lemma AnsweredAll(conn: Connection, ps: seq<Packet>, rest: seq<byte>, state: SessionState, whole: Greeting,
                    said: seq<Packet>, used: nat, base: seq<byte>)
    requires Answered(conn, ps, rest, state, whole, said, used, base)
    ensures whole.state == state && whole.used == used && whole.replies == said
    ensures Encodable(said) && Encodable(ps)
    ensures conn.incoming == Stream(ps) + rest && conn.outgoing == base + Stream(said)
  {
  }

  class AdbSession {
    var socket: Connection?
    var state: SessionState
    var localId: u32
    var remoteId: u32

    ghost var greeted: bool           // a CNXN arrived since the last successful connect
    ghost var channel: Option<u32>    // remote id of the OPEN accepted last on this socket
    ghost var log: seq<Sent>

    ghost predicate Valid()
      reads this
    {
      && (state != Disconnected && state != Error ==> socket != null)
      && (state == Connected || state == ShellOpening || state == ShellActive ==> greeted)
      && (state == ShellActive ==> channel.Some?)
      && (channel.Some? ==> channel.value == remoteId)
      && OnChannel(log, localId)
    }

    /** adb_initialize_session */
    constructor ()
      ensures Valid() && state == Disconnected && socket == null && localId == 1 && remoteId == 0
    {
      socket, state, localId, remoteId := null, Disconnected, 1, 0;
      greeted, channel, log := false, None, [];
    }

    /** adb_connect_loopback; None where the socket or the connection cannot be had. */
    method Connect(attempt: Option<Connection>) returns (rc: int)
      requires Valid()
      modifies this
      ensures Valid() && localId == old(localId) && log == old(log)
      ensures attempt.Some? ==> rc == 0 && state == Connecting && socket == attempt.value && !greeted && channel.None?
      ensures attempt.None? ==> rc == -1 && state == Error && socket == old(socket)
    {
      if attempt.None? {
        state := Error;
        return -1;
      }
      socket := attempt.value;
      state := Connecting;
      greeted, channel := false, None;
      return 0;
    }

    /** adb_send_packet on the session's socket, with the packet noted in the log. */
    method Send(command: u32, arg0: u32, arg1: u32, data: seq<byte>) returns (rc: int)
      requires Valid() && socket != null && |data| < U32_BOUND
      requires ChannelCommand(command) ==> arg0 == localId && channel == Some(arg1)
      modifies `log, socket`outgoing, socket`writeScript
      ensures Valid() && log == old(log) + [Sent(command, arg0, arg1, channel)]
      ensures rc == 0 || rc == -1
      ensures rc == 0 ==> socket.outgoing == old(socket.outgoing) + EncodePacket(Packet(command, arg0, arg1, data))
      ensures old(socket.writeScript) == [] ==> rc == 0 && socket.writeScript == []
      ensures !HeaderArrives(old(socket.writeScript)) ==> rc == -1
    {
      log := log + [Sent(command, arg0, arg1, channel)];
      rc := SendPacket(socket, command, arg0, arg1, data);
    }

    /** adb_handle_handshake. `ps` and `rest` are what the remote says, where that is known. */
    method Handshake(keys: Keys, ghost ps: seq<Packet>, ghost rest: seq<byte>) returns (rc: int)
      requires Valid() && keys.Fit()
      modifies this, socket
      ensures Valid() && socket == old(socket) && localId == old(localId) && remoteId == old(remoteId)
      ensures rc == 0 ==> state == Connected && greeted
      ensures rc != 0 ==> rc == -1 && (state == old(state) || state == TokenReceived || state == Error)
      // when the CNXN cannot be sent nothing is read
      ensures old(socket != null && !HeaderArrives(socket.writeScript)) ==>
                rc == -1 && state == old(state) && socket.incoming == old(socket.incoming)
      ensures old(log) <= log
      ensures old(greeted) ==> greeted
      ensures channel == old(channel)
      ensures old(socket != null && Hears(socket, ps, rest, 8192)) && Settles(ps) ==>
                var g := Greet(ps, keys);
                && state == g.state && (rc == 0 <==> g.state == Connected)
                && socket.incoming == Stream(ps[g.used..]) + rest
                && socket.outgoing == old(socket.outgoing) +
                     EncodePacket(Hello()) + Stream(g.replies)
    {
      HelloSpelt();
      hide OnChannel, EncodePacket, DecodeAdbHeader, Delivered, Stream, Greet, Hello, Ascii;
      if socket == null {
        return -1;
      }
      ghost var heard := Hears(socket, ps, rest, 8192) && Settles(ps);
      rc := Send(A_CNXN, ADB_VERSION, ADB_MAX_PACKET, IDENTITY);
      if rc < 0 {
        return;
      }
      rc := Answer(keys, heard, ps, rest);
    }

    /** Its loop. */
    method Answer(keys: Keys, ghost heard: bool, ghost ps: seq<Packet>, ghost rest: seq<byte>) returns (rc: int)
      requires Valid() && socket != null && keys.Fit()
      requires heard ==> Hears(socket, ps, rest, 8192) && Settles(ps)
      modifies this, socket
      ensures Valid() && socket == old(socket) && localId == old(localId) && remoteId == old(remoteId)
      ensures rc == 0 ==> state == Connected && greeted
      ensures rc != 0 ==> rc == -1 && (state == TokenReceived || state == Error)
      ensures old(log) <= log
      ensures old(greeted) ==> greeted
      ensures channel == old(channel)
      ensures heard ==>
                var g := Greet(ps, keys);
                && state == g.state && (rc == 0 <==> g.state == Connected)
                && socket.incoming == Stream(ps[g.used..]) + rest
                && socket.outgoing == old(socket.outgoing) + Stream(g.replies)
    {
      var payload := new byte[8192];
      var left := keys;
      ghost var used, coming := 0, ps;
      ghost var said: seq<Packet> := [];
      ghost var whole, base := Greet(ps, keys), socket.outgoing;
      NothingSaid(socket, ps, rest, keys);
      assert ps[0..] == ps;
      hide *;
      var done := false;
      rc := 0;
      while !done
        invariant Valid() && socket == old(socket) && socket != null && left.Fit() && Encodable(said)
        invariant localId == old(localId) && remoteId == old(remoteId) && channel == old(channel)
        invariant old(greeted) ==> greeted
        invariant old(log) <= log
        invariant done ==> rc == (if state == Connected then 0 else -1) && (rc == 0 ==> greeted)
        invariant done ==> state == Connected || state == TokenReceived || state == Error
        invariant heard ==> used <= |ps| && coming == ps[used..]
        invariant heard && !done ==> Answering(socket, coming, rest, left, whole, said, used, base)
        invariant heard && done ==> Answered(socket, coming, rest, state, whole, said, used, base)
        decreases !done, |socket.incoming|
      {
        done, rc, left, said := AnswerOne(left, payload, heard, coming, rest, said, used, whole, base);
        used, coming := used + 1, if coming == [] then [] else coming[1..];
      }
      if heard {
        AnsweredAll(socket, coming, rest, state, whole, said, used, base);
      }
    }

    /** One turn of it: a packet read and acted on. */
    method AnswerOne(keys: Keys, payload: array<byte>, ghost heard: bool, ghost ps: seq<Packet>, ghost rest: seq<byte>,
                     ghost said: seq<Packet>, ghost used: nat, ghost whole: Greeting, ghost base: seq<byte>)
      returns (done: bool, rc: int, left: Keys, ghost nowSaid: seq<Packet>)
      requires Valid() && socket != null && keys.Fit() && payload.Length == 8192 && Encodable(said)
      requires heard ==> Answering(socket, ps, rest, keys, whole, said, used, base)
      modifies this, socket, payload
      ensures Valid() && socket == old(socket) && left.Fit() && Encodable(nowSaid)
      ensures localId == old(localId) && remoteId == old(remoteId) && channel == old(channel)
      ensures old(log) <= log
      ensures old(greeted) ==> greeted
      ensures !done ==> |socket.incoming| < |old(socket.incoming)|
      ensures done ==> rc == (if state == Connected then 0 else -1) && (rc == 0 ==> greeted)
      ensures done ==> state == Connected || state == TokenReceived || state == Error
      ensures heard && !done ==> ps != [] && Answering(socket, ps[1..], rest, left, whole, nowSaid, used + 1, base)
      ensures heard && done ==> ps != [] && Answered(socket, ps[1..], rest, state, whole, nowSaid, used + 1, base)
    {
      hide OnChannel, EncodePacket, Delivered, Greet, Stream;
      left, nowSaid := keys, said;
      var header;
      rc, header := ReadHeard(socket, payload, 8192, ps, rest);
      if rc < 0 {
        state := Error;
        return true, -1, left, nowSaid;
      }
      if heard {
        GreetNext(ps, keys, said, used, whole);
      }
      if header.command == A_CNXN {
        state, greeted := Connected, true;
        return true, 0, left, nowSaid;
      }
      if header.command == A_AUTH && header.arg0 == AUTH_TOKEN {
        var answered := AnswerToken(keys);
        if !answered {
          return true, -1, left, nowSaid;
        }
        left, nowSaid := keys.Next(), said + [keys.Reply().value];
        StreamSnoc(said, keys.Reply().value);
      } else if header.command == A_CLSE {
        state := Error;
        return true, -1, left, nowSaid;
      }
      done := false;
    }

    /** One answer to one token. */
    method AnswerToken(keys: Keys) returns (answered: bool)
      requires Valid() && socket != null && keys.Fit()
      modifies `state, `log, socket`outgoing, socket`writeScript
      ensures Valid() && state == if answered then AuthSent else TokenReceived
      ensures old(log) <= log
      ensures answered <==> keys.Reply().Some?
      ensures old(socket.writeScript) == [] ==>
                && socket.writeScript == []
                && socket.outgoing ==
                     old(socket.outgoing) + if answered then EncodePacket(keys.Reply().value) else []
    {
      hide OnChannel, EncodePacket;
      state := TokenReceived;
      var signature := keys.Signature();
      if signature.Some? {
        var _ := Send(A_AUTH, AUTH_SIGNATURE, 0, signature.value);
      } else {
        if keys.publicKey.None? {
          return false;
        }
        var _ := Send(A_AUTH, AUTH_RSAPUBLICKEY, 0, keys.publicKey.value + [0]);
      }
      state := AuthSent;
      return true;
    }

    /** adb_open_shell_channel. A failed send leaves the session in ShellOpening. */
    method OpenShell(command: seq<byte>, ghost ps: seq<Packet>, ghost rest: seq<byte>) returns (rc: int)
      requires Valid()
      modifies this, socket
      ensures Valid() && socket == old(socket) && localId == old(localId) && greeted == old(greeted)
      ensures old(state == Connected && socket != null && !HeaderArrives(socket.writeScript)) ==>
                rc == -1 && state == ShellOpening && socket.incoming == old(socket.incoming)
      ensures old(log) <= log
      ensures rc == 0 ==> old(state) == Connected && state == ShellActive && channel == Some(remoteId)
      ensures rc != 0 ==> rc == -1 && (old(state) != Connected ==> unchanged(this))
      ensures rc != 0 && old(state) == Connected ==> state == ShellOpening || state == Error
      ensures var k := FirstAnswer(ps, localId);
              old(state == Connected && Hears(socket, ps, rest, 4096)) && k < |ps| ==>
                && (rc == 0 <==> Accepts(ps[k], localId))
                && state == (if rc == 0 then ShellActive else Error)
                && (rc == 0 ==> remoteId == ps[k].arg0)
                && Hears(socket, ps[k + 1..], rest, 4096)
                && socket.outgoing == old(socket.outgoing) +
                     EncodePacket(Opening(localId, command))
    {
      OpeningSpelt(localId, command);
      hide Opening, Destination, OnChannel, EncodePacket, DecodeAdbHeader, Delivered, Stream;
      if state != Connected {
        return -1;
      }
      ghost var heard := Hears(socket, ps, rest, 4096) && FirstAnswer(ps, localId) < |ps|;
      state := ShellOpening;
      rc := Send(A_OPEN, localId, 0, Destination(command));
      if rc < 0 {
        return;
      }
      rc := AwaitAnswer(heard, ps, rest);
    }

    /** Its loop. */
    method AwaitAnswer(ghost heard: bool, ghost ps: seq<Packet>, ghost rest: seq<byte>) returns (rc: int)
      requires Valid() && socket != null && state == ShellOpening
      requires heard ==> Hears(socket, ps, rest, 4096) && FirstAnswer(ps, localId) < |ps|
      modifies this, socket`incoming, socket`readScript
      ensures Valid() && socket == old(socket) && localId == old(localId) && greeted == old(greeted)
      ensures old(log) <= log
      ensures rc == 0 ==> state == ShellActive && channel == Some(remoteId)
      ensures rc != 0 ==> rc == -1 && state == Error
      ensures heard ==>
                var k := FirstAnswer(ps, localId);
                && (rc == 0 <==> Accepts(ps[k], localId))
                && state == (if rc == 0 then ShellActive else Error)
                && (rc == 0 ==> remoteId == ps[k].arg0)
                && Hears(socket, ps[k + 1..], rest, 4096)
    {
      hide OnChannel, EncodePacket, DecodeAdbHeader, Hears;
      var payload := new byte[4096];
      ghost var i := 0;
      assert ps[0..] == ps;
      while true
        invariant Valid() && socket == old(socket) && socket != null && state == ShellOpening
        invariant old(log) <= log
        invariant localId == old(localId) && greeted == old(greeted)
        invariant heard ==> i <= FirstAnswer(ps, localId) && Hears(socket, ps[i..], rest, 4096)
        decreases |socket.incoming|
      {
        var header;
        ghost var coming := if heard then ps[i..] else [];
        rc, header := ReadHeard(socket, payload, 4096, coming, rest);
        assert heard ==> coming[1..] == ps[i + 1..];
        if rc < 0 {
          state := Error;
          return -1;
        }
        if header.command == A_OKAY && header.arg1 == localId {
          remoteId := header.arg0;
          channel := Some(header.arg0);
          state := ShellActive;
          return 0;
        }
        if header.command == A_CLSE {
          state := Error;
          return -1;
        }
        i := i + 1;
      }
    }

    /** adb_write_shell_data */
    method WriteShell(data: seq<byte>) returns (rc: int)
      requires Valid() && |data| < U32_BOUND
      modifies this, socket
      ensures Valid() && socket == old(socket) && localId == old(localId) && state == old(state)
      ensures old(log) <= log
      ensures old(state) != ShellActive ==> rc == -1 && unchanged(this)
      ensures rc == 0 || rc == -1
      ensures old(state == ShellActive && socket != null && socket.writeScript == []) ==> rc == 0
      ensures old(state) == ShellActive && rc == 0 ==>
                socket.outgoing == old(socket.outgoing) + EncodePacket(Packet(A_WRTE, localId, remoteId, data))
    {
      if state != ShellActive {
        return -1;
      }
      rc := Send(A_WRTE, localId, remoteId, data);
    }

    /** adb_read_shell_data. `bytesRead` is `*bytes_read`, in and out: a packet that is neither
        data for this channel nor a close leaves it alone and still counts as a success. */
    method ReadShell(buffer: array<byte>, maxLen: u32, bytesRead: nat, ghost ps: seq<Packet>, ghost rest: seq<byte>)
      returns (rc: int, newBytesRead: nat)
      requires Valid() && maxLen <= buffer.Length
      modifies this, socket, buffer
      ensures Valid() && socket == old(socket) && localId == old(localId) && remoteId == old(remoteId)
      ensures old(log) <= log
      ensures channel == old(channel) && greeted == old(greeted)
      ensures old(state) != ShellActive ==> rc == -1 && unchanged(this)
      ensures rc == 0 || rc == -1
      ensures rc == 0 ==> old(state) == ShellActive && state == ShellActive && |socket.incoming| < |old(socket.incoming)|
      ensures rc != 0 && old(state) == ShellActive ==> state == ShellActive || state == Connected
      ensures newBytesRead == bytesRead || newBytesRead <= maxLen
      ensures old(state == ShellActive && Hears(socket, ps, rest, maxLen)) && ps != [] ==>
                var p := ps[0];
                && Hears(socket, ps[1..], rest, maxLen)
                && buffer[..] == p.data + old(buffer[..])[|p.data|..]
                && (rc == 0 <==> p.command != A_CLSE)
                && state == (if rc == 0 then ShellActive else Connected)
                && newBytesRead == (if IsData(p, localId) then |p.data| else bytesRead)
                && socket.outgoing == old(socket.outgoing) + Acknowledgement(p, localId, remoteId)
      ensures old(socket) != null ==> |socket.incoming| <= |old(socket.incoming)|
    {
      hide OnChannel, EncodePacket, Delivered, Stream;
      newBytesRead := bytesRead;
      if state != ShellActive {
        return -1, newBytesRead;
      }
      var header;
      rc, header := ReadHeard(socket, buffer, maxLen, ps, rest);
      if rc < 0 {
        return;
      }
      if header.command == A_WRTE && header.arg1 == localId {
        newBytesRead := header.dataLength;
        var _ := Send(A_OKAY, localId, remoteId, []);
        return 0, newBytesRead;
      }
      if header.command == A_CLSE {
        state := Connected;
        return -1, newBytesRead;
      }
      return 0, newBytesRead;
    }

    /** adb_close_session. An active channel is closed on the wire first. */
    method Close()
      requires Valid()
      modifies this, socket
      ensures Valid() && state == Disconnected && socket == null && localId == old(localId)
      ensures old(log) <= log
      ensures old(socket != null && socket.writeScript == []) ==>
                old(socket).outgoing == old(socket.outgoing) +
                  if old(state) == ShellActive then EncodePacket(Packet(A_CLSE, localId, old(remoteId), [])) else []
    {
      hide OnChannel, EncodePacket;
      if socket != null {
        if state == ShellActive {
          var _ := Send(A_CLSE, localId, remoteId, []);
        }
        socket := null;
      }
      state := Disconnected;
    }
  }
}
