/** Shell commands issued one after another on one session. */
module CommandChain {
  import opened Wire
  import opened Sockets
  import opened AdbCodec
  import opened AdbRemote
  import opened AdbSessions
  import opened ShellStream

  /** How the remote serves one command: packets that decide nothing, the OKAY, the output, the close. */
  datatype Script = Script(lead: seq<Packet>, okay: Packet, data: seq<Packet>, close: Packet)
  {
    function Packets(): seq<Packet>
    {
      lead + [okay] + (data + [close])
    }

    predicate Serves(localId: u32)
    {
      && Unclosed(lead) && (forall p :: p in lead ==> !Accepts(p, localId))
      && Accepts(okay, localId) && |okay.data| <= CHUNK
      && CleanData(data, localId)
      && close.command == A_CLSE && |close.data| <= CHUNK
    }
  }

  predicate AllServe(scripts: seq<Script>, localId: u32)
  {
    forall s :: s in scripts ==> s.Serves(localId)
  }

  function AllPackets(scripts: seq<Script>): seq<Packet>
  {
    if scripts == [] then [] else scripts[0].Packets() + AllPackets(scripts[1..])
  }

  lemma {:induction false} SkipsLead(lead: seq<Packet>, later: seq<Packet>, localId: u32)
    requires Unclosed(lead) && forall p :: p in lead ==> !Accepts(p, localId)
    requires later != [] && Accepts(later[0], localId)
    ensures FirstAnswer(lead + later, localId) == |lead|
  {
    if lead == [] {
      assert lead + later == later;
    } else {
      assert (lead + later)[0] == lead[0] && (lead + later)[1..] == lead[1..] + later;
      SkipsLead(lead[1..], later, localId);
    }
  }

  lemma {:induction false} EndsInClose(scripts: seq<Script>, localId: u32)
    requires scripts != [] && AllServe(scripts, localId)
    ensures var ps := AllPackets(scripts);
            ps != [] && ps[|ps| - 1].command == A_CLSE
  {
    assert scripts[0].Serves(localId);
    if |scripts| > 1 {
      EndsInClose(scripts[1..], localId);
    }
  }

  lemma {:induction false} AllSendable(scripts: seq<Script>, localId: u32)
    requires AllServe(scripts, localId)
    ensures Sendable(AllPackets(scripts))
  {
    if scripts != [] {
      assert scripts[0].Serves(localId);
      AllSendable(scripts[1..], localId);
    }
  }

  lemma Parts(lead: seq<Packet>, okay: Packet, data: seq<Packet>, later: seq<Packet>)
    ensures var ps := lead + [okay] + data + later;
            && ps == lead + ([okay] + (data + later)) && ps[|lead|] == okay
            && ps[|lead| + 1..] == data + later && ps[|lead| + 1..][|data|..] == later
  {
    assert lead + [okay] + data + later == (lead + [okay]) + (data + later);
  }

  /** With several scripts to come, the next command gets the first one's output and leaves the others. */
  lemma NextScript(scripts: seq<Script>, localId: u32, temp: seq<byte>)
    requires scripts != [] && AllServe(scripts, localId) && |temp| == CHUNK
    ensures var ps, s := AllPackets(scripts), scripts[0];
            var k := |s.lead|;
            && k + 1 < |ps| && k == FirstAnswer(ps, localId) && Accepts(ps[k], localId)
            && ps[|ps| - 1].command == A_CLSE && Sendable(ps[k + 1..])
            && Collect(ps[k + 1..], localId, temp, 0) == Collected(Concat(s.data), |s.data| + 1, |s.data|, true)
            && ps[k + 1..][|s.data| + 1..] == AllPackets(scripts[1..])
  {
    var ps, s, later := AllPackets(scripts), scripts[0], AllPackets(scripts[1..]);
    assert s.Serves(localId);
    AllSendable(scripts, localId);
    AllSendable(scripts[1..], localId);
    EndsInClose(scripts, localId);
    var tail := s.data + [s.close];
    assert ps == s.lead + [s.okay] + tail + later;
    hide AllPackets, Collect, Concat, CleanData, FirstAnswer;
    Parts(s.lead, s.okay, tail, later);
    SkipsLead(s.lead, [s.okay] + (tail + later), localId);
    CleanRemote(s.data, s.close, later, localId, temp, 0);
  }

  /** A connected session whose remote serves these scripts. */
  ghost predicate Served(session: AdbSession, scripts: seq<Script>, rest: seq<byte>)
    reads session, session.socket
  {
    && session.state == Connected && session.socket != null
    && AllServe(scripts, session.localId)
    && Hears(session.socket, AllPackets(scripts), rest, CHUNK)
  }

  /** What one command sends: its OPEN, and an OKAY for each data packet. */
  function Said(localId: u32, command: seq<byte>, script: Script): seq<byte>
  {
    EncodePacket(Opening(localId, command)) + Acks(|script.data|, localId, script.okay.arg0)
  }

  lemma SaidAfter(before: seq<byte>, localId: u32, command: seq<byte>, script: Script)
    ensures before + EncodePacket(Opening(localId, command)) + Acks(|script.data|, localId, script.okay.arg0)
         == before + Said(localId, command, script)
  {
    hide EncodePacket, Opening, Acks;
  }

  /** What several commands send, one after the other. */
  function AllSaid(localId: u32, commands: seq<seq<byte>>, scripts: seq<Script>): seq<byte>
    requires |commands| == |scripts|
  {
    if commands == [] then []
    else
      var i := |commands| - 1;
      AllSaid(localId, commands[..i], scripts[..i]) + Said(localId, commands[i], scripts[i])
  }

  lemma OneMoreSaid(base: seq<byte>, localId: u32, commands: seq<seq<byte>>, scripts: seq<Script>, i: nat)
    requires i < |commands| == |scripts|
    ensures base + AllSaid(localId, commands[..i + 1], scripts[..i + 1])
         == base + AllSaid(localId, commands[..i], scripts[..i]) + Said(localId, commands[i], scripts[i])
  {
    hide Said;
    var nowCommands, nowScripts := commands[..i + 1], scripts[..i + 1];
    Shorter(commands, i);
    Shorter(scripts, i);
    var before, last := AllSaid(localId, commands[..i], scripts[..i]), Said(localId, commands[i], scripts[i]);
    assert AllSaid(localId, nowCommands, nowScripts) == before + last;
    Regrouped(base, before, last);
  }

  lemma Shorter<T>(s: seq<T>, i: nat)
    requires i < |s|
    ensures s[..i + 1][..i] == s[..i] && s[..i + 1][i] == s[i]
  {
  }

  lemma Regrouped(a: seq<byte>, b: seq<byte>, c: seq<byte>)
    ensures a + (b + c) == a + b + c
  {
  }

  /** All that the session has written to its socket. */
  ghost function Outgoing(session: AdbSession): seq<byte>
    reads session, session.socket
  {
    if session.socket == null then [] else session.socket.outgoing
  }

  /** One command against the first of several scripts leaves the session ready for the next. */
  method RunOne(session: AdbSession, command: seq<byte>, out: array<byte>, ghost scripts: seq<Script>, ghost rest: seq<byte>)
    returns (status: int)
    requires session.Valid() && out.Length > 0
    modifies session, session.socket, out
    ensures session.Valid() && session.socket == old(session.socket) && session.localId == old(session.localId)
    ensures old(session.state) != Connected ==> status == -2 && unchanged(session)
    ensures old(Served(session, scripts, rest)) && scripts != [] ==>
              && status == 0 && Served(session, scripts[1..], rest)
              && Written(out[..], old(out[..]), Concat(scripts[0].data), out.Length)
              && Outgoing(session) == old(Outgoing(session)) + Said(session.localId, command, scripts[0])
  {
    ghost var served := Served(session, scripts, rest) && scripts != [];
    ghost var ps, was := AllPackets(scripts), Outgoing(session);
    ghost var k := if served then |scripts[0].lead| else 0;
    if served {
      Ready(session, scripts, rest);
      SaidAfter(was, session.localId, command, scripts[0]);
      OkayAt(scripts);
    }
    ghost var temp0;
    hide *;
    status, temp0 := ExecuteShell(session, command, out, out.Length, ps, rest, k);
    if served {
      NextScript(scripts, session.localId, temp0);
      ReadyAgain(session, scripts, rest);
    }
  }

  lemma Ready(session: AdbSession, scripts: seq<Script>, rest: seq<byte>)
    requires Served(session, scripts, rest) && scripts != []
    ensures Scripted(session, AllPackets(scripts), rest, |scripts[0].lead|)
    ensures session.state == Connected && session.socket != null && AllServe(scripts, session.localId)
    ensures Outgoing(session) == session.socket.outgoing
  {
    hide AllPackets, Hears, FirstAnswer, Collect, Concat;
    NextScript(scripts, session.localId, seq(CHUNK, _ => 0));
  }

  lemma ReadyAgain(session: AdbSession, scripts: seq<Script>, rest: seq<byte>)
    requires scripts != [] && AllServe(scripts, session.localId)
    requires session.state == Connected && session.socket != null
    requires Hears(session.socket, AllPackets(scripts[1..]), rest, CHUNK)
    ensures Served(session, scripts[1..], rest)
    ensures Outgoing(session) == session.socket.outgoing
  {
    hide AllPackets, Hears;
  }

  lemma OkayAt(scripts: seq<Script>)
    requires scripts != []
    ensures |scripts[0].lead| < |AllPackets(scripts)|
    ensures AllPackets(scripts)[|scripts[0].lead|] == scripts[0].okay
  {
  }

  /** The buffer holds the first bytes of `text`, as many as leave room for the NUL behind them. */
  ghost predicate Shows(output: seq<byte>, text: seq<byte>, size: nat)
    requires size > 0
  {
    var total := Min(|text|, size - 1);
    |output| == size && output[..total] == text[..total] && output[total] == 0
  }

  /** Every command succeeded with its own script's output. */
  ghost predicate AllShown(statuses: seq<int>, outputs: seq<seq<byte>>, scripts: seq<Script>, size: nat)
    requires size > 0
  {
    && |statuses| == |outputs| == |scripts|
    && forall i :: 0 <= i < |scripts| ==>
         statuses[i] == 0 && Shows(outputs[i], Concat(scripts[i].data), size)
  }

  lemma OneMoreShown(statuses: seq<int>, outputs: seq<seq<byte>>, scripts: seq<Script>, i: nat, output: seq<byte>, size: nat)
    requires size > 0 && i < |scripts| && AllShown(statuses, outputs, scripts[..i], size)
    requires Shows(output, Concat(scripts[i].data), size)
    ensures AllShown(statuses + [0], outputs + [output], scripts[..i + 1], size)
  {
    hide Shows, Concat;
  }

  /** One of them, in a buffer of its own. */
  method RunNext(session: AdbSession, command: seq<byte>, size: nat, ghost scripts: seq<Script>, ghost rest: seq<byte>)
    returns (status: int, output: seq<byte>)
    requires session.Valid() && size > 0
    modifies session, session.socket
    ensures session.Valid() && session.socket == old(session.socket) && session.localId == old(session.localId)
    ensures old(session.state) != Connected ==> status == -2 && session.state == old(session.state)
    ensures old(Served(session, scripts, rest)) && scripts != [] ==>
              && status == 0 && Served(session, scripts[1..], rest)
              && Shows(output, Concat(scripts[0].data), size)
              && Outgoing(session) == old(Outgoing(session)) + Said(session.localId, command, scripts[0])
  {
    hide *;
    ghost var served, text := Served(session, scripts, rest) && scripts != [], [];
    if served {
      text := Concat(scripts[0].data);
    }
    var out := new byte[size];
    ghost var before := out[..];
    status := RunOne(session, command, out, scripts, rest);
    output := out[..];
    if served {
      WrittenShows(output, before, text, size);
    }
  }

  lemma WrittenShows(out: seq<byte>, before: seq<byte>, text: seq<byte>, size: nat)
    requires 0 < size == |before| && Written(out, before, text, size)
    ensures Shows(out, text, size)
  {
  }

  predicate AllRefused(statuses: seq<int>)
  {
    forall i :: 0 <= i < |statuses| ==> statuses[i] == -2
  }

  lemma OneMoreRefused(statuses: seq<int>)
    ensures AllRefused([])
    ensures AllRefused(statuses) ==> AllRefused(statuses + [-2])
  {
  }

  /** Any number of commands in a row, as auto_ensure_bluetooth_enabled issues them: each gets its own
      script's output, cut to the buffer. A session that is not connected refuses them all and stays as it is.
   */
  method RunCommands(session: AdbSession, commands: seq<seq<byte>>, size: nat, ghost scripts: seq<Script>, ghost rest: seq<byte>)
    returns (statuses: seq<int>, outputs: seq<seq<byte>>)
    requires session.Valid() && size > 0 && |scripts| == |commands|
    modifies session, session.socket
    ensures session.Valid() && session.localId == old(session.localId) && |statuses| == |outputs| == |commands|
    ensures old(session.state) != Connected ==> session.state == old(session.state) && AllRefused(statuses)
    ensures old(Served(session, scripts, rest)) ==>
              && Served(session, [], rest) && AllShown(statuses, outputs, scripts, size)
              && Outgoing(session) == old(Outgoing(session)) + AllSaid(session.localId, commands, scripts)
  {
    statuses, outputs := [], [];
    ghost var served := Served(session, scripts, rest);
    assert scripts[0..] == scripts && scripts[..0] == [];
    assert AllShown([], [], [], size);
    OneMoreRefused([]);
    ghost var base, localId := Outgoing(session), session.localId;
    assert commands[..0] == [] && base + AllSaid(localId, [], []) == base;
    hide *;
    for i := 0 to |commands|
      invariant session.Valid() && session.socket == old(session.socket) && session.localId == localId
      invariant |statuses| == |outputs| == i
      invariant served ==> Outgoing(session) == base + AllSaid(localId, commands[..i], scripts[..i])
      invariant old(session.state) != Connected ==> session.state == old(session.state) && AllRefused(statuses)
      invariant served ==> Served(session, scripts[i..], rest) && AllShown(statuses, outputs, scripts[..i], size)
    {
      var status, output := RunNext(session, commands[i], size, scripts[i..], rest);
      if old(session.state) != Connected {
        OneMoreRefused(statuses);
      }
      assert scripts[i..][1..] == scripts[i + 1..];
      if served {
        OneMoreShown(statuses, outputs, scripts, i, output, size);
        OneMoreSaid(base, localId, commands, scripts, i);
      }
      statuses, outputs := statuses + [status], outputs + [output];
    }
    assert scripts[|commands|..] == [] && scripts[..|commands|] == scripts && commands[..|commands|] == commands;
  }
}
