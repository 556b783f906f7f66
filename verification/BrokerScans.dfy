/** Bluetooth scan commands in a row, through the broker, by callers that offer room for the
    65536 bytes a reply may carry.
 */
module BrokerScans {
  import opened Options
  import opened Wire
  import opened Sockets
  import opened BrokerProtocol
  import opened BrokerDaemon
  import opened BrokerClient
  import BleClient
  import BleDevices

  /** One call: the devices found since the call before, the command, and the connections it
      makes to the broker and the broker makes for it. */
  datatype Call = Call(found: seq<BleDevices.BleRecord>, command: u32, link: Link, btLink: BleClient.Link)

  predicate Undisturbed(call: Call)
  {
    Steady(call.link) && BleClient.PromptDaemon(call.btLink) && BleClient.CalmLink(call.btLink)
  }

  /** Whether a scan runs after these calls: the last start or stop among them decides. */
  predicate ScansAfter(initially: bool, calls: seq<Call>)
  {
    if calls == [] then initially
    else
      var last := calls[|calls| - 1].command;
      if last == 1 then true else if last == 3 then false else ScansAfter(initially, calls[..|calls| - 1])
  }

  /** The list after these calls: devices found are added, and a start that finds the daemon
      idle empties it. */
  function ListAfter(was: BleDevices.Scanner, calls: seq<Call>): seq<BleDevices.BleRecord>
  {
    if calls == [] then was.discovered
    else
      var past, last := calls[..|calls| - 1], calls[|calls| - 1];
      if last.command == 1 && !ScansAfter(was.isScanning, past) then [] else ListAfter(was, past) + last.found
  }

  /** One call answers by what the daemon is doing and changes that; a call for the list brings
      the first 728 devices, whole and in order. */
  method ScanCall(call: Call, daemon: BleDevices.BluetoothDaemon, wifi: Option<WifiPeer>, response: array<byte>)
    returns (rc: i32, length: Option<u32>)
    requires Undisturbed(call) && response.Length == 65536
    modifies response, daemon
    ensures rc == if call.command == 1 && old(daemon.isScanning) then -3 else if 1 <= call.command <= 3 then 0 else -2
    ensures daemon.isScanning ==
              if call.command == 1 then true else if call.command == 3 then false else old(daemon.isScanning)
    ensures daemon.discovered ==
              if call.command == 1 && !old(daemon.isScanning) then [] else old(daemon.discovered) + call.found
    ensures call.command == 2 && |daemon.discovered| * 90 < U32_BOUND ==>
              var n := if |daemon.discovered| < 728 then |daemon.discovered| else 728;
              && length == Some(90 * n)
              && forall i :: 0 <= i < n ==> response[..][i * 90..(i + 1) * 90] == daemon.discovered[i]
  {
    daemon.discovered := daemon.discovered + call.found;
    ghost var was, before := daemon.State(), response[..];
    var services := Services(daemon, Some(call.btLink), wifi);
    ghost var answer;
    rc, length, answer := Dispatch(Some(call.link), true, services, 0x1101, 1, call.command,
                                   None, 0, response, Some(65536));
    assert daemon.State() == BleDevices.Scanner(daemon.isScanning, daemon.discovered);
    if call.command == 2 && |was.discovered| * 90 < U32_BOUND {
      hide LocalCall, Received;
      DevicesThroughBroker(was, daemon.State(), call.btLink, wifi, answer, 65536, rc, length, before, response[..]);
    }
  }

  /** The answer to call i. */
  function Expected(initially: bool, calls: seq<Call>, i: nat): i32
    requires i < |calls|
  {
    if calls[i].command == 1 then (if ScansAfter(initially, calls[..i]) then -3 else 0)
    else if calls[i].command == 2 || calls[i].command == 3 then 0
    else -2
  }

  lemma OneMore(was: BleDevices.Scanner, calls: seq<Call>, i: nat)
    requires i < |calls|
    ensures ScansAfter(was.isScanning, calls[..i + 1]) ==
              if calls[i].command == 1 then true
              else if calls[i].command == 3 then false
              else ScansAfter(was.isScanning, calls[..i])
    ensures Expected(was.isScanning, calls, i) ==
              if calls[i].command == 1 && ScansAfter(was.isScanning, calls[..i]) then -3
              else if 1 <= calls[i].command <= 3 then 0
              else -2
    ensures ListAfter(was, calls[..i + 1]) ==
              if calls[i].command == 1 && !ScansAfter(was.isScanning, calls[..i]) then []
              else ListAfter(was, calls[..i]) + calls[i].found
  {
    assert calls[..i + 1][..i] == calls[..i];
  }

  /** The k-th of several calls, the earlier ones having led from `was` to here. */
  method ScanNext(calls: seq<Call>, k: nat, daemon: BleDevices.BluetoothDaemon, wifi: Option<WifiPeer>,
                  response: array<byte>, ghost was: BleDevices.Scanner)
    returns (rc: i32)
    requires k < |calls| && Undisturbed(calls[k]) && response.Length == 65536
    requires daemon.isScanning == ScansAfter(was.isScanning, calls[..k])
    requires daemon.discovered == ListAfter(was, calls[..k])
    modifies response, daemon
    ensures rc == Expected(was.isScanning, calls, k)
    ensures daemon.isScanning == ScansAfter(was.isScanning, calls[..k + 1])
    ensures daemon.discovered == ListAfter(was, calls[..k + 1])
  {
    hide *;
    OneMore(was, calls, k);
    var length;
    rc, length := ScanCall(calls[k], daemon, wifi, response);
  }

  /** Any number of calls: a start is busy exactly when the last start or stop before it was a
      start, and every other scan command succeeds. */
  method ScanCalls(calls: seq<Call>, daemon: BleDevices.BluetoothDaemon, wifi: Option<WifiPeer>, response: array<byte>)
    returns (rcs: seq<i32>)
    requires forall i :: 0 <= i < |calls| ==> Undisturbed(calls[i])
    requires response.Length == 65536
    modifies response, daemon
    ensures |rcs| == |calls|
    ensures forall i :: 0 <= i < |calls| ==> rcs[i] == Expected(old(daemon.isScanning), calls, i)
    ensures daemon.isScanning == ScansAfter(old(daemon.isScanning), calls)
    ensures daemon.discovered == ListAfter(old(daemon.State()), calls)
  {
    ghost var was, initially := daemon.State(), daemon.isScanning;
    assert was.isScanning == initially;
    assert ScansAfter(initially, calls[..0]) == initially && ListAfter(was, calls[..0]) == daemon.discovered;
    hide *;
    rcs := [];
    for k := 0 to |calls|
      invariant |rcs| == k
      invariant forall i :: 0 <= i < k ==> rcs[i] == Expected(initially, calls, i)
      invariant daemon.isScanning == ScansAfter(initially, calls[..k])
      invariant daemon.discovered == ListAfter(was, calls[..k])
    {
      var rc := ScanNext(calls, k, daemon, wifi, response, was);
      rcs := rcs + [rc];
    }
    assert calls[..|calls|] == calls;
  }

  /** Whatever came before: stop then start answers 0 and 0, start then start answers -3 the
      second time, and the scan ends on as the second command says. */
  method TwoCalls(first: Call, second: Call, daemon: BleDevices.BluetoothDaemon, wifi: Option<WifiPeer>,
                  response: array<byte>)
    returns (rc1: i32, rc2: i32)
    requires Undisturbed(first) && Undisturbed(second) && response.Length == 65536
    requires (first.command == 1 || first.command == 3) && (second.command == 1 || second.command == 3)
    modifies response, daemon
    ensures rc2 == if first.command == 1 && second.command == 1 then -3 else 0
    ensures first.command == 3 ==> rc1 == 0
    ensures daemon.isScanning == (second.command == 1)
    ensures first.command == 3 && second.command == 1 ==> daemon.discovered == []
  {
    var rcs := ScanCalls([first, second], daemon, wifi, response);
    assert [first, second][..1] == [first];
    return rcs[0], rcs[1];
  }
}
