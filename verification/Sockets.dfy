/** Stream sockets: a queue of bytes in each direction and a script that decides, call by
    call, whether read and write are interrupted, fail, or move only part of what was asked.
 */
module Sockets {
  import opened Wire

  const STATUS_OK: i32 := 0
  const STATUS_ERROR: i32 := -1

  /** One system call: EINTR, another error, or a transfer of at most `limit` bytes. */
  datatype Outcome = Interrupted | Failed | Moves(limit: nat)

  datatype Errno = NoError | EINTR | OtherError

  /** A connection that is interrupted finitely often and never breaks. A call beyond the end
      of the script moves everything it can. */
  predicate Reliable(script: seq<Outcome>)
  {
    Failed !in script
  }

  function AtMost(limit: nat, n: nat): (m: nat)
    requires n > 0
    ensures 0 < m <= n && (limit >= n ==> m == n) && (0 < limit < n ==> m == limit)
  {
    if limit == 0 then 1 else if limit < n then limit else n
  }

  /** How many bytes a call moves when the outcome at hand lets it move any. */
  function Quota(script: seq<Outcome>, n: nat): (m: nat)
    requires n > 0
    ensures m <= n
  {
    if script != [] && script[0].Moves? then AtMost(script[0].limit, n) else n
  }

  predicate NextMoves(script: seq<Outcome>)
  {
    script == [] || script[0].Moves?
  }

  /** The script after one call. */
  function Later(script: seq<Outcome>): seq<Outcome>
  {
    if script == [] then [] else script[1..]
  }

  /** Two adjacent transfers are one. */
  lemma Grown(stream: seq<byte>, done: nat, n: nat, first: seq<byte>, second: seq<byte>, both: seq<byte>)
    requires done + n <= |stream| && |first| == done && both == first + second
    requires first == stream[..done] && second == stream[done..][..n]
    ensures both == stream[..done + n] && stream[done..][n..] == stream[done + n..]
  {
  }

  class Connection {
    var incoming: seq<byte>
    var outgoing: seq<byte>
    var readScript: seq<Outcome>
    var writeScript: seq<Outcome>

    constructor (incoming: seq<byte>, readScript: seq<Outcome>, writeScript: seq<Outcome>)
      ensures this.incoming == incoming && outgoing == []
      ensures this.readScript == readScript && this.writeScript == writeScript
    {
      this.incoming, outgoing := incoming, [];
      this.readScript, this.writeScript := readScript, writeScript;
    }

    ghost predicate Sound()
      reads this
    {
      Reliable(readScript) && Reliable(writeScript)
    }

    /** read(2) into `buffer` at `at`. The peer has said all it will: an empty queue is the
        end of the stream. */
    method Read(buffer: array<byte>, at: nat, length: nat) returns (n: int, errno: Errno)
      requires 0 < length && at + length <= buffer.Length
      modifies `incoming, `readScript, buffer
      ensures -1 <= n <= length && n <= |old(incoming)|
      ensures n >= 0 ==> incoming == old(incoming)[n..] && errno == NoError
      ensures n >= 0 ==> buffer[at..at + n] == old(incoming)[..n]
      ensures forall i :: 0 <= i < buffer.Length && !(at <= i < at + n) ==> buffer[i] == old(buffer[i])
      ensures n < 0 ==> incoming == old(incoming) && errno != NoError
      ensures n == 0 ==> old(incoming) == []
      ensures NextMoves(old(readScript)) ==>
                var q := Quota(old(readScript), length);
                n == if q < |old(incoming)| then q else |old(incoming)|
      ensures readScript == Later(old(readScript))
      ensures n < 0 <==> old(readScript) != [] && !old(readScript)[0].Moves?
      ensures n < 0 ==> errno == if old(readScript)[0].Failed? then OtherError else EINTR
      ensures errno == OtherError ==> Failed in old(readScript)
      ensures forall o :: o in readScript ==> o in old(readScript)
    {
      var outcome := if readScript == [] then Moves(length) else readScript[0];
      readScript := Later(readScript);
      match outcome {
        case Interrupted => return -1, EINTR;
        case Failed => return -1, OtherError;
        case Moves(limit) =>
          if incoming == [] {
            return 0, NoError;
          }
          var want := AtMost(limit, length);
          n := if want < |incoming| then want else |incoming|;
          forall i | 0 <= i < n {
            buffer[at + i] := incoming[i];
          }
          incoming := incoming[n..];
          errno := NoError;
      }
    }

    /** write(2) of `data` from `at`. */
    method Write(data: seq<byte>, at: nat) returns (n: int, errno: Errno)
      requires at < |data|
      modifies `outgoing, `writeScript
      ensures n == -1 || 0 < n <= |data| - at
      ensures n > 0 ==> outgoing == old(outgoing) + data[at..at + n] && errno == NoError
      ensures NextMoves(old(writeScript)) ==> n == Quota(old(writeScript), |data| - at)
      ensures n < 0 ==> outgoing == old(outgoing) && errno != NoError
      ensures writeScript == Later(old(writeScript))
      ensures n < 0 <==> old(writeScript) != [] && !old(writeScript)[0].Moves?
      ensures n < 0 ==> errno == if old(writeScript)[0].Failed? then OtherError else EINTR
      ensures errno == OtherError ==> Failed in old(writeScript)
      ensures forall o :: o in writeScript ==> o in old(writeScript)
    {
      var outcome := if writeScript == [] then Moves(|data| - at) else writeScript[0];
      writeScript := Later(writeScript);
      match outcome {
        case Interrupted => return -1, EINTR;
        case Failed => return -1, OtherError;
        case Moves(limit) =>
          n := AtMost(limit, |data| - at);
          outgoing := outgoing + data[at..at + n];
          errno := NoError;
      }
    }

    /** read_full and broker_read_full: the same loop in the daemon and in the client. */
    method ReadFull(buffer: array<byte>, length: nat) returns (rc: i32)
      requires length <= buffer.Length
      modifies `incoming, `readScript, buffer
      ensures rc == STATUS_OK || rc == STATUS_ERROR
      ensures rc == STATUS_OK ==>
                length <= |old(incoming)| && incoming == old(incoming)[length..] &&
                buffer[..length] == old(incoming)[..length]
      ensures Reliable(old(readScript)) ==> Reliable(readScript) && (rc == STATUS_OK <==> length <= |old(incoming)|)
      ensures buffer[length..] == old(buffer[length..])
    {
      var done := 0;
      while done < length
        invariant done <= length && done <= |old(incoming)|
        invariant incoming == old(incoming)[done..]
        invariant buffer[..done] == old(incoming)[..done]
        invariant forall i :: done <= i < buffer.Length ==> buffer[i] == old(buffer[i])
        invariant forall o :: o in readScript ==> o in old(readScript)
        decreases length - done, |readScript|
      {
        var n, errno := Read(buffer, done, length - done);
        if n < 0 {
          if errno == EINTR {
            continue;
          }
          return STATUS_ERROR;
        }
        if n == 0 {
          return STATUS_ERROR;
        }
        Grown(old(incoming), done, n, buffer[..done], buffer[done..done + n], buffer[..done + n]);
        done := done + n;
      }
      return STATUS_OK;
    }

    /** write_full and broker_write_full. */
    method WriteFull(data: seq<byte>) returns (rc: i32)
      modifies `outgoing, `writeScript
      ensures rc == STATUS_OK || rc == STATUS_ERROR
      ensures rc == STATUS_OK ==> outgoing == old(outgoing) + data
      ensures Reliable(old(writeScript)) ==> Reliable(writeScript) && rc == STATUS_OK
      ensures data != [] && old(writeScript) != [] && old(writeScript)[0].Failed? ==>
                rc == STATUS_ERROR && outgoing == old(outgoing)
    {
      var done := 0;
      while done < |data|
        invariant done <= |data| && outgoing == old(outgoing) + data[..done]
        invariant old(writeScript) != [] && old(writeScript)[0].Failed? ==> writeScript == old(writeScript) && done == 0
        invariant forall o :: o in writeScript ==> o in old(writeScript)
        decreases |data| - done, |writeScript|
      {
        var n, errno := Write(data, done);
        if n < 0 {
          if errno == EINTR {
            continue;
          }
          return STATUS_ERROR;
        }
        assert data[..done + n] == data[..done] + data[done..done + n];
        done := done + n;
      }
      return STATUS_OK;
    }

    /** The discard loop for a reply that does not fit: 256 bytes at a time. */
    method Drain(length: nat)
      modifies `incoming, `readScript
      ensures Reliable(old(readScript)) ==>
                Reliable(readScript) && (length <= |old(incoming)| ==> incoming == old(incoming)[length..])
    {
      var discard := new byte[256];
      var remaining := length;
      while remaining > 0
        invariant 0 <= remaining <= length
        invariant Reliable(old(readScript)) && length <= |old(incoming)| ==>
                    |incoming| == |old(incoming)| - (length - remaining) &&
                    incoming == old(incoming)[length - remaining..]
        invariant Reliable(old(readScript)) ==> Reliable(readScript)
      {
        var chunk := if remaining < 256 then remaining else 256;
        var rc := ReadFull(discard, chunk);
        if rc != STATUS_OK {
          assert !(Reliable(old(readScript)) && length <= |old(incoming)|);
          break;
        }
        remaining := remaining - chunk;
      }
    }
  }
}
