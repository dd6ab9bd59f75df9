// One end of a stream connection, as the system calls present it. The kernel decides how
// much each call moves, when a signal interrupts it and when it fails; callers know only
// the postconditions, so what is proved of them holds for every such choice.
module Kernel {
  import opened Bytes

  datatype Transfer = Moved(n: nat) | Interrupted | Failed

  // No single transfer moves more than this many bytes, so a count fits an int.
  const MAX_TRANSFER := 0x7fff_f000

  class Conn {
    var unread: seq<byte>  // every byte the peer delivers before end of file, not yet read
    var sent: seq<byte>    // every byte accepted for the peer
    var signals: nat       // how many more calls a signal will interrupt
    ghost var errors: nat  // history: the calls that failed
    ghost var cut: nat     // history: the sends that did not take all their data, for whatever reason

    constructor (incoming: seq<byte>, interruptions: nat)
      ensures unread == incoming && sent == [] && signals == interruptions && errors == cut == 0
    {
      unread, sent, signals, errors, cut := incoming, [], interruptions, 0, 0;
    }

    /** read(2) and recv(2): blocks until there is at least one byte, or end of file. */
    method Read(buf: array<byte>, off: nat, len: nat) returns (t: Transfer)
      requires off + len <= buf.Length
      modifies this`unread, this`signals, this`errors, buf
      ensures t.Moved? ==>
                && t.n <= len && t.n <= |old(unread)| && t.n <= MAX_TRANSFER
                && (t.n == 0 <==> len == 0 || old(unread) == [])
                && buf[off..off + t.n] == old(unread)[..t.n]
                && unread == old(unread)[t.n..]
                && signals == old(signals)
      ensures !t.Moved? ==> unread == old(unread) && buf[..] == old(buf[..])
      ensures t.Interrupted? ==> signals < old(signals)
      ensures t.Failed? ==> signals == old(signals)
      ensures errors == old(errors) + if t.Failed? then 1 else 0
      ensures forall i :: 0 <= i < buf.Length && (i < off || off + len <= i) ==> buf[i] == old(buf[i])
    {
      if signals > 0 {
        if * {
          signals := signals - 1;
          return Interrupted;
        }
      }
      if * {
        errors := errors + 1;
        return Failed;
      }
      var limit := if len < |unread| then len else |unread|;
      var n: nat := 0;
      if limit > 0 {
        n :| 1 <= n <= limit && n <= MAX_TRANSFER;
      }
      forall i | 0 <= i < n {
        buf[off + i] := unread[i];
      }
      assert buf[off..off + n] == unread[..n];
      unread := unread[n..];
      t := Moved(n);
    }

    /** send(2): accepts some prefix of the data. To accept nothing of it counts as failing. */
    method Send(data: seq<byte>) returns (t: Transfer)
      modifies this`sent, this`signals, this`errors, this`cut
      ensures t.Moved? ==> t.n <= |data| && t.n <= MAX_TRANSFER
      ensures t.Moved? ==> sent == old(sent) + data[..t.n] && signals == old(signals)
      ensures !t.Moved? ==> sent == old(sent)
      ensures t.Interrupted? ==> signals < old(signals)
      ensures t.Failed? ==> signals == old(signals)
      ensures errors == old(errors) + if t.Failed? || (t == Moved(0) && data != []) then 1 else 0
      ensures cut == old(cut) + if t == Moved(|data|) then 0 else 1
    {
      if signals > 0 {
        if * {
          signals, cut := signals - 1, cut + 1;
          return Interrupted;
        }
      }
      if * {
        errors, cut := errors + 1, cut + 1;
        return Failed;
      }
      var n: nat :| n <= |data| && n <= MAX_TRANSFER;
      if n < |data| {
        cut := cut + 1;
        errors := errors + if n == 0 then 1 else 0;
      }
      sent := sent + data[..n];
      t := Moved(n);
    }
  }
}
