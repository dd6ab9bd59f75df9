// The buffered line readers. `my_read` in C and `ReadBuffer::get_char` in C++ are the same
// cache over a byte stream; each `readline` reads its bytes one at a time through it.
module Readers {
  import opened Bytes
  import opened Lines
  import opened Kernel

  /** The three reader variables: static in C, fields of ReadBuffer in C++. The request
      size is what read(2) is asked for, which in C++ is not the size of the buffer. */
  class ByteCache {
    const readBuf: array<byte>
    const request: nat
    var readCnt: int
    var readPtr: nat

    constructor (capacity: nat, requestSize: nat)
      requires 0 < requestSize <= capacity
      ensures Valid() && fresh(readBuf) && Buffered() == [] && request == requestSize
    {
      readBuf := new byte[capacity];
      request := requestSize;
      readCnt, readPtr := 0, 0;
    }

    ghost predicate Valid()
      reads this
    {
      0 < request <= readBuf.Length && (readCnt > 0 ==> readPtr + readCnt <= readBuf.Length)
    }

    /** The bytes already read from some descriptor and not yet handed out. */
    ghost function Buffered(): seq<byte>
      requires Valid()
      reads this, readBuf
    {
      if readCnt <= 0 then [] else readBuf[readPtr..readPtr + readCnt]
    }

    /** Everything a caller reading from `fd` will still see: the abstract state. The C
        statics do not remember which descriptor filled them, so `fd` is an argument. */
    ghost function Pending(fd: Conn): seq<byte>
      requires Valid()
      reads this, readBuf, fd
    {
      Buffered() + fd.unread
    }

    /** The read(2) part of GetChar: 1 with a filled buffer, 0 at end of file, -1 on a read
        error. An interrupted read is tried again. */
    method Refill(fd: Conn) returns (rc: int)
      requires Valid() && readCnt <= 0
      modifies this, readBuf, fd`unread, fd`signals, fd`errors
      ensures Valid()
      ensures rc == 1 ==> readCnt > 0 && Pending(fd) == old(fd.unread)
      ensures rc != 1 ==> readCnt <= 0 && fd.unread == old(fd.unread) && (rc == -1 || rc == 0)
      ensures rc == 0 ==> fd.unread == []
      ensures fd.errors == old(fd.errors) + if rc == -1 then 1 else 0
      ensures fd.signals <= old(fd.signals)
    {
      while true
        invariant Valid() && readCnt <= 0
        invariant fd.unread == old(fd.unread) && fd.signals <= old(fd.signals) && fd.errors == old(fd.errors)
        decreases fd.signals
      {
        var t := fd.Read(readBuf, 0, request);
        match t {
          case Interrupted =>
            readCnt := -1;
          case Failed =>
            readCnt := -1;
            return -1;
          case Moved(n) =>
            readCnt := n;
            if n == 0 {
              return 0;
            }
            readPtr := 0;
            return 1;
        }
      }
    }

    /** my_read and get_char: 1 with the next byte, 0 at end of file, -1 on a read error. */
    method GetChar(fd: Conn) returns (rc: int, c: byte)
      requires Valid()
      modifies this, readBuf, fd`unread, fd`signals, fd`errors
      ensures Valid()
      ensures rc == 1 || rc == 0 || rc == -1
      ensures rc == 1 ==> old(Pending(fd)) == [c] + Pending(fd)
      ensures rc == 0 ==> old(Pending(fd)) == [] && Pending(fd) == []
      ensures rc == -1 ==> Pending(fd) == old(Pending(fd))
      ensures fd.errors == old(fd.errors) + if rc == -1 then 1 else 0
      ensures fd.signals <= old(fd.signals)
    {
      c := 0;
      if readCnt <= 0 {
        assert Pending(fd) == fd.unread;
        rc := Refill(fd);
        if rc != 1 {
          return;
        }
      }
      ghost var b := Buffered();
      FirstOff(b, fd.unread);
      readCnt := readCnt - 1;
      c := readBuf[readPtr];
      readPtr := readPtr + 1;
      assert Buffered() == b[1..];
      rc := 1;
    }
  }

  lemma FirstOff(b: seq<byte>, rest: seq<byte>)
    requires b != []
    ensures b + rest == [b[0]] + (b[1..] + rest)
  {
  }

  /** Conversion of a size_t to int, as on a machine with 32-bit int. */
  function ToInt(n: nat): int {
    var w := n % 0x1_0000_0000;
    if w < 0x8000_0000 then w else w - 0x1_0000_0000
  }

  /** How many bytes a readline of the given maxlen may store before its NUL. */
  function Room(maxlen: int): nat {
    if maxlen <= 1 then 0 else maxlen - 1
  }

  /** What C readline returns for the line it stored: the length, except that a line cut
      off by maxlen is reported as one byte longer than it is. */
  function ReturnValue(line: seq<byte>, room: nat): nat {
    if |line| == room && !Ends(line, NEWLINE) then room + 1 else |line|
  }

  /** The line a readline of this maxlen takes: of at most maxlen - 1 bytes, and none at all
      when maxlen does not fit an int. */
  lemma RoomIs(line: seq<byte>, stream: seq<byte>, maxlen: nat, delim: byte)
    requires 1 <= maxlen < 0x1_0000_0000
    ensures Room(maxlen) == maxlen - 1
    ensures maxlen < 0x8000_0000 ==>
              (line == TakeLine(stream, Room(ToInt(maxlen)), delim) <==> IsLineOf(line, stream, maxlen - 1, delim))
    ensures maxlen >= 0x8000_0000 ==> TakeLine(stream, Room(ToInt(maxlen)), delim) == []
    ensures forall n: int :: n <= 1 ==> TakeLine(stream, Room(n), delim) == []
  {
    TakeLineUnique(line, stream, maxlen - 1, delim);
  }

  lemma TakeLineStep(stream: seq<byte>, line: seq<byte>, rest: seq<byte>, room: nat, delim: byte)
    requires stream == line + rest
    requires delim !in line && |line| <= room
    requires |line| == room || rest == [] || rest[0] == delim
    ensures TakeLine(stream, room, delim) == if |line| == room || rest == [] then line else line + [delim]
  {
    TakeLineUnique(if |line| == room || rest == [] then line else line + [delim], stream, room, delim);
  }

  lemma Shift(stream: seq<byte>, line: seq<byte>, c: byte, rest: seq<byte>)
    requires stream == line + ([c] + rest)
    ensures stream == (line + [c]) + rest && ([c] + rest)[0] == c
  {
  }

  /** `*ptr++ = c`, except for the increment. */
  method Store(vptr: array<byte>, ptr: nat, c: byte)
    requires ptr < vptr.Length
    modifies vptr
    ensures vptr[..ptr + 1] == old(vptr[..ptr]) + [c]
  {
    vptr[ptr] := c;
  }

  /** The loop of the C readline: the last result of my_read, the loop counter, which starts
      at 1, and how many bytes were stored. */
  method StoreLine(cache: ByteCache, fd: Conn, vptr: array<byte>, limit: int) returns (rc: int, n: int, ptr: nat)
    requires cache.Valid() && vptr != cache.readBuf
    requires 1 <= vptr.Length && limit <= vptr.Length
    modifies cache, cache.readBuf, fd`unread, fd`signals, fd`errors, vptr
    ensures cache.Valid() && fd.signals <= old(fd.signals)
    ensures ptr <= Room(limit) && ptr < vptr.Length && (rc == 1 || rc == 0 || rc == -1)
    ensures old(cache.Pending(fd)) == vptr[..ptr] + cache.Pending(fd)
    ensures rc != -1 ==> vptr[..ptr] == TakeLine(old(cache.Pending(fd)), Room(limit), NEWLINE)
    ensures rc == 1 ==>
              if Ends(vptr[..ptr], NEWLINE) then n == ptr else n == ptr + 1 && ptr == Room(limit)
    ensures rc == 0 ==> n == ptr + 1 && ptr < Room(limit) && !Ends(vptr[..ptr], NEWLINE)
    ensures rc == -1 ==> ptr < Room(limit) && NEWLINE !in vptr[..ptr]
    ensures fd.errors == old(fd.errors) + if rc == -1 then 1 else 0
  {
    ghost var stream, line := cache.Pending(fd), [];
    ghost var room := Room(limit);
    ptr := 0;
    rc, n := 1, 1;
    while n < limit
      invariant cache.Valid() && fd.signals <= old(fd.signals) && fd.errors == old(fd.errors)
      invariant n == ptr + 1 && ptr == |line| && ptr <= room
      invariant vptr[..ptr] == line
      invariant stream == line + cache.Pending(fd)
      invariant NEWLINE !in line && rc == 1
    {
      ghost var before := cache.Pending(fd);
      var c;
      rc, c := cache.GetChar(fd);
      ghost var rest := cache.Pending(fd);
      if rc == 0 {
        TakeLineStep(stream, line, [], room, NEWLINE);
        return;
      }
      if rc == -1 {
        return;
      }
      Shift(stream, line, c, rest);
      Store(vptr, ptr, c);
      ptr := ptr + 1;
      if c == NEWLINE {
        TakeLineStep(stream, line, before, room, NEWLINE);
        return;
      }
      line := line + [c];
      n := n + 1;
    }
    TakeLineStep(stream, line, cache.Pending(fd), room, NEWLINE);
  }

  /** readline (C). The line is stored in vptr with a NUL after it. */
  method Readline(cache: ByteCache, fd: Conn, vptr: array<byte>, maxlen: nat) returns (rc: int)
    requires cache.Valid()
    requires 1 <= maxlen <= vptr.Length
    requires vptr != cache.readBuf
    modifies cache, cache.readBuf, fd`unread, fd`signals, fd`errors, vptr
    ensures cache.Valid() && fd.signals <= old(fd.signals)
    ensures rc >= -1
    ensures fd.errors == old(fd.errors) + if rc == -1 then 1 else 0
    ensures rc >= 0 ==>
              var line := TakeLine(old(cache.Pending(fd)), Room(ToInt(maxlen)), NEWLINE);
              && rc == ReturnValue(line, Room(ToInt(maxlen)))
              && |line| < vptr.Length
              && vptr[..|line|] == line && vptr[|line|] == NUL
              && old(cache.Pending(fd)) == line + cache.Pending(fd)
    ensures rc == -1 ==> exists ptr ::
              && 0 <= ptr < vptr.Length && ptr < Room(ToInt(maxlen))
              && NEWLINE !in vptr[..ptr] && old(cache.Pending(fd)) == vptr[..ptr] + cache.Pending(fd)
  {
    var limit := ToInt(maxlen);
    var r, n, ptr := StoreLine(cache, fd, vptr, limit);
    if r == -1 {
      return -1;
    }
    ghost var line, rest := vptr[..ptr], cache.Pending(fd);
    vptr[ptr] := NUL;
    assert vptr[..ptr] == line && cache.Pending(fd) == rest;
    rc := if r == 0 then n - 1 else n;
  }

  lemma StoredString(buf: seq<byte>, line: seq<byte>)
    requires |line| < |buf| && buf[..|line|] == line && buf[|line|] == NUL
    ensures CString(buf) == CString(line)
  {
    assert buf == line + [NUL] + buf[|line| + 1..];
    CStringStopsAtNul(line, buf[|line| + 1..]);
  }

  datatype LineResult = Line(text: seq<byte>) | ReadError

  /** ReadBuffer::Readline (C++), with its delimiter argument. */
  method ReadBufferLine(cache: ByteCache, fd: Conn, maxlen: int, delim: byte) returns (r: LineResult)
    requires cache.Valid()
    modifies cache, cache.readBuf, fd`unread, fd`signals, fd`errors
    ensures cache.Valid() && fd.signals <= old(fd.signals)
    ensures r.Line? ==>
              && r.text == TakeLine(old(cache.Pending(fd)), Room(maxlen), delim)
              && old(cache.Pending(fd)) == r.text + cache.Pending(fd)
    ensures r.ReadError? ==> exists lost: seq<byte> ::
              |lost| < Room(maxlen) && delim !in lost && old(cache.Pending(fd)) == lost + cache.Pending(fd)
    ensures fd.errors == old(fd.errors) + if r.ReadError? then 1 else 0
  {
    ghost var stream := cache.Pending(fd);
    ghost var room := Room(maxlen);
    var n := 1;
    var line: seq<byte> := [];
    while n < maxlen
      invariant cache.Valid() && fd.signals <= old(fd.signals) && fd.errors == old(fd.errors)
      invariant n == |line| + 1 && |line| <= room
      invariant stream == line + cache.Pending(fd)
      invariant delim !in line
    {
      ghost var before := cache.Pending(fd);
      var rc, c := cache.GetChar(fd);
      ghost var rest := cache.Pending(fd);
      if rc == 1 {
        Shift(stream, line, c, rest);
        if c == delim {
          TakeLineStep(stream, line, before, room, delim);
          return Line(line + [c]);
        }
        line := line + [c];
      } else if rc == 0 {
        TakeLineStep(stream, line, [], room, delim);
        return Line(line);
      } else {
        return ReadError;
      }
      n := n + 1;
    }
    TakeLineStep(stream, line, cache.Pending(fd), room, delim);
    r := Line(line);
  }

  /** The lines that calls with the given room each take, one after the other. */
  function Reads(stream: seq<byte>, rooms: seq<nat>, delim: byte): (lines: seq<seq<byte>>)
    ensures |lines| == |rooms|
  {
    if rooms == [] then []
    else
      TakeLineIsLine(stream, rooms[0], delim);
      var line := TakeLine(stream, rooms[0], delim);
      [line] + Reads(stream[|line|..], rooms[1..], delim)
  }

  function Rooms(maxlens: seq<int>): (rooms: seq<nat>)
    ensures |rooms| == |maxlens|
    ensures forall i :: 0 <= i < |rooms| ==> rooms[i] == Room(maxlens[i])
  {
    seq(|maxlens|, i requires 0 <= i < |maxlens| => Room(maxlens[i]))
  }

  lemma NextRead(lines: seq<seq<byte>>, stream: seq<byte>, rest: seq<byte>, rooms: seq<nat>, i: nat, delim: byte)
    requires i < |rooms| && stream == TakeLine(stream, rooms[i], delim) + rest
    ensures lines + Reads(stream, rooms[i..], delim)
         == (lines + [TakeLine(stream, rooms[i], delim)]) + Reads(rest, rooms[i + 1..], delim)
  {
    TakeLineIsLine(stream, rooms[i], delim);
    assert rest == stream[|TakeLine(stream, rooms[i], delim)|..];
    assert rooms[i..][1..] == rooms[i + 1..];
  }

  /** Any sequence of Readline calls on one ReadBuffer: unless a read fails, the lines are
      decided by the stream and the maxlen arguments alone, whatever the kernel and the
      request size do, and the rest of the stream is still pending. */
  method ReadLines(cache: ByteCache, fd: Conn, maxlens: seq<int>, delim: byte)
    returns (lines: seq<seq<byte>>, failed: bool)
    requires cache.Valid()
    modifies cache, cache.readBuf, fd`unread, fd`signals, fd`errors
    ensures cache.Valid()
    ensures var all := Reads(old(cache.Pending(fd)), Rooms(maxlens), delim);
            if failed then lines <= all else lines == all
    ensures !failed ==> old(cache.Pending(fd)) == Concat(lines) + cache.Pending(fd)
    ensures fd.errors == old(fd.errors) + if failed then 1 else 0
  {
    ghost var stream, rooms := cache.Pending(fd), Rooms(maxlens);
    ghost var whole, all := stream, Reads(stream, rooms, delim);
    lines, failed := [], false;
    var i := 0;
    assert rooms[0..] == rooms && [] + all == all;
    while i < |maxlens|
      invariant cache.Valid() && 0 <= i <= |maxlens|
      invariant stream == cache.Pending(fd) && whole == Concat(lines) + stream
      invariant fd.errors == old(fd.errors)
      invariant all == lines + Reads(stream, rooms[i..], delim)
    {
      var r := ReadBufferLine(cache, fd, maxlens[i], delim);
      if r.ReadError? {
        failed := true;
        return;
      }
      NextRead(lines, stream, cache.Pending(fd), rooms, i, delim);
      ConcatSnoc(lines, r.text);
      Assoc(Concat(lines), r.text, cache.Pending(fd));
      stream := cache.Pending(fd);
      lines := lines + [r.text];
      i := i + 1;
    }
  }

  /** The rooms that C readline makes of its maxlen arguments. */
  function RoomsC(maxlens: seq<nat>): (rooms: seq<nat>)
    ensures |rooms| == |maxlens|
    ensures forall i :: 0 <= i < |rooms| ==> rooms[i] == Room(ToInt(maxlens[i]))
  {
    seq(|maxlens|, i requires 0 <= i < |maxlens| => Room(ToInt(maxlens[i])))
  }

  /** What C readline stores and returns for these lines. */
  predicate Stored(strings: seq<seq<byte>>, counts: seq<int>, lines: seq<seq<byte>>, rooms: seq<nat>) {
    && |strings| == |counts| == |lines| <= |rooms|
    && forall i :: 0 <= i < |lines| ==> strings[i] == CString(lines[i]) && counts[i] == ReturnValue(lines[i], rooms[i])
  }

  lemma StoredNext(strings: seq<seq<byte>>, counts: seq<int>, lines: seq<seq<byte>>, rooms: seq<nat>, line: seq<byte>)
    requires Stored(strings, counts, lines, rooms) && |lines| < |rooms|
    ensures var count := ReturnValue(line, rooms[|lines|]);
            Stored(strings + [CString(line)], counts + [count], lines + [line], rooms)
  {
  }

  /** A C readline call, with the string it leaves in the array. */
  method ReadString(cache: ByteCache, fd: Conn, vptr: array<byte>, maxlen: nat) returns (rc: int, text: seq<byte>)
    requires cache.Valid() && vptr != cache.readBuf && 1 <= maxlen <= vptr.Length
    modifies cache, cache.readBuf, fd`unread, fd`signals, fd`errors, vptr
    ensures cache.Valid()
    ensures fd.errors == old(fd.errors) + if rc == -1 then 1 else 0
    ensures rc != -1 ==>
              var line := TakeLine(old(cache.Pending(fd)), Room(ToInt(maxlen)), NEWLINE);
              && text == CString(line) && rc == ReturnValue(line, Room(ToInt(maxlen)))
              && old(cache.Pending(fd)) == line + cache.Pending(fd)
  {
    ghost var line := TakeLine(cache.Pending(fd), Room(ToInt(maxlen)), NEWLINE);
    rc := Readline(cache, fd, vptr, maxlen);
    text := CString(vptr[..]);
    if rc != -1 {
      StoredString(vptr[..], line);
    }
  }

  /** Any sequence of C readline calls, with one array and any maxlen arguments: unless a read
      fails, the strings stored and the counts returned are those of the same lines. */
  method ReadLinesC(cache: ByteCache, fd: Conn, vptr: array<byte>, maxlens: seq<nat>)
    returns (strings: seq<seq<byte>>, counts: seq<int>, failed: bool)
    requires cache.Valid() && vptr != cache.readBuf
    requires forall i :: 0 <= i < |maxlens| ==> 1 <= maxlens[i] <= vptr.Length
    modifies cache, cache.readBuf, fd`unread, fd`signals, fd`errors, vptr
    ensures cache.Valid()
    ensures var all := Reads(old(cache.Pending(fd)), RoomsC(maxlens), NEWLINE);
            && |strings| <= |all| && Stored(strings, counts, all[..|strings|], RoomsC(maxlens))
            && (!failed ==> |strings| == |all| && old(cache.Pending(fd)) == Concat(all) + cache.Pending(fd))
    ensures fd.errors == old(fd.errors) + if failed then 1 else 0
  {
    ghost var stream, rooms := cache.Pending(fd), RoomsC(maxlens);
    ghost var whole, all, lines := stream, Reads(stream, rooms, NEWLINE), [];
    strings, counts, failed := [], [], false;
    assert rooms[0..] == rooms && [] + all == all;
    for i := 0 to |maxlens|
      invariant cache.Valid()
      invariant stream == cache.Pending(fd) && whole == Concat(lines) + stream
      invariant fd.errors == old(fd.errors)
      invariant all == lines + Reads(stream, rooms[i..], NEWLINE)
      invariant |lines| == i && Stored(strings, counts, lines, rooms)
    {
      var rc, text := ReadString(cache, fd, vptr, maxlens[i]);
      if rc == -1 {
        assert all[..i] == lines;
        failed := true;
        return;
      }
      ghost var line := TakeLine(stream, rooms[i], NEWLINE);
      NextRead(lines, stream, cache.Pending(fd), rooms, i, NEWLINE);
      ConcatSnoc(lines, line);
      Assoc(Concat(lines), line, cache.Pending(fd));
      StoredNext(strings, counts, lines, rooms, line);
      stream := cache.Pending(fd);
      lines := lines + [line];
      strings, counts := strings + [text], counts + [rc];
    }
    assert lines + [] == lines == all[..|lines|];
  }

  /** Calls with one and the same room, k of them, take the first k lines of the stream and
      then, at end of file, nothing. */
  lemma {:induction false} ReadsAreLines(stream: seq<byte>, room: nat, k: nat, delim: byte)
    requires room > 0
    ensures var lines := SplitLines(stream, room, delim);
            Reads(stream, seq(k, _ => room), delim) ==
            if k <= |lines| then lines[..k] else lines + seq(k - |lines|, _ => [])
  {
    if k > 0 {
      TakeLineIsLine(stream, room, delim);
      var line := TakeLine(stream, room, delim);
      var rest := stream[|line|..];
      var lines := SplitLines(stream, room, delim);
      assert seq(k, _ => room)[1..] == seq(k - 1, _ => room);
      ReadsAreLines(rest, room, k - 1, delim);
      if stream == [] {
        assert lines == [] && rest == [];
        assert seq<seq<byte>>(k, _ => []) == [[]] + seq(k - 1, _ => []);
      } else {
        assert lines == [line] + SplitLines(rest, room, delim);
      }
    }
  }

  /** What the C return value tells: 0 exactly at end of file, maxlen (one more than was
      stored) exactly when a line was cut off, and otherwise the length stored. */
  lemma ReturnValueIff(stream: seq<byte>, room: nat)
    requires room > 0
    ensures var line := TakeLine(stream, room, NEWLINE);
            && (ReturnValue(line, room) == 0 <==> stream == [])
            && (ReturnValue(line, room) == room + 1 <==> room <= |stream| && NEWLINE !in stream[..room])
            && (ReturnValue(line, room) == |line| <==> Ends(line, NEWLINE) || (line == stream && |line| < room))
  {
    TakeLineIsLine(stream, room, NEWLINE);
    if room <= |stream| {
      TakeLineUnique(stream[..room], stream, room, NEWLINE);
    }
  }
}
