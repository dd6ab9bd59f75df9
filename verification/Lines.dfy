// What "read one line" means on a plain byte stream: the specification that the
// buffered readers, fgets and the echo client are measured against.
module Lines {
  import opened Bytes

  /** The bytes one bounded line read takes from `stream`: up to and including the
      delimiter, and never more than `room`. */
  function TakeLine(stream: seq<byte>, room: nat, delim: byte): seq<byte> {
    if room == 0 || stream == [] then []
    else if stream[0] == delim then [delim]
    else [stream[0]] + TakeLine(stream[1..], room - 1, delim)
  }

  predicate Ends(line: seq<byte>, delim: byte) {
    line != [] && line[|line| - 1] == delim
  }

  /** The delimiter is at most the last byte. */
  predicate OneLine(line: seq<byte>, delim: byte) {
    forall i :: 0 <= i < |line| - 1 ==> line[i] != delim
  }

  /** `line` is a longest prefix of `stream` that stays within one line and `room` bytes. */
  predicate IsLineOf(line: seq<byte>, stream: seq<byte>, room: nat, delim: byte) {
    && line <= stream
    && |line| <= room
    && OneLine(line, delim)
    && (Ends(line, delim) || |line| == room || line == stream)
  }

  lemma {:induction false} TakeLineIsLine(stream: seq<byte>, room: nat, delim: byte)
    ensures IsLineOf(TakeLine(stream, room, delim), stream, room, delim)
  {
    if room != 0 && stream != [] && stream[0] != delim {
      TakeLineIsLine(stream[1..], room - 1, delim);
    }
  }

  /** TakeLine is the only answer to its specification. */
  lemma TakeLineUnique(line: seq<byte>, stream: seq<byte>, room: nat, delim: byte)
    ensures IsLineOf(line, stream, room, delim) <==> line == TakeLine(stream, room, delim)
  {
    TakeLineIsLine(stream, room, delim);
    // Two prefixes of one stream: if one were shorter, it would have no reason to stop.
    var t := TakeLine(stream, room, delim);
    if IsLineOf(line, stream, room, delim) {
      assert line == stream[..|line|] && t == stream[..|t|];
    }
  }

  /** The line is over whatever comes next: it has its delimiter, or it is full. */
  predicate Complete(line: seq<byte>, room: nat, delim: byte) {
    Ends(line, delim) || |line| == room
  }

  /** A piece that a line read gives back as it is, whatever bytes follow it. */
  predicate Exact(piece: seq<byte>, room: nat, delim: byte) {
    && piece != []
    && |piece| <= room
    && OneLine(piece, delim)
    && Complete(piece, room, delim)
  }

  lemma ExactIff(piece: seq<byte>, room: nat, delim: byte)
    requires room > 0
    ensures Exact(piece, room, delim) <==>
            piece != [] && forall rest :: TakeLine(piece + rest, room, delim) == piece
  {
    forall rest | Exact(piece, room, delim)
      ensures TakeLine(piece + rest, room, delim) == piece
    {
      TakeLineUnique(piece, piece + rest, room, delim);
    }
    if piece != [] && forall rest :: TakeLine(piece + rest, room, delim) == piece {
      var other: byte := if delim == 0 then 1 else 0;
      TakeLineIsLine(piece + [other], room, delim);
      assert TakeLine(piece + [other], room, delim) == piece;
    }
  }

  /** The stream cut into the lines that successive reads return. */
  function SplitLines(stream: seq<byte>, room: nat, delim: byte): (lines: seq<seq<byte>>)
    requires room > 0
  {
    if stream == [] then []
    else
      var line := TakeLine(stream, room, delim);
      TakeLineIsLine(stream, room, delim);
      [line] + SplitLines(stream[|line|..], room, delim)
  }

  predicate AllExact(lines: seq<seq<byte>>, room: nat, delim: byte) {
    forall i :: 0 <= i < |lines| ==> Exact(lines[i], room, delim)
  }

  /** Reading to the end partitions the stream: nothing is lost, added or reordered, and
      only the last line can lack both its delimiter and its full length. */
  lemma {:induction false} SplitLinesPartition(stream: seq<byte>, room: nat, delim: byte)
    requires room > 0
    ensures Concat(SplitLines(stream, room, delim)) == stream
    ensures var lines := SplitLines(stream, room, delim);
            forall i :: 0 <= i < |lines| ==>
              && 0 < |lines[i]| <= room
              && OneLine(lines[i], delim)
              && (i < |lines| - 1 ==> Exact(lines[i], room, delim))
  {
    if stream != [] {
      var line := TakeLine(stream, room, delim);
      TakeLineIsLine(stream, room, delim);
      SplitLinesPartition(stream[|line|..], room, delim);
    }
  }

  lemma AllExactCons(line: seq<byte>, lines: seq<seq<byte>>, room: nat, delim: byte)
    ensures AllExact([line] + lines, room, delim) <==>
            Exact(line, room, delim) && AllExact(lines, room, delim)
  {
    if AllExact([line] + lines, room, delim) {
      assert Exact(([line] + lines)[0], room, delim);
      forall i | 0 <= i < |lines| ensures Exact(lines[i], room, delim) {
        assert Exact(([line] + lines)[i + 1], room, delim);
      }
    }
  }

  /** One exact line is cut off, whatever follows it. */
  lemma SplitLinesStep(line: seq<byte>, tail: seq<byte>, room: nat, delim: byte)
    requires room > 0 && Exact(line, room, delim)
    ensures SplitLines(line + tail, room, delim) == [line] + SplitLines(tail, room, delim)
  {
    TakeLineUnique(line, line + tail, room, delim);
    assert (line + tail)[|line|..] == tail;
  }

  /** Exact lines are cut off one by one, whatever follows them. */
  lemma {:induction false} SplitLinesExact(lines: seq<seq<byte>>, rest: seq<byte>, room: nat, delim: byte)
    requires room > 0 && AllExact(lines, room, delim)
    ensures SplitLines(Concat(lines) + rest, room, delim) == lines + SplitLines(rest, room, delim)
  {
    if lines == [] {
      assert Concat(lines) + rest == rest;
    } else {
      var line, others := lines[0], lines[1..];
      assert lines == [line] + others;
      AllExactCons(line, others, room, delim);
      SplitLinesExact(others, rest, room, delim);
      SplitLinesStep(line, Concat(others) + rest, room, delim);
      assert Concat(lines) + rest == line + (Concat(others) + rest);
    }
  }

  /** The last line is exact unless the stream stops in the middle of a line. */
  lemma {:induction false} SplitLinesAllExactIff(stream: seq<byte>, room: nat, delim: byte)
    requires room > 0
    ensures var lines := SplitLines(stream, room, delim);
            AllExact(lines, room, delim) <==>
            stream == [] || Ends(stream, delim) || |lines[|lines| - 1]| == room
  {
    if stream != [] {
      var line := TakeLine(stream, room, delim);
      TakeLineIsLine(stream, room, delim);
      var rest := stream[|line|..];
      SplitLinesAllExactIff(rest, room, delim);
      if rest == [] {
        assert line == stream;
      } else {
        assert SplitLines(stream, room, delim)[1..] == SplitLines(rest, room, delim);
        assert stream[|stream| - 1] == rest[|rest| - 1];
        AllExactCons(line, SplitLines(rest, room, delim), room, delim);
      }
    }
  }
}
