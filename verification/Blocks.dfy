// Length-prefixed blocks on a byte stream. The header is a 4-byte big-endian word (network
// order, Appendix B of RFC 791); a session is a list of blocks closed by an empty one.
module Blocks {
  import opened Bytes
  import opened Kernel
  import opened WrapSock

  const HEADER: nat := 4
  const WORD: nat := 0x1_0000_0000  // block_length is a uint32_t

  /** The last k bytes of a number, most significant first. */
  function BigEndian(n: nat, k: nat): (h: seq<byte>)
    ensures |h| == k
  {
    if k == 0 then [] else BigEndian(n / 0x100, k - 1) + [n % 0x100]
  }

  function Number(h: seq<byte>): nat {
    if h == [] then 0 else 0x100 * Number(h[..|h| - 1]) + h[|h| - 1]
  }

  /** 256 to the power k. */
  function Range(k: nat): nat {
    if k == 0 then 1 else 0x100 * Range(k - 1)
  }

  function Header(n: nat): seq<byte>
    requires n < WORD
  {
    BigEndian(n, HEADER)
  }

  function HeaderValue(h: seq<byte>): nat
    requires |h| == HEADER
  {
    Number(h)
  }

  lemma {:induction false} NumberOfBigEndian(n: nat, k: nat)
    requires n < Range(k)
    ensures Number(BigEndian(n, k)) == n
  {
    if k > 0 {
      NumberOfBigEndian(n / 0x100, k - 1);
      assert BigEndian(n, k)[..k - 1] == BigEndian(n / 0x100, k - 1);
    }
  }

  lemma {:induction false} BigEndianOfNumber(h: seq<byte>)
    ensures Number(h) < Range(|h|) && BigEndian(Number(h), |h|) == h
  {
    if h != [] {
      BigEndianOfNumber(h[..|h| - 1]);
      assert Number(h) / 0x100 == Number(h[..|h| - 1]);
    }
  }

  lemma WordIsRange()
    ensures Range(HEADER) == WORD
  {
    assert Range(2) == 0x1_0000;
  }

  lemma HeaderRoundTrip(n: nat)
    requires n < WORD
    ensures HeaderValue(Header(n)) == n
  {
    WordIsRange();
    NumberOfBigEndian(n, HEADER);
  }

  /** Every 4 bytes are the header of exactly the length they decode to. */
  lemma HeaderCanonical(h: seq<byte>)
    requires |h| == HEADER
    ensures HeaderValue(h) < WORD && Header(HeaderValue(h)) == h
  {
    WordIsRange();
    BigEndianOfNumber(h);
  }

  /** What PutBlock writes. The header holds the length modulo 2^32. */
  function Frame(message: seq<byte>): seq<byte> {
    Header(|message| % WORD) + message
  }

  function Frames(messages: seq<seq<byte>>): seq<byte> {
    if messages == [] then [] else Frame(messages[0]) + Frames(messages[1..])
  }

  /** A client's whole output: its messages, then the empty block. */
  function SessionBytes(messages: seq<seq<byte>>): seq<byte> {
    Frames(messages) + Frame([])
  }

  /** The bytes on the wire: the length modulo 2^32, most significant byte first, then the
      message; and four zero bytes at the end of a session. */
  lemma FrameBytes(message: seq<byte>, messages: seq<seq<byte>>)
    ensures var n := |message| % 0x1_0000_0000;
            Frame(message) == [n / 0x100_0000, n / 0x1_0000 % 0x100, n / 0x100 % 0x100, n % 0x100] + message
    ensures SessionBytes(messages) == Frames(messages) + [0, 0, 0, 0]
  {
    HeaderBytes(|message| % WORD);
    HeaderBytes(0);
  }

  lemma HeaderBytes(n: nat)
    requires n < WORD
    ensures Header(n) == [n / 0x100_0000, n / 0x1_0000 % 0x100, n / 0x100 % 0x100, n % 0x100]
  {
    var a, b, c := n / 0x100, n / 0x1_0000, n / 0x100_0000;
    assert a / 0x100 == b && b / 0x100 == c && c < 0x100;
    LastByte(c, 1);
    LastByte(b, 2);
    LastByte(a, 3);
    LastByte(n, 4);
    assert BigEndian(c / 0x100, 0) == [];
  }

  lemma LastByte(n: nat, k: nat)
    requires k > 0
    ensures BigEndian(n, k) == BigEndian(n / 0x100, k - 1) + [n % 0x100]
  {
  }

  lemma HeaderValueBytes(h: seq<byte>)
    requires |h| == 4
    ensures HeaderValue(h) == h[0] as int * 0x100_0000 + h[1] as int * 0x1_0000 + h[2] as int * 0x100 + h[3] as int
  {
    assert h[..3][..2] == h[..2] && h[..2][..1] == h[..1] && h[..1][..0] == [];
    assert Number(h[..1]) == h[0];
    assert Number(h[..2]) == 0x100 * Number(h[..1]) + h[1];
    assert Number(h[..3]) == 0x100 * Number(h[..2]) + h[2];
  }

  datatype Dialect = C | Cxx

  datatype Ending =
    | Stopped    // the empty block came
    | CutOff     // end of file inside a block or before one
    | Undefined  // C only: the buffer size for this header wraps to zero

  datatype Session = Session(blocks: seq<seq<byte>>, ending: Ending, rest: seq<byte>)

  /** What the server's loop sees of a payload: C treats the buffer as a string. */
  function Shown(d: Dialect, payload: seq<byte>): seq<byte> {
    if d.C? then CString(payload) else payload
  }

  predicate HasBlock(stream: seq<byte>) {
    |stream| >= HEADER && |stream| - HEADER >= HeaderValue(stream[..HEADER])
  }

  function Payload(stream: seq<byte>): seq<byte>
    requires HasBlock(stream)
  {
    stream[HEADER..HEADER + HeaderValue(stream[..HEADER])]
  }

  function AfterBlock(stream: seq<byte>): seq<byte>
    requires HasBlock(stream)
  {
    stream[HEADER + HeaderValue(stream[..HEADER])..]
  }

  predicate Wraps(d: Dialect, stream: seq<byte>) {
    d.C? && |stream| >= HEADER && HeaderValue(stream[..HEADER]) == WORD - 1
  }

  /** What the server's loop makes of a stream: the blocks it prints and how it ends. */
  function Serve(d: Dialect, stream: seq<byte>): Session
    decreases |stream|
  {
    if Wraps(d, stream) then Session([], Undefined, stream[HEADER..])
    else if !HasBlock(stream) then Session([], CutOff, [])
    else
      var block := Shown(d, Payload(stream));
      if block == [] then Session([], Stopped, AfterBlock(stream))
      else
        Preceded([block], Serve(d, AfterBlock(stream)))
  }

  /** The session `s` with more blocks before it. */
  function Preceded(blocks: seq<seq<byte>>, s: Session): Session {
    s.(blocks := blocks + s.blocks)
  }

  lemma PrecededTwice(a: seq<seq<byte>>, b: seq<seq<byte>>, s: Session)
    ensures Preceded(a, Preceded(b, s)) == Preceded(a + b, s)
    ensures Preceded([], s) == s
  {
    assert a + (b + s.blocks) == (a + b) + s.blocks;
    assert [] + s.blocks == s.blocks;
  }

  /** What the loop does with four bytes and what comes after them. In C a payload that begins
      with NUL ends the session too, and the length 2^32-1 overruns the buffer. */
  lemma ServeBytes(d: Dialect, h: seq<byte>, rest: seq<byte>)
    requires |h| == 4
    ensures var n := h[0] as int * 0x100_0000 + h[1] as int * 0x1_0000 + h[2] as int * 0x100 + h[3] as int;
            var s := Serve(d, h + rest);
            if d.C? && n == 0xffff_ffff then s == Session([], Undefined, rest)
            else if |rest| < n then s == Session([], CutOff, [])
            else if n == 0 || (d.C? && rest[0] == 0) then s == Session([], Stopped, rest[n..])
            else
              var block := if d.C? then CString(rest[..n]) else rest[..n];
              var later := Serve(d, rest[n..]);
              s == Session([block] + later.blocks, later.ending, later.rest)
    ensures forall k :: 0 <= k < 4 ==> Serve(d, h[..k]) == Session([], CutOff, [])
  {
    var stream := h + rest;
    HeaderValueBytes(h);
    assert stream[..HEADER] == h && stream[HEADER..] == rest;
    SplitBlock(stream, HeaderValue(h));
  }

  lemma SplitBlock(stream: seq<byte>, n: nat)
    requires |stream| >= HEADER && n == HeaderValue(stream[..HEADER])
    ensures HasBlock(stream) <==> n <= |stream[HEADER..]|
    ensures HasBlock(stream) ==>
              Payload(stream) == stream[HEADER..][..n] && AfterBlock(stream) == stream[HEADER..][n..]
  {
  }

  /** A message that survives the trip. In C a message is a string, so it has no NUL. */
  predicate Sendable(d: Dialect, message: seq<byte>) {
    && message != []
    && (d.Cxx? ==> |message| < WORD)
    && (d.C? ==> |message| < WORD - 1 && NUL !in message)
  }

  predicate AllSendable(d: Dialect, messages: seq<seq<byte>>) {
    forall i :: 0 <= i < |messages| ==> Sendable(d, messages[i])
  }

  lemma FrameIsBlock(message: seq<byte>, rest: seq<byte>)
    requires |message| < WORD
    ensures var stream := Frame(message) + rest;
            && HasBlock(stream) && Payload(stream) == message && AfterBlock(stream) == rest
            && HeaderValue(stream[..HEADER]) == |message|
  {
    var stream := Frame(message) + rest;
    HeaderRoundTrip(|message|);
    assert stream[..HEADER] == Header(|message|);
  }

  lemma ServeFrame(d: Dialect, message: seq<byte>, rest: seq<byte>)
    requires Sendable(d, message)
    ensures Serve(d, Frame(message) + rest) == Preceded([message], Serve(d, rest))
  {
    FrameIsBlock(message, rest);
    CStringPrefix(message);
  }

  lemma {:induction false} ServeFrames(d: Dialect, messages: seq<seq<byte>>, rest: seq<byte>)
    requires AllSendable(d, messages)
    ensures Serve(d, Frames(messages) + rest) == Preceded(messages, Serve(d, rest))
  {
    if messages == [] {
      assert Frames(messages) + rest == rest;
      PrecededTwice([], [], Serve(d, rest));
    } else {
      var message, others := messages[0], messages[1..];
      ServeFrames(d, others, rest);
      ServeFrame(d, message, Frames(others) + rest);
      PrecededTwice([message], others, Serve(d, rest));
      assert Frames(messages) + rest == Frame(message) + (Frames(others) + rest);
      assert messages == [message] + others;
    }
  }

  /** Reading what was written gives the messages back, in order, and leaves every byte
      after the session unread. */
  lemma RoundTrip(d: Dialect, messages: seq<seq<byte>>, rest: seq<byte>)
    requires AllSendable(d, messages)
    ensures Serve(d, SessionBytes(messages) + rest) == Session(messages, Stopped, rest)
  {
    ServeFrames(d, messages, Frame([]) + rest);
    FrameIsBlock([], rest);
    assert SessionBytes(messages) + rest == Frames(messages) + (Frame([]) + rest);
    assert messages + [] == messages;
  }

  lemma BlockIsFrame(stream: seq<byte>)
    requires HasBlock(stream)
    ensures |Payload(stream)| < WORD && stream == Frame(Payload(stream)) + AfterBlock(stream)
  {
    var n := HeaderValue(stream[..HEADER]);
    HeaderCanonical(stream[..HEADER]);
    assert |Payload(stream)| == n == n % WORD;
    assert Header(n) == stream[..HEADER];
    assert stream == stream[..HEADER] + Payload(stream) + AfterBlock(stream);
  }

  lemma SessionBytesCons(message: seq<byte>, others: seq<seq<byte>>, rest: seq<byte>)
    ensures SessionBytes([message] + others) + rest == Frame(message) + (SessionBytes(others) + rest)
  {
    assert ([message] + others)[1..] == others;
    assert Frames([message] + others) == Frame(message) + Frames(others);
  }

  /** The converse for C++: a stream that ends a session is the encoding of what was
      delivered, so no two sessions share an encoding. */
  lemma {:induction false} ServeInverts(stream: seq<byte>)
    requires Serve(Cxx, stream).ending == Stopped
    ensures var s := Serve(Cxx, stream);
            stream == SessionBytes(s.blocks) + s.rest && AllSendable(Cxx, s.blocks)
    decreases |stream|
  {
    var block, tail := Payload(stream), AfterBlock(stream);
    BlockIsFrame(stream);
    if block == [] {
      assert SessionBytes([]) == Frame([]);
    } else {
      ServeInverts(tail);
      SessionBytesCons(block, Serve(Cxx, tail).blocks, Serve(Cxx, tail).rest);
    }
  }

  /** Whatever the stream, the blocks a server prints are messages that can be sent. */
  lemma {:induction false} ServedAreSendable(d: Dialect, stream: seq<byte>)
    ensures AllSendable(d, Serve(d, stream).blocks)
    decreases |stream|
  {
    if HasBlock(stream) && !Wraps(d, stream) {
      var payload, tail := Payload(stream), AfterBlock(stream);
      BlockIsFrame(stream);
      CStringPrefix(payload);
      if Shown(d, payload) != [] {
        ServedAreSendable(d, tail);
      }
    }
  }

  /** What a client's PutBlock takes its messages to be: C stops each at its first NUL. */
  function Taken(d: Dialect, messages: seq<seq<byte>>): seq<seq<byte>> {
    if d.C? then CStrings(messages) else messages
  }

  /** Exactly when a session makes the trip: in either dialect, for every list of messages
      and whatever follows what PutBlock writes of them, if and only if each message is not
      empty, short enough for the header and, in C, free of NUL. */
  lemma RoundTripIff(d: Dialect, messages: seq<seq<byte>>, rest: seq<byte>)
    ensures Serve(d, SessionBytes(Taken(d, messages)) + rest) == Session(messages, Stopped, rest) <==>
            AllSendable(d, messages)
  {
    ServedAreSendable(d, SessionBytes(Taken(d, messages)) + rest);
    if AllSendable(d, messages) {
      CStringsClean(if d.C? then messages else []);
      RoundTrip(d, messages, rest);
    }
  }

  /** The same of whole frames, which in C would hold the bytes after a NUL too. */
  lemma WholeFramesIff(d: Dialect, messages: seq<seq<byte>>, rest: seq<byte>)
    ensures Serve(d, SessionBytes(messages) + rest) == Session(messages, Stopped, rest) <==>
            AllSendable(d, messages)
  {
    ServedAreSendable(d, SessionBytes(messages) + rest);
    if AllSendable(d, messages) {
      RoundTrip(d, messages, rest);
    }
  }

  lemma {:induction false} FramesAppend(a: seq<seq<byte>>, b: seq<seq<byte>>)
    ensures Frames(a + b) == Frames(a) + Frames(b)
  {
    if a == [] {
      assert a + b == b;
    } else {
      assert (a + b)[1..] == a[1..] + b;
      FramesAppend(a[1..], b);
    }
  }

  /** A stream cut short of its next block delivers nothing more. */
  lemma PartialFrame(d: Dialect, message: seq<byte>, k: nat)
    requires message == [] || Sendable(d, message)
    requires k < |Frame(message)|
    ensures Serve(d, Frame(message)[..k]) == Session([], CutOff, [])
  {
    var cut := Frame(message)[..k];
    HeaderRoundTrip(|message|);
    if k >= HEADER {
      assert cut[..HEADER] == Frame(message)[..HEADER] == Header(|message|);
    }
    assert !HasBlock(cut) && !Wraps(d, cut);
  }

  /** Cut the encoding of a session at any byte before its end: the loop delivers exactly
      the j messages whose frames lie wholly before the cut, then reports a short read. */
  lemma Truncation(d: Dialect, messages: seq<seq<byte>>, k: nat, j: nat)
    requires AllSendable(d, messages)
    requires k < |SessionBytes(messages)|
    requires j <= |messages| && |Frames(messages[..j])| <= k
    requires j < |messages| ==> k < |Frames(messages[..j + 1])|
    ensures Serve(d, SessionBytes(messages)[..k]) == Session(messages[..j], CutOff, [])
  {
    var before := messages[..j];
    var next := if j < |messages| then messages[j] else [];
    var after := if j < |messages| then Frames(messages[j + 1..]) + Frame([]) else [];
    NextFrame(messages, j);
    assert SessionBytes(messages) == Frames(before) + (Frame(next) + after);
    var left := k - |Frames(before)|;
    assert SessionBytes(messages)[..k] == Frames(before) + Frame(next)[..left];
    ServeFrames(d, before, Frame(next)[..left]);
    PartialFrame(d, next, left);
    assert before + [] == before;
  }

  lemma NextFrame(messages: seq<seq<byte>>, j: nat)
    requires j <= |messages|
    ensures j < |messages| ==>
              && Frames(messages) == Frames(messages[..j]) + (Frame(messages[j]) + Frames(messages[j + 1..]))
              && Frames(messages[..j + 1]) == Frames(messages[..j]) + Frame(messages[j])
    ensures j == |messages| ==> messages[..j] == messages
  {
    if j < |messages| {
      assert messages == messages[..j] + messages[j..];
      FramesAppend(messages[..j], messages[j..]);
      assert messages[j..][1..] == messages[j + 1..];
      assert messages[..j + 1] == messages[..j] + [messages[j]];
      FramesAppend(messages[..j], [messages[j]]);
      assert Frames([messages[j]]) == Frame(messages[j]) + Frames([]);
    }
  }

  /** The last message whose frame, with all before it, lies before the cut. */
  lemma {:induction false} FindCut(messages: seq<seq<byte>>, k: nat, n: nat) returns (j: nat)
    requires n <= |messages| && (n < |messages| ==> k < |Frames(messages[..n + 1])|)
    ensures j <= n && |Frames(messages[..j])| <= k
    ensures j < |messages| ==> k < |Frames(messages[..j + 1])|
  {
    if |Frames(messages[..n])| <= k {
      j := n;
    } else {
      assert n > 0 by {
        assert messages[..0] == [];
      }
      j := FindCut(messages, k, n - 1);
    }
  }

  /** Of any part of a session that arrives, the server prints a prefix of the messages. */
  lemma PartOfSession(d: Dialect, messages: seq<seq<byte>>, part: seq<byte>)
    requires AllSendable(d, messages) && part <= SessionBytes(messages)
    ensures Serve(d, part).blocks <= messages
    ensures part < SessionBytes(messages) ==> Serve(d, part).ending == CutOff
    ensures part == SessionBytes(messages) ==> Serve(d, part) == Session(messages, Stopped, [])
  {
    if part == SessionBytes(messages) {
      RoundTrip(d, messages, []);
      assert part + [] == part;
    } else {
      var j := FindCut(messages, |part|, |messages|);
      Truncation(d, messages, |part|, j);
      assert part == SessionBytes(messages)[..|part|];
    }
  }
}
