// What each echo client puts on the wire for a given input, what that means for the
// session, and the two loops themselves, each against an arbitrary peer.
module EchoPrograms {
  import opened Bytes
  import opened Lines
  import opened Kernel
  import opened WrapSock
  import opened Readers
  import opened Echo
  import opened Runs

  /** The C client: fgets fills sendline, strlen decides what is sent of it. */
  function SentByC(input: seq<byte>): (pieces: seq<seq<byte>>) {
    CStrings(SplitLines(input, ROOM, NEWLINE))
  }

  lemma {:induction false} ConcatHas(lines: seq<seq<byte>>, b: byte)
    ensures b in Concat(lines) <==> exists i :: 0 <= i < |lines| && b in lines[i]
  {
    if lines != [] {
      ConcatHas(lines[1..], b);
      assert Concat(lines) == lines[0] + Concat(lines[1..]);
      if i :| 0 <= i < |lines| && b in lines[i] {
        assert i > 0 ==> lines[i] == lines[1..][i - 1];
      }
    }
  }

  /** A string cut at a NUL can no longer be a complete piece. */
  lemma CutPieceIncomplete(line: seq<byte>)
    requires |line| <= ROOM && OneLine(line, NEWLINE)
    ensures |CString(line)| <= ROOM && OneLine(CString(line), NEWLINE)
    ensures NUL in line ==> !Exact(CString(line), ROOM, NEWLINE)
  {
    CStringPrefix(line);
  }

  /** The C client sends complete pieces, and exactly its input, if and only if the input
      has no NUL and does not stop in the middle of a line that is shorter than sendline. */
  lemma SentByCExact(input: seq<byte>)
    ensures WithinLines(SentByC(input))
    ensures var lines := SplitLines(input, ROOM, NEWLINE);
            AllExact(SentByC(input), ROOM, NEWLINE) <==>
            NUL !in input && (input == [] || Ends(input, NEWLINE) || |lines[|lines| - 1]| == ROOM)
    ensures NUL !in input ==> Concat(SentByC(input)) == input
  {
    var lines := SplitLines(input, ROOM, NEWLINE);
    SplitLinesPartition(input, ROOM, NEWLINE);
    SplitLinesAllExactIff(input, ROOM, NEWLINE);
    ConcatHas(lines, NUL);
    forall i | 0 <= i < |lines|
      ensures |SentByC(input)[i]| <= ROOM && OneLine(SentByC(input)[i], NEWLINE)
      ensures NUL in lines[i] ==> !Exact(SentByC(input)[i], ROOM, NEWLINE)
    {
      CutPieceIncomplete(lines[i]);
    }
    if NUL !in input {
      CStringsClean(lines);
    }
  }

  /** The input has no NUL and does not stop inside a line that is shorter than sendline. */
  predicate CleanInput(input: seq<byte>) {
    var lines := SplitLines(input, ROOM, NEWLINE);
    NUL !in input && (input == [] || Ends(input, NEWLINE) || |lines[|lines| - 1]| == ROOM)
  }

  /** A C client and a C server over this input. */
  predicate PairC(c: Config, input: seq<byte>) {
    c.pieces == SentByC(input) && Provisioned(c) && c.onInterrupt.Retries?
  }

  /** Without NUL, sending and printing strings loses nothing. */
  lemma CleanText(input: seq<byte>)
    requires NUL !in input
    ensures Concat(CStrings(SentByC(input))) == input
  {
    var lines := SplitLines(input, ROOM, NEWLINE);
    SplitLinesPartition(input, ROOM, NEWLINE);
    ConcatHas(lines, NUL);
    CStringsClean(lines);
  }

  /** The C session, however it is scheduled and interrupted, prints its whole input if and
      only if the input is clean and its lines fit the channels. */
  lemma SessionC(input: seq<byte>, c: Config, signals: nat)
    requires PairC(c, input)
    ensures AlwaysServed(c, signals) <==> CleanInput(input) && AllFit(c)
    ensures CleanInput(input) ==> Concat(CStrings(c.pieces)) == input
  {
    SentByCExact(input);
    AlwaysServedIff(c, signals);
    if CleanInput(input) {
      CleanText(input);
    }
  }

  /** If the lines fit, each run that cannot be extended has finished if and only if the
      input is clean, and has then printed exactly the input. */
  lemma SessionCEnds(input: seq<byte>, c: Config, signals: nat, run: seq<Action>, s: State)
    requires PairC(c, input) && AllFit(c)
    requires Reached(c, signals, run, s) && Stuck(c, s)
    ensures s.client.Finished? <==> CleanInput(input)
    ensures s.client.Finished? ==> Concat(CStrings(s.printed)) == input
  {
    NeverCrashes(c, Init(c, signals), run);
    SentByCExact(input);
    CompletionIff(c, signals, run, s);
    if s.client.Finished? {
      Completion(c, signals, run, s);
      CleanText(input);
    }
  }

  /** On any other input, with channels of any size, the client finishes in no run: since
      every run can be extended to its end, it ends up waiting forever. */
  lemma HangsC(input: seq<byte>, c: Config, signals: nat, run: seq<Action>, s: State)
    requires PairC(c, input) && !CleanInput(input)
    requires Reached(c, signals, run, s)
    ensures !s.client.Finished?
  {
    NeverCrashes(c, Init(c, signals), run);
    SentByCExact(input);
    ReachedInvariant(c, signals, run, s);
    PrintsWhatItSent(c, signals, run, s);
    assert c.pieces[..|c.pieces|] == c.pieces;
  }

  lemma OnlyLine(input: seq<byte>)
    requires input != [] && |input| <= ROOM && OneLine(input, NEWLINE)
    ensures SplitLines(input, ROOM, NEWLINE) == [input]
  {
    TakeLineUnique(input, input, ROOM, NEWLINE);
    assert input[|input|..] == [];
  }

  lemma OneLetter(rest: seq<byte>)
    requires rest == [] || rest[0] == NUL
    ensures CString([97] + rest) == [97]
  {
    assert ([97] + rest)[1..] == rest;
    assert CString(rest) == [];
  }

  /** Such inputs: text that stops in the middle of a line, and a NUL before the newline. */
  lemma UncleanInputs()
    ensures !CleanInput([97]) && !CleanInput([97, NUL, NEWLINE])
    ensures SentByC([97]) == [[97]] && SentByC([97, NUL, NEWLINE]) == [[97]]
  {
    var a, b: seq<byte> := [97], [97, NUL, NEWLINE];
    OnlyLine(a);
    OnlyLine(b);
    OneLetter([]);
    OneLetter([NUL, NEWLINE]);
    assert a == [97] + [] && b == [97] + [NUL, NEWLINE];
    assert b[1] == NUL;
  }

  function WithNewline(line: seq<byte>): seq<byte> {
    if Ends(line, NEWLINE) then line else line + [NEWLINE]
  }

  /** The C++ client: getline reads lines of any length, and each is sent with a newline. */
  function SentByCxx(input: seq<byte>): seq<seq<byte>> {
    if input == [] then []
    else
      TakeLineIsLine(input, |input|, NEWLINE);
      var line := TakeLine(input, |input|, NEWLINE);
      [WithNewline(line)] + SentByCxx(input[|line|..])
  }

  predicate NewlineAmong(input: seq<byte>, i: nat) {
    exists k :: i <= k < i + ROOM && k < |input| && input[k] == NEWLINE
  }

  /** Any 1023 bytes in a row contain a newline: no line is longer than 1022 bytes. */
  predicate ShortLines(input: seq<byte>) {
    forall i :: 0 <= i <= |input| - ROOM ==> NewlineAmong(input, i)
  }

  lemma ShortLinesCons(line: seq<byte>, rest: seq<byte>)
    requires OneLine(line, NEWLINE) && (Ends(line, NEWLINE) || rest == [])
    ensures ShortLines(line + rest) <==> |WithNewline(line)| <= ROOM && ShortLines(rest)
  {
    var input := line + rest;
    if ShortLines(input) {
      assert |input| >= ROOM ==> NewlineAmong(input, 0);
      forall i | 0 <= i <= |rest| - ROOM ensures NewlineAmong(rest, i) {
        assert NewlineAmong(input, |line| + i);
        var k :| |line| + i <= k < |line| + i + ROOM && k < |input| && input[k] == NEWLINE;
        assert rest[k - |line|] == NEWLINE;
      }
    }
    if |WithNewline(line)| <= ROOM && ShortLines(rest) {
      forall i | 0 <= i <= |input| - ROOM ensures NewlineAmong(input, i) {
        if i < |line| {
          assert input[|line| - 1] == line[|line| - 1];
        } else {
          assert NewlineAmong(rest, i - |line|);
          var k :| i - |line| <= k < i - |line| + ROOM && k < |rest| && rest[k] == NEWLINE;
          assert input[|line| + k] == NEWLINE;
        }
      }
    }
  }

  /** The C++ client sends its input, with a newline supplied at the end if it is missing. */
  lemma {:induction false} SentByCxxIsInput(input: seq<byte>)
    ensures Concat(SentByCxx(input)) == if input == [] then [] else WithNewline(input)
  {
    if input != [] {
      TakeLineIsLine(input, |input|, NEWLINE);
      var line := TakeLine(input, |input|, NEWLINE);
      var rest := input[|line|..];
      SentByCxxIsInput(rest);
      ConcatCons(WithNewline(line), SentByCxx(rest));
      WithNewlineCons(line, rest);
      assert line + rest == input;
      assert rest != [] ==> Ends(line, NEWLINE);
    }
  }

  lemma WithNewlineCons(line: seq<byte>, rest: seq<byte>)
    ensures rest != [] ==> WithNewline(line + rest) == line + WithNewline(rest)
    ensures rest == [] ==> line + rest == line
  {
    if rest != [] {
      assert (line + rest)[|line + rest| - 1] == rest[|rest| - 1];
    }
  }

  /** Its pieces are complete if and only if no line is longer than 1022 bytes. */
  lemma {:induction false} SentByCxxExact(input: seq<byte>)
    ensures AllExact(SentByCxx(input), ROOM, NEWLINE) <==> ShortLines(input)
  {
    if input != [] {
      TakeLineIsLine(input, |input|, NEWLINE);
      var line := TakeLine(input, |input|, NEWLINE);
      var rest := input[|line|..];
      SentByCxxExact(rest);
      assert line + rest == input;
      ShortLinesCons(line, rest);
      AllExactCons(WithNewline(line), SentByCxx(rest), ROOM, NEWLINE);
      assert Exact(WithNewline(line), ROOM, NEWLINE) <==> |WithNewline(line)| <= ROOM;
    }
  }

  function Newlines(s: seq<byte>): nat {
    if s == [] then 0 else (if s[0] == NEWLINE then 1 else 0) + Newlines(s[1..])
  }

  lemma {:induction false} NewlinesAppend(a: seq<byte>, b: seq<byte>)
    ensures Newlines(a + b) == Newlines(a) + Newlines(b)
  {
    if a == [] {
      assert a + b == b;
    } else {
      assert (a + b)[1..] == a[1..] + b;
      NewlinesAppend(a[1..], b);
    }
  }

  lemma {:induction false} NewlinesOfLine(line: seq<byte>)
    requires OneLine(line, NEWLINE)
    ensures Newlines(line) == if Ends(line, NEWLINE) then 1 else 0
  {
    if line != [] {
      assert forall i :: 0 <= i < |line| - 2 ==> line[1..][i] == line[i + 1];
      NewlinesOfLine(line[1..]);
    }
  }

  predicate AllOneLine(lines: seq<seq<byte>>) {
    forall i :: 0 <= i < |lines| ==> OneLine(lines[i], NEWLINE)
  }

  predicate AllEnd(lines: seq<seq<byte>>) {
    forall i :: 0 <= i < |lines| ==> Ends(lines[i], NEWLINE)
  }

  /** There are at most as many newlines as lines, and as many only if each line has one. */
  lemma {:induction false} NewlinesOfLines(lines: seq<seq<byte>>)
    requires AllOneLine(lines)
    ensures Newlines(Concat(lines)) <= |lines|
    ensures Newlines(Concat(lines)) == |lines| <==> AllEnd(lines)
  {
    if lines != [] {
      var line, others := lines[0], lines[1..];
      assert forall i :: 0 <= i < |others| ==> others[i] == lines[i + 1];
      NewlinesOfLine(line);
      NewlinesOfLines(others);
      NewlinesAppend(line, Concat(others));
      assert lines == [line] + others;
      assert AllEnd(lines) <==> Ends(line, NEWLINE) && AllEnd(others) by {
        if AllEnd(lines) {
          assert Ends(lines[0], NEWLINE);
        }
      }
    }
  }

  lemma {:induction false} SentByCxxLines(input: seq<byte>)
    ensures AllOneLine(SentByCxx(input)) && AllEnd(SentByCxx(input))
  {
    if input != [] {
      TakeLineIsLine(input, |input|, NEWLINE);
      var line := TakeLine(input, |input|, NEWLINE);
      SentByCxxLines(input[|line|..]);
    }
  }

  /** Text cut into as many lines as it has newlines is cut at its newlines. */
  lemma SameText(printed: seq<seq<byte>>, pieces: seq<seq<byte>>)
    requires AllOneLine(printed) && AllOneLine(pieces) && AllEnd(pieces)
    requires |printed| == |pieces| && Concat(printed) == Concat(pieces)
    ensures printed == pieces
  {
    NewlinesOfLines(printed);
    NewlinesOfLines(pieces);
    var room := |Concat(pieces)| + 1;
    forall lines: seq<seq<byte>> | AllOneLine(lines) && AllEnd(lines) && Concat(lines) == Concat(pieces)
      ensures AllExact(lines, room, NEWLINE)
    {
      NoneLonger(lines);
    }
    assert Concat(printed) + [] == Concat(pieces) + [];
    ExactLinesDetermined(printed, [], pieces, [], room);
  }

  lemma {:induction false} NoneLonger(lines: seq<seq<byte>>)
    ensures forall i :: 0 <= i < |lines| ==> |lines[i]| <= |Concat(lines)|
  {
    if lines != [] {
      NoneLonger(lines[1..]);
      assert forall i :: 1 <= i < |lines| ==> lines[i] == lines[1..][i - 1];
    }
  }

  /** A C++ client over this input, and a server of either kind. */
  predicate ClientCxx(c: Config, input: seq<byte>) {
    c.pieces == SentByCxx(input) && Provisioned(c)
  }

  /** A finished C++ client has printed the bytes it sent if and only if no line is longer
      than 1022 bytes. */
  lemma SessionCxxEnds(input: seq<byte>, c: Config, signals: nat, run: seq<Action>, s: State)
    requires ClientCxx(c, input)
    requires Reached(c, signals, run, s) && s.client.Finished? && !s.server.Crashed?
    ensures Concat(s.printed) == Concat(c.pieces) <==> ShortLines(input)
  {
    SentByCxxExact(input);
    SentByCxxLines(input);
    ReachedInvariant(c, signals, run, s);
    LockStepIff(c, signals, run, s);
    assert c.pieces[..s.taken] == c.pieces;
    assert AllOneLine(s.printed) by {
      forall i | 0 <= i < |s.printed| ensures OneLine(s.printed[i], NEWLINE) {
        assert Exact(s.printed[i], ROOM, NEWLINE);
      }
    }
    if Concat(s.printed) == Concat(c.pieces) {
      SameText(s.printed, c.pieces);
    }
  }

  /** The C++ session, however it is scheduled, prints its whole input (with a newline at
      the end) if and only if no line is longer than 1022 bytes, the lines fit the channels,
      and no signal can interrupt a server that throws. */
  lemma SessionCxx(input: seq<byte>, c: Config, signals: nat)
    requires ClientCxx(c, input)
    ensures AlwaysServed(c, signals) <==>
            ShortLines(input) && AllFit(c) && SafeFromSignals(c, Init(c, signals))
    ensures Concat(c.pieces) == if input == [] then [] else WithNewline(input)
  {
    SentByCxxExact(input);
    SentByCxxIsInput(input);
    AlwaysServedIff(c, signals);
  }

  /** With room for the whole input the C++ client always finishes, long lines or not:
      enough newlines have been sent for the lines it reads. */
  lemma FinishesCxx(input: seq<byte>, c: Config, signals: nat, run: seq<Action>, s: State)
    requires ClientCxx(c, input)
    requires |Concat(c.pieces)| <= c.upCapacity + c.downCapacity + 1
    requires Reached(c, signals, run, s) && Stuck(c, s) && !s.server.Crashed?
    ensures s.client.Finished?
  {
    ReachedInvariant(c, signals, run, s);
    SentByCxxLines(input);
    assert c.pieces == c.pieces[..s.taken] + c.pieces[s.taken..];
    ConcatAppend(c.pieces[..s.taken], c.pieces[s.taken..]);
    if !s.client.Finished? {
      var a := MoveCxx(c, s);
    }
  }

  lemma MoveCxx(c: Config, s: State) returns (a: Action)
    requires Invariant(c, s) && !s.server.Crashed? && !s.client.Finished? && Provisioned(c)
    requires AllOneLine(c.pieces) && AllEnd(c.pieces)
    requires |Concat(c.pieces[..s.taken])| <= c.upCapacity + c.downCapacity + 1
    ensures Enabled(c, s, a) && !Harmless(c, a)
  {
    match s.client
    case LoopHead =>
      a := if s.taken < |c.pieces| then Fetch else EndOfInput;
    case Sending(unsent) =>
      if unsent == [] { a := SendDone; }
      else if |s.up| < c.upCapacity { a := Send(1); }
      else { a := ServerMove(c, s); }
    case Reading(got) =>
      if Done(got) { a := Print; }
      else if s.readBuf != [] { a := Take; }
      else if s.down != [] { a := Fill(1); }
      else {
        LineIsUnderWay(c, s);
        a := ServerMove(c, s);
      }
    case TerminatedPrematurely =>
    case Failed(_, _) =>
  }

  /** While the client reads, the end of a line is still to come. */
  lemma LineIsUnderWay(c: Config, s: State)
    requires Invariant(c, s) && !s.server.Crashed? && AllOneLine(c.pieces) && AllEnd(c.pieces)
    requires s.client.Reading? && !Done(s.client.got)
    ensures Pipeline(s) != s.client.got
  {
    if Pipeline(s) == s.client.got {
      var sent := c.pieces[..s.taken];
      NewlinesOfLines(sent);
      NewlinesAppend(Concat(s.printed), s.client.got);
      NewlinesOfLine(s.client.got);
      forall i | 0 <= i < |s.printed| ensures OneLine(s.printed[i], NEWLINE) {
        assert Exact(s.printed[i], ROOM, NEWLINE);
      }
      NewlinesOfLines(s.printed);
    }
  }

  /** On any input with a longer line there is a run that finishes and has printed something
      other than what was sent. */
  lemma MisprintsCxx(input: seq<byte>, c: Config, signals: nat) returns (run: seq<Action>, s: State)
    requires ClientCxx(c, input) && !ShortLines(input)
    requires |Concat(c.pieces)| <= c.upCapacity + c.downCapacity + 1
    requires SafeFromSignals(c, Init(c, signals))
    ensures Reached(c, signals, run, s) && Stuck(c, s)
    ensures s.client.Finished? && Concat(s.printed) != Concat(c.pieces)
  {
    run := ReachesEnd(c, Init(c, signals));
    s := After(Machine(c), Init(c, signals), run);
    NeverCrashes(c, Init(c, signals), run);
    FinishesCxx(input, c, signals, run, s);
    SessionCxxEnds(input, c, signals, run, s);
  }

  /** Such an input is one line of 1023 bytes or more and its newline. */
  lemma LongLine(line: seq<byte>)
    requires NEWLINE !in line
    ensures ShortLines(line + [NEWLINE]) <==> |line| <= 1022
  {
    var input := line + [NEWLINE];
    assert |line| >= 1023 ==> !NewlineAmong(input, 0);
    assert input[|line|] == NEWLINE;
  }

  /** str_echo (C): everything read before end of file is sent back, in order. */
  method StrEcho(sock: Conn) returns (st: Status)
    modifies sock
    ensures st.Ok? || st.SysError?
    ensures st.Ok? ==> sock.unread == [] && sock.sent == old(sock.sent) + old(sock.unread)
    ensures old(sock.sent) <= sock.sent <= old(sock.sent) + old(sock.unread)
    ensures sock.errors == old(sock.errors) + if st.SysError? then 1 else 0
  {
    ghost var stream := sock.unread;
    ghost var k: nat := 0;
    var buf := new byte[BUFFER];
    while true
      invariant k <= |stream| && sock.unread == stream[k..]
      invariant sock.sent == old(sock.sent) + stream[..k] && sock.errors == old(sock.errors)
      decreases |sock.unread|, sock.signals
    {
      var t := sock.Read(buf, 0, buf.Length);
      match t {
        case Interrupted =>
        case Failed =>
          return SysError;
        case Moved(n) =>
          if n == 0 {
            assert stream[..k] == stream;
            return Ok;
          }
          assert buf[..n] == stream[k..][..n];
          assert stream[..k + n] == stream[..k] + buf[..n];
          st := SendAll(sock, buf[..n]);
          if st.SysError? {
            return;
          }
          k := k + n;
      }
    }
  }

  lemma NextReply(stream: seq<byte>)
    ensures ReturnValue(TakeLine(stream, ROOM, NEWLINE), ROOM) == 0 <==> stream == []
  {
    TakeLineIsLine(stream, ROOM, NEWLINE);
  }

  datatype Outcome = EndOfFile | ServerTerminated | Error

  /** A client's whole session: what it prints, what it sends, and how it ends. */
  datatype Session = Session(printed: seq<seq<byte>>, out: seq<byte>, end: Outcome)

  function Preceded(printed: seq<seq<byte>>, out: seq<byte>, s: Session): Session {
    Session(printed + s.printed, out + s.out, s.end)
  }

  lemma PrecededTwice(p: seq<seq<byte>>, o: seq<byte>, p': seq<seq<byte>>, o': seq<byte>, s: Session)
    ensures Preceded(p, o, Preceded(p', o', s)) == Preceded(p + p', o + o', s)
    ensures Preceded([], [], s) == s
  {
    assert p + (p' + s.printed) == (p + p') + s.printed;
    assert o + (o' + s.out) == (o + o') + s.out;
  }

  /** str_cli when the system calls succeed, with input `fp` and a peer that sends `stream`. */
  function Client(fp: seq<byte>, stream: seq<byte>): Session
    decreases |fp|
  {
    TakeLineIsLine(fp, ROOM, NEWLINE);
    TakeLineIsLine(stream, ROOM, NEWLINE);
    var sendline, reply := TakeLine(fp, ROOM, NEWLINE), TakeLine(stream, ROOM, NEWLINE);
    if fp == [] then Session([], [], EndOfFile)
    else if stream == [] then Session([], CString(sendline), ServerTerminated)
    else Preceded([CString(reply)], CString(sendline), Client(fp[|sendline|..], stream[|reply|..]))
  }

  /** For each fgets line the client prints the next line of what the peer sent; it stops
      early exactly when the peer has sent fewer lines than that. */
  lemma {:induction false} ClientPrints(fp: seq<byte>, stream: seq<byte>)
    ensures var s := Client(fp, stream);
            var pieces, replies := SentByC(fp), SplitLines(stream, ROOM, NEWLINE);
            && |s.printed| <= |replies| && s.printed == CStrings(replies)[..|s.printed|]
            && |s.printed| == (if |pieces| <= |replies| then |pieces| else |replies|)
            && s.end == (if |pieces| <= |replies| then EndOfFile else ServerTerminated)
    decreases |fp|
  {
    TakeLineIsLine(fp, ROOM, NEWLINE);
    TakeLineIsLine(stream, ROOM, NEWLINE);
    if fp != [] && stream != [] {
      var reply := TakeLine(stream, ROOM, NEWLINE);
      var fp', stream' := fp[|TakeLine(fp, ROOM, NEWLINE)|..], stream[|reply|..];
      ClientPrints(fp', stream');
      var n := |Client(fp', stream').printed|;
      var replies := CStrings(SplitLines(stream', ROOM, NEWLINE));
      assert CStrings(SplitLines(stream, ROOM, NEWLINE)) == [CString(reply)] + replies;
      assert ([CString(reply)] + replies)[..n + 1] == [CString(reply)] + replies[..n];
    }
  }

  /** It sends the string of every line it got to, including the one left unanswered. */
  lemma {:induction false} ClientSends(fp: seq<byte>, stream: seq<byte>)
    ensures var s := Client(fp, stream);
            var n := if s.end.EndOfFile? then |s.printed| else |s.printed| + 1;
            n <= |SentByC(fp)| && s.out == Concat(SentByC(fp)[..n])
    ensures Client(fp, stream).end.EndOfFile? ==> |Client(fp, stream).printed| == |SentByC(fp)|
    decreases |fp|
  {
    TakeLineIsLine(fp, ROOM, NEWLINE);
    TakeLineIsLine(stream, ROOM, NEWLINE);
    if fp != [] {
      var sendline := TakeLine(fp, ROOM, NEWLINE);
      var fp', stream' := fp[|sendline|..], stream[|TakeLine(stream, ROOM, NEWLINE)|..];
      var others := SentByC(fp');
      assert SentByC(fp) == [CString(sendline)] + others;
      var m := if stream == [] || Client(fp', stream').end.EndOfFile? then 0 else 1;
      if stream != [] {
        ClientSends(fp', stream');
        m := m + |Client(fp', stream').printed|;
      }
      FirstPieces(CString(sendline), others, m);
    }
  }

  lemma FirstPieces(piece: seq<byte>, others: seq<seq<byte>>, m: nat)
    requires m <= |others|
    ensures Concat(([piece] + others)[..m + 1]) == piece + Concat(others[..m])
  {
    assert ([piece] + others)[..m + 1] == [piece] + others[..m];
    ConcatCons(piece, others[..m]);
  }

  datatype Reply = Printed(text: seq<byte>) | NoReply | Broken

  /** One iteration of str_cli (C) after fgets: send the string, read one line back. */
  method Exchange(sendline: seq<byte>, sock: Conn, cache: ByteCache, recvline: array<byte>) returns (r: Reply)
    requires cache.Valid() && recvline != cache.readBuf && recvline.Length == BUFFER
    modifies sock, cache, cache.readBuf, recvline
    ensures cache.Valid()
    ensures var stream := old(cache.Pending(sock));
            && (r.NoReply? ==> stream == [])
            && (r.Printed? ==>
                  && stream != []
                  && r.text == CString(TakeLine(stream, ROOM, NEWLINE))
                  && stream == TakeLine(stream, ROOM, NEWLINE) + cache.Pending(sock))
    ensures !r.Broken? ==> sock.sent == old(sock.sent) + CString(sendline)
    ensures old(sock.sent) <= sock.sent <= old(sock.sent) + CString(sendline)
    ensures sock.errors == old(sock.errors) + if r.Broken? then 1 else 0
  {
    ghost var stream := cache.Pending(sock);
    var st := SendAll(sock, CString(sendline));
    if !st.Ok? {
      return Broken;
    }
    assert cache.Pending(sock) == stream && Room(ToInt(BUFFER)) == ROOM;
    var rc, text := ReadString(cache, sock, recvline, recvline.Length);
    if rc < 0 {
      return Broken;
    }
    NextReply(stream);
    if rc == 0 {
      return NoReply;
    }
    r := Printed(text);
  }

  /** str_cli (C) against a peer that sends anything at all. */
  method StrCli(fp: seq<byte>, sock: Conn, cache: ByteCache)
    returns (r: Outcome, printed: seq<seq<byte>>)
    requires cache.Valid()
    modifies sock, cache, cache.readBuf
    ensures cache.Valid()
    ensures var s := Client(fp, old(cache.Pending(sock)));
            && printed <= s.printed
            && (!r.Error? ==> printed == s.printed && r == s.end && sock.sent == old(sock.sent) + s.out)
            && old(sock.sent) <= sock.sent <= old(sock.sent) + s.out
    ensures sock.errors == old(sock.errors) + if r.Error? then 1 else 0
  {
    ghost var start, whole := sock.sent, Client(fp, cache.Pending(sock));
    ghost var stream, out := cache.Pending(sock), [];
    var input := fp;
    var recvline := new byte[BUFFER];
    printed := [];
    PrecededTwice([], [], [], [], whole);
    while input != []
      invariant cache.Valid() && recvline != cache.readBuf
      invariant stream == cache.Pending(sock) && sock.sent == start + out && sock.errors == old(sock.errors)
      invariant whole == Preceded(printed, out, Client(input, stream))
      decreases |input|
    {
      TakeLineIsLine(input, ROOM, NEWLINE);
      var sendline := TakeLine(input, ROOM, NEWLINE);
      ghost var before, unread := input, stream;
      input := input[|sendline|..];
      assert before == sendline + input;
      var reply := Exchange(sendline, sock, cache, recvline);
      if reply.Broken? {
        BrokenOff(start, out, CString(sendline), Client(before, unread));
        return Error, printed;
      }
      if reply.NoReply? {
        Assoc(start, out, CString(sendline));
        return ServerTerminated, printed;
      }
      stream := cache.Pending(sock);
      ClientStep(before, unread, input, stream, reply.text, CString(sendline));
      PrecededTwice(printed, out, [reply.text], CString(sendline), Client(input, stream));
      Assoc(start, out, CString(sendline));
      out := out + CString(sendline);
      printed := printed + [reply.text];
    }
    r := EndOfFile;
  }

  lemma BrokenOff(start: seq<byte>, out: seq<byte>, sendline: seq<byte>, s: Session)
    requires sendline <= s.out
    ensures start <= start + out && start + out + sendline <= start + (out + s.out)
  {
    assert s.out == sendline + s.out[|sendline|..];
    Assoc(start, out, sendline);
  }

  lemma ClientStep(fp: seq<byte>, stream: seq<byte>, fp': seq<byte>, stream': seq<byte>,
                   text: seq<byte>, sent: seq<byte>)
    requires fp != [] && stream != []
    requires fp == TakeLine(fp, ROOM, NEWLINE) + fp' && stream == TakeLine(stream, ROOM, NEWLINE) + stream'
    requires text == CString(TakeLine(stream, ROOM, NEWLINE)) && sent == CString(TakeLine(fp, ROOM, NEWLINE))
    ensures Client(fp, stream) == Preceded([text], sent, Client(fp', stream'))
  {
    assert fp' == fp[|TakeLine(fp, ROOM, NEWLINE)|..];
    assert stream' == stream[|TakeLine(stream, ROOM, NEWLINE)|..];
  }

  /** Against a peer that sends back what it is sent, the client prints its input. */
  lemma EchoedInput(fp: seq<byte>, rest: seq<byte>)
    requires AllExact(SentByC(fp), ROOM, NEWLINE)
    ensures var s := Client(fp, Concat(SentByC(fp)) + rest);
            s.end.EndOfFile? && s.out == fp && Concat(s.printed) == fp
  {
    var pieces := SentByC(fp);
    var stream := Concat(pieces) + rest;
    ClientPrints(fp, stream);
    ClientSends(fp, stream);
    SentByCExact(fp);
    SplitLinesExact(pieces, rest, ROOM, NEWLINE);
    forall i | 0 <= i < |pieces| ensures CString(pieces[i]) == pieces[i] {
      CStringTwice(SplitLines(fp, ROOM, NEWLINE)[i]);
    }
    assert CStrings(SplitLines(stream, ROOM, NEWLINE))[..|pieces|] == pieces;
    assert pieces[..|pieces|] == pieces;
  }

  lemma CStringTwice(s: seq<byte>)
    ensures CString(CString(s)) == CString(s)
  {
    CStringPrefix(s);
    CStringPrefix(CString(s));
  }
}
