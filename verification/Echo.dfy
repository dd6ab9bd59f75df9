// The echo session: str_cli and str_echo, each with its own buffers, run concurrently over
// two bounded FIFO byte channels. Every system call that moves bytes is one step, and how
// many bytes it moves is part of the step, so a run is any chunking and any interleaving.
module Echo {
  import opened Bytes
  import opened Lines
  import opened Runs

  const BUFFER: nat := 1024      // sendline, recvline, buf
  const ROOM: nat := BUFFER - 1  // what readline and fgets store besides the NUL

  /** What a signal that interrupts the server's read does: C reads again, while in C++
      Socket::Recv throws and the server ends. Every other call is retried in both. */
  datatype OnInterrupt = Retries | Throws

  /** `pieces` are the strings the client sends, one per iteration of its loop. */
  datatype Config = Config(
    pieces: seq<seq<byte>>,
    upCapacity: nat,
    downCapacity: nat,
    readSize: nat,
    onInterrupt: OnInterrupt)

  datatype Client =
    | LoopHead
    | Sending(unsent: seq<byte>)   // in SendAll
    | Reading(got: seq<byte>)      // in readline, with the bytes stored so far
    | Finished                     // end of input: the process exits and its socket closes
    | TerminatedPrematurely        // err_quit: readline returned 0
    | Failed(got: seq<byte>, unsent: seq<byte>)  // a call failed on a connection the server lost

  datatype Server =
    | Listening                    // at read
    | Replying(reply: seq<byte>)   // in SendAll
    | Closed
    | Crashed                      // left by an exception

  datatype State = State(
    taken: nat,                    // pieces taken from the input
    client: Client,
    up: seq<byte>,                 // client-to-server channel
    server: Server,
    down: seq<byte>,               // server-to-client channel
    readBuf: seq<byte>,            // the client's read-ahead
    printed: seq<seq<byte>>,       // each recvline, in order
    signals: nat)                  // interruptions still to come

  datatype Action =
    | Fetch | EndOfInput
    | Send(n: nat) | SendDone
    | Fill(n: nat) | Take | Print | ReadEof
    | SendError | ReadError
    | Receive(n: nat) | Reply(n: nat) | ReplyDone | ServerEof
    | Interrupt                    // of a call that is retried
    | InterruptReceive             // of the server's read

  function Init(c: Config, signals: nat): State {
    State(0, LoopHead, [], Listening, [], [], [], signals)
  }

  /** readline leaves its loop: newline stored, or recvline full. */
  predicate Done(got: seq<byte>) {
    Complete(got, ROOM, NEWLINE)
  }

  predicate ClientGone(s: State) {
    s.client.Finished? || s.client.TerminatedPrematurely? || s.client.Failed?
  }

  predicate Enabled(c: Config, s: State, a: Action) {
    match a
    case Fetch => s.client.LoopHead? && s.taken < |c.pieces|
    case EndOfInput => s.client.LoopHead? && s.taken >= |c.pieces|
    case Send(n) => s.client.Sending? && 1 <= n <= |s.client.unsent| && |s.up| + n <= c.upCapacity
    case SendDone => s.client.Sending? && s.client.unsent == []
    case Fill(n) => s.client.Reading? && !Done(s.client.got) && s.readBuf == [] && 1 <= n <= |s.down| && n <= c.readSize
    case Take => s.client.Reading? && !Done(s.client.got) && s.readBuf != []
    case Print => s.client.Reading? && Done(s.client.got)
    case ReadEof =>
      && s.client.Reading? && !Done(s.client.got) && s.readBuf == [] && s.down == []
      && (s.server.Closed? || s.server.Crashed?)
    case SendError => s.client.Sending? && s.client.unsent != [] && s.server.Crashed?
    case ReadError => s.client.Reading? && !Done(s.client.got) && s.readBuf == [] && s.server.Crashed?
    case Receive(n) => s.server.Listening? && 1 <= n <= |s.up| && n <= BUFFER
    case Reply(n) => s.server.Replying? && 1 <= n <= |s.server.reply| && |s.down| + n <= c.downCapacity
    case ReplyDone => s.server.Replying? && s.server.reply == []
    case ServerEof => s.server.Listening? && s.up == [] && ClientGone(s)
    case Interrupt => s.signals > 0
    case InterruptReceive => s.signals > 0 && s.server.Listening?
  }

  function Step(c: Config, s: State, a: Action): State
    requires Enabled(c, s, a)
  {
    match a
    case Fetch => s.(client := Sending(c.pieces[s.taken]), taken := s.taken + 1)
    case EndOfInput => s.(client := Finished)
    case Send(n) => s.(client := Sending(s.client.unsent[n..]), up := s.up + s.client.unsent[..n])
    case SendDone => s.(client := Reading([]))
    case Fill(n) => s.(readBuf := s.down[..n], down := s.down[n..])
    case Take => s.(client := Reading(s.client.got + [s.readBuf[0]]), readBuf := s.readBuf[1..])
    case Print => s.(client := LoopHead, printed := s.printed + [s.client.got])
    case ReadEof =>
      if s.client.got == [] then s.(client := TerminatedPrematurely)
      else s.(client := LoopHead, printed := s.printed + [s.client.got])
    case SendError => s.(client := Failed([], s.client.unsent))
    case ReadError => s.(client := Failed(s.client.got, []))
    case Receive(n) => s.(server := Replying(s.up[..n]), up := s.up[n..])
    case Reply(n) => s.(server := Replying(s.server.reply[n..]), down := s.down + s.server.reply[..n])
    case ReplyDone => s.(server := Listening)
    case ServerEof => s.(server := Closed)
    case Interrupt => s.(signals := s.signals - 1)
    case InterruptReceive =>
      s.(signals := s.signals - 1, server := if c.onInterrupt.Throws? then Crashed else Listening)
  }

  function Machine(c: Config): System<State, Action> {
    System((s, a) => Enabled(c, s, a), (s, a) => if Enabled(c, s, a) then Step(c, s, a) else s)
  }

  /** An interruption after which the interrupted call is made again. */
  predicate Harmless(c: Config, a: Action) {
    a.Interrupt? || (a.InterruptReceive? && c.onInterrupt.Retries?)
  }

  /** Nothing can happen but harmless signals. */
  ghost predicate Stuck(c: Config, s: State) {
    forall a :: Enabled(c, s, a) ==> Harmless(c, a)
  }

  function Unsent(client: Client): seq<byte> {
    if client.Sending? || client.Failed? then client.unsent else []
  }

  function Got(client: Client): seq<byte> {
    if client.Reading? || client.Failed? then client.got else []
  }

  function Held(server: Server): seq<byte> {
    if server.Replying? then server.reply else []
  }

  /** Every byte between the client's input and its screen, nearest the screen first: the
      client's partial line, its read-ahead, the channel down, what the server holds, the
      channel up, and what the client has not sent yet. */
  function Pipeline(s: State): seq<byte> {
    Got(s.client) + (s.readBuf + (s.down + (Held(s.server) + (s.up + Unsent(s.client)))))
  }

  /** No byte is lost, made up or reordered between the client's send and its screen. */
  predicate Conserved(c: Config, s: State) {
    && s.taken <= |c.pieces|
    && Concat(c.pieces[..s.taken]) == Concat(s.printed) + Pipeline(s)
  }

  /** Unless the server crashes, the client prints whole lines, one per piece, and nobody
      closes early. */
  predicate WellFormed(c: Config, s: State) {
    && AllExact(s.printed, ROOM, NEWLINE)
    && OneLine(Got(s.client), NEWLINE) && |Got(s.client)| <= ROOM
    && |s.printed| == (if s.client.Sending? || s.client.Reading? then s.taken - 1 else s.taken)
    && (s.client.Finished? ==> s.taken >= |c.pieces|)
    && (s.server.Closed? ==> s.client.Finished?)
    && !s.client.TerminatedPrematurely? && !s.client.Failed?
    && |s.up| <= c.upCapacity && |s.down| <= c.downCapacity
  }

  /** Nothing is printed in an iteration before it was sent in that iteration or earlier. */
  predicate Causal(c: Config, s: State) {
    && |s.printed| <= s.taken <= |c.pieces|
    && forall k :: 0 <= k <= |s.printed| ==> Concat(s.printed[..k]) <= Concat(c.pieces[..k])
  }

  /** What every run keeps, for pieces of any kind and length. */
  predicate Invariant(c: Config, s: State) {
    Conserved(c, s) && (!s.server.Crashed? ==> WellFormed(c, s) && Causal(c, s))
  }

  lemma StepKeepsWellFormed(c: Config, s: State, a: Action)
    requires WellFormed(c, s) && Enabled(c, s, a) && !s.server.Crashed?
    ensures WellFormed(c, Step(c, s, a)) || Step(c, s, a).server.Crashed?
  {
  }

  lemma Hand(to: seq<byte>, from: seq<byte>, n: nat, rest: seq<byte>)
    requires n <= |from|
    ensures to + (from + rest) == (to + from[..n]) + (from[n..] + rest)
    ensures to == [] ==> to + from[..n] == from[..n]
    ensures rest == [] ==> from + rest == from && from[n..] + rest == from[n..]
  {
  }

  predicate Prints(s: State, a: Action) {
    a.Print? || (a.ReadEof? && s.client.Reading? && s.client.got != [])
  }

  /** Each transfer takes bytes off the front of one stage onto the end of the next. */
  lemma TransferKeepsPipeline(c: Config, s: State, a: Action)
    requires Enabled(c, s, a) && !a.Fetch? && !Prints(s, a)
    ensures Pipeline(Step(c, s, a)) == Pipeline(s)
  {
    var beyondDown := Held(s.server) + (s.up + Unsent(s.client));
    match a
    case Send(n) => Hand(s.up, s.client.unsent, n, []);
    case Fill(n) => Hand([], s.down, n, beyondDown);
    case Take => Hand(s.client.got, s.readBuf, 1, s.down + beyondDown);
    case Receive(n) => Hand([], s.up, n, Unsent(s.client));
    case Reply(n) => Hand(s.down, s.server.reply, n, s.up + Unsent(s.client));
    case _ =>
  }

  lemma StepConserves(c: Config, s: State, a: Action)
    requires Conserved(c, s) && Enabled(c, s, a)
    ensures Conserved(c, Step(c, s, a))
  {
    if a.Fetch? {
      FetchConserves(c, s);
    } else if Prints(s, a) {
      PrintConserves(c, s, Step(c, s, a));
    } else {
      TransferKeepsPipeline(c, s, a);
    }
  }

  lemma PrintConserves(c: Config, s: State, t: State)
    requires Conserved(c, s) && s.client.Reading?
    requires t == s.(client := LoopHead, printed := s.printed + [s.client.got])
    ensures Conserved(c, t)
  {
    var rest := s.readBuf + (s.down + (Held(s.server) + (s.up + [])));
    assert Pipeline(s) == s.client.got + rest && Pipeline(t) == [] + rest;
    ConcatSnoc(s.printed, s.client.got);
    Assoc(Concat(s.printed), s.client.got, rest);
  }

  lemma FetchConserves(c: Config, s: State)
    requires Conserved(c, s) && Enabled(c, s, Fetch)
    ensures Conserved(c, Step(c, s, Fetch))
  {
    var t := Step(c, s, Fetch);
    var piece := c.pieces[s.taken];
    assert c.pieces[..t.taken] == c.pieces[..s.taken] + [piece];
    ConcatSnoc(c.pieces[..s.taken], piece);
    var channels := s.readBuf + (s.down + (Held(s.server) + s.up));
    assert Pipeline(s) == channels && Pipeline(t) == channels + piece;
    Assoc(Concat(s.printed), channels, piece);
  }

  lemma StepKeepsCausal(c: Config, s: State, a: Action)
    requires Causal(c, s) && Conserved(c, s) && WellFormed(c, s) && Enabled(c, s, a)
    requires Conserved(c, Step(c, s, a)) && WellFormed(c, Step(c, s, a))
    ensures Causal(c, Step(c, s, a))
  {
    var t := Step(c, s, a);
    forall k | 0 <= k <= |t.printed|
      ensures Concat(t.printed[..k]) <= Concat(c.pieces[..k])
    {
      if k <= |s.printed| {
        assert t.printed[..k] == s.printed[..k];
      } else {
        assert t.printed[..k] == t.printed && t.taken == k;
      }
    }
  }

  lemma StepKeepsInvariant(c: Config, s: State, a: Action)
    requires Invariant(c, s) && Enabled(c, s, a)
    ensures Invariant(c, Step(c, s, a))
  {
    StepConserves(c, s, a);
    if !Step(c, s, a).server.Crashed? {
      StepKeepsWellFormed(c, s, a);
      StepKeepsCausal(c, s, a);
    }
  }

  lemma RunKeepsInvariant(c: Config, s: State, run: seq<Action>)
    requires Invariant(c, s) && CanRun(Machine(c), s, run)
    ensures Invariant(c, After(Machine(c), s, run))
  {
    forall t, a | Invariant(c, t) && Enabled(c, t, a) ensures Invariant(c, Step(c, t, a)) {
      StepKeepsInvariant(c, t, a);
    }
    Keeps(Machine(c), t => Invariant(c, t), s, run);
  }

  lemma InitInvariant(c: Config, signals: nat)
    ensures Invariant(c, Init(c, signals))
  {
    assert c.pieces[..0] == [];
  }

  /** A state some run from the start leads to. */
  predicate Reached(c: Config, signals: nat, run: seq<Action>, s: State) {
    CanRun(Machine(c), Init(c, signals), run) && After(Machine(c), Init(c, signals), run) == s
  }

  lemma ReachedInvariant(c: Config, signals: nat, run: seq<Action>, s: State)
    requires Reached(c, signals, run, s)
    ensures Invariant(c, s)
  {
    InitInvariant(c, signals);
    RunKeepsInvariant(c, Init(c, signals), run);
  }

  /** No signal can make the server throw. */
  predicate SafeFromSignals(c: Config, s: State) {
    c.onInterrupt.Retries? || s.signals == 0
  }

  lemma NeverCrashes(c: Config, s: State, run: seq<Action>)
    requires SafeFromSignals(c, s) && !s.server.Crashed? && CanRun(Machine(c), s, run)
    ensures var t := After(Machine(c), s, run); SafeFromSignals(c, t) && !t.server.Crashed?
  {
    Keeps(Machine(c), t => SafeFromSignals(c, t) && !t.server.Crashed?, s, run);
  }

  lemma StaysCrashed(c: Config, s: State, run: seq<Action>)
    requires s.server.Crashed? && CanRun(Machine(c), s, run)
    ensures After(Machine(c), s, run).server.Crashed?
  {
    Keeps(Machine(c), (t: State) => t.server.Crashed?, s, run);
  }

  /** Conservation: whatever the input, the chunking, the interleaving and the signals, what
      was printed is followed by exactly what is still on its way. Unless the server crashes,
      the printed lines are the lines of the sent text, decided by that text alone, and the
      client never reports that the server terminated prematurely. */
  lemma Conservation(c: Config, signals: nat, run: seq<Action>, s: State)
    requires Reached(c, signals, run, s)
    ensures s.taken <= |c.pieces|
    ensures Concat(c.pieces[..s.taken]) == Concat(s.printed) + Pipeline(s)
    ensures !s.server.Crashed? ==>
              SplitLines(Concat(c.pieces[..s.taken]), ROOM, NEWLINE)
              == s.printed + SplitLines(Pipeline(s), ROOM, NEWLINE)
    ensures !s.server.Crashed? ==> !s.client.TerminatedPrematurely? && !s.client.Failed?
  {
    ReachedInvariant(c, signals, run, s);
    if !s.server.Crashed? {
      SplitLinesExact(s.printed, Pipeline(s), ROOM, NEWLINE);
    }
  }

  predicate PrintedAsLines(s: State) {
    && (forall i :: 0 <= i < |s.printed| ==>
          s.printed[i] != [] && |s.printed[i]| <= ROOM && OneLine(s.printed[i], NEWLINE))
    && (forall i :: 0 <= i < |s.printed| - 1 ==> Done(s.printed[i]))
    && (s.printed != [] && !Done(s.printed[|s.printed| - 1]) ==>
          s.server.Crashed? && s.readBuf == [] && s.down == [] && Got(s.client) == [])
    && OneLine(Got(s.client), NEWLINE) && |Got(s.client)| <= ROOM
  }

  /** The client prints one line in each iteration it completes, and gives up only on a server
      that has crashed, when that server's last bytes have been printed or with an error. */
  predicate OnePerPiece(c: Config, s: State) {
    && |s.printed| == (if s.client.LoopHead? || s.client.Finished? then s.taken else s.taken - 1)
    && (s.client.Finished? ==> s.taken >= |c.pieces|)
    && (s.server.Closed? ==> s.client.Finished?)
    && (s.client.TerminatedPrematurely? ==> s.server.Crashed? && s.readBuf == [] && s.down == [])
    && (s.client.Failed? ==> s.server.Crashed?)
  }

  lemma StepKeepsOnePerPiece(c: Config, s: State, a: Action)
    requires OnePerPiece(c, s) && Enabled(c, s, a)
    ensures OnePerPiece(c, Step(c, s, a))
  {
  }

  lemma StepKeepsPrinted(c: Config, s: State, a: Action)
    requires PrintedAsLines(s) && OnePerPiece(c, s) && Enabled(c, s, a)
    ensures PrintedAsLines(Step(c, s, a))
  {
    var t := Step(c, s, a);
    if t.printed == s.printed {
      assert a.Take? ==> OneLine(Got(t.client), NEWLINE);
    } else {
      assert t.printed == s.printed + [s.client.got];
    }
  }

  /** In every run, one in which the server crashes too, what is on the screen is cut into its
      lines: none is empty, and a line is incomplete only if it is the last and the server
      crashed in the middle of it. There is one for each iteration completed, and the client
      reports a premature end only of a crashed server of which everything has been printed. */
  lemma PrintsLines(c: Config, signals: nat, run: seq<Action>, s: State)
    requires Reached(c, signals, run, s)
    ensures s.printed == SplitLines(Concat(s.printed), ROOM, NEWLINE)
    ensures AllExact(s.printed, ROOM, NEWLINE) || s.server.Crashed?
    ensures OnePerPiece(c, s)
  {
    forall t, a | PrintedAsLines(t) && OnePerPiece(c, t) && Enabled(c, t, a)
      ensures PrintedAsLines(Step(c, t, a)) && OnePerPiece(c, Step(c, t, a))
    {
      StepKeepsPrinted(c, t, a);
      StepKeepsOnePerPiece(c, t, a);
    }
    Keeps(Machine(c), t => PrintedAsLines(t) && OnePerPiece(c, t), Init(c, signals), run);
    if s.printed != [] {
      var n := |s.printed| - 1;
      var last := s.printed[n];
      assert s.printed == s.printed[..n] + [last];
      ConcatSnoc(s.printed[..n], last);
      SplitLinesExact(s.printed[..n], last, ROOM, NEWLINE);
      TakeLineUnique(last, last, ROOM, NEWLINE);
      assert last[|last|..] == [];
    }
  }

  lemma ExactLinesDetermined(
    lines: seq<seq<byte>>, rest: seq<byte>, pieces: seq<seq<byte>>, last: seq<byte>, room: nat)
    requires room > 0 && AllExact(lines, room, NEWLINE) && AllExact(pieces, room, NEWLINE)
    requires Concat(lines) + rest == Concat(pieces) + last
    requires |lines| == |pieces|
    ensures lines == pieces && rest == last
  {
    SplitLinesExact(lines, rest, room, NEWLINE);
    SplitLinesExact(pieces, last, room, NEWLINE);
    var all := SplitLines(Concat(lines) + rest, room, NEWLINE);
    assert lines == all[..|lines|] && pieces == all[..|lines|];
    assert rest == (Concat(lines) + rest)[|Concat(lines)|..] == (Concat(lines) + last)[|Concat(lines)|..] == last;
  }

  /** Every piece the client has taken so far is one complete line of at most ROOM bytes. */
  predicate TakenExact(c: Config, s: State) {
    s.taken <= |c.pieces| && AllExact(c.pieces[..s.taken], ROOM, NEWLINE)
  }

  predicate InStep(c: Config, s: State) {
    && |s.printed| <= s.taken <= |c.pieces|
    && s.printed == c.pieces[..|s.printed|]
    && (s.client.LoopHead? || s.client.Finished? ==>
          && s.printed == c.pieces[..s.taken]
          && s.readBuf == [] && s.down == [] && Held(s.server) == [] && s.up == [])
    && (s.client.Sending? || s.client.Reading? ==>
          s.taken > 0 && |s.printed| == s.taken - 1 && Pipeline(s) == c.pieces[s.taken - 1])
  }

  lemma ExactMeansInStep(c: Config, s: State)
    requires Invariant(c, s) && !s.server.Crashed? && TakenExact(c, s)
    ensures InStep(c, s)
  {
    var n := |s.printed|;
    var last := if n < s.taken then c.pieces[n] else [];
    if n < s.taken {
      assert c.pieces[..s.taken] == c.pieces[..n] + [last];
      ConcatSnoc(c.pieces[..n], last);
    }
    assert c.pieces[..s.taken][..n] == c.pieces[..n];
    ExactLinesDetermined(s.printed, Pipeline(s), c.pieces[..n], last, ROOM);
  }

  /** Lock-step: while each piece sent is one complete line of at most ROOM bytes, every
      iteration prints the piece it sent, and at the loop head nothing is left in either
      channel or in a buffer. In the middle of an iteration exactly its piece is under way. */
  lemma LockStep(c: Config, signals: nat, run: seq<Action>, s: State)
    requires Reached(c, signals, run, s) && !s.server.Crashed?
    requires TakenExact(c, s)
    ensures InStep(c, s)
  {
    ReachedInvariant(c, signals, run, s);
    ExactMeansInStep(c, s);
  }

  /** At the loop head the lines printed are the pieces sent if and only if those pieces
      are complete lines of at most ROOM bytes. */
  lemma LockStepIff(c: Config, signals: nat, run: seq<Action>, s: State)
    requires Reached(c, signals, run, s) && !s.server.Crashed?
    requires s.client.LoopHead? || s.client.Finished?
    ensures s.taken <= |c.pieces|
    ensures s.printed == c.pieces[..s.taken] <==> TakenExact(c, s)
  {
    ReachedInvariant(c, signals, run, s);
    if TakenExact(c, s) {
      ExactMeansInStep(c, s);
    }
  }

  /** The pieces the C client can send: fgets never stores more than ROOM bytes, nor any
      after a newline. */
  predicate WithinLines(pieces: seq<seq<byte>>) {
    forall i :: 0 <= i < |pieces| ==> |pieces[i]| <= ROOM && OneLine(pieces[i], NEWLINE)
  }

  /** For such pieces the client never prints anything but the piece it has just sent,
      complete or not: an incomplete piece can only keep it waiting. */
  lemma PrintsWhatItSent(c: Config, signals: nat, run: seq<Action>, s: State)
    requires Reached(c, signals, run, s) && !s.server.Crashed?
    requires WithinLines(c.pieces)
    ensures |s.printed| <= |c.pieces| && s.printed == c.pieces[..|s.printed|]
    ensures AllExact(c.pieces[..|s.printed|], ROOM, NEWLINE)
  {
    ReachedInvariant(c, signals, run, s);
    PrintedPrefix(c, s, |s.printed|);
  }

  lemma {:induction false} PrintedPrefix(c: Config, s: State, k: nat)
    requires WellFormed(c, s) && Causal(c, s) && WithinLines(c.pieces) && k <= |s.printed|
    ensures s.printed[..k] == c.pieces[..k]
  {
    if k > 0 {
      PrintedPrefix(c, s, k - 1);
      var line, piece := s.printed[k - 1], c.pieces[k - 1];
      assert s.printed[..k] == s.printed[..k - 1] + [line];
      assert c.pieces[..k] == c.pieces[..k - 1] + [piece];
      ConcatSnoc(s.printed[..k - 1], line);
      ConcatSnoc(c.pieces[..k - 1], piece);
      PrefixAfter(Concat(c.pieces[..k - 1]), line, piece);
      assert Exact(line, ROOM, NEWLINE) && |piece| <= ROOM && OneLine(piece, NEWLINE);
      assert |line| == ROOM || piece[|line| - 1] == NEWLINE;
      assert line == piece;
    }
  }

  lemma PrefixAfter(common: seq<byte>, a: seq<byte>, b: seq<byte>)
    requires common + a <= common + b
    ensures a <= b
  {
    assert common + a == (common + b)[..|common + a|];
    assert a == (common + a)[|common|..];
  }

  predicate Provisioned(c: Config) {
    c.upCapacity >= 1 && c.downCapacity >= 1 && c.readSize >= 1
  }

  /** The channels together hold all but one byte of the piece. */
  predicate Fits(c: Config, piece: seq<byte>) {
    |piece| <= c.upCapacity + c.downCapacity + 1
  }

  predicate AllFit(c: Config) {
    forall i :: 0 <= i < |c.pieces| ==> Fits(c, c.pieces[i])
  }

  lemma ServerMove(c: Config, s: State) returns (a: Action)
    requires !s.server.Closed? && !s.server.Crashed?
    requires s.server.Listening? ==> s.up != []
    requires Held(s.server) != [] ==> |s.down| < c.downCapacity
    ensures Enabled(c, s, a) && !a.Interrupt? && !a.InterruptReceive? && !a.Fetch?
  {
    a := if s.server.Listening? then Receive(1) else if s.server.reply == [] then ReplyDone else Reply(1);
  }

  lemma Move(c: Config, s: State) returns (a: Action)
    requires Invariant(c, s) && !s.server.Crashed? && TakenExact(c, s) && Provisioned(c)
    requires s.client.Sending? ==> s.taken > 0 && Fits(c, c.pieces[s.taken - 1])
    requires !s.client.Finished? || !s.server.Closed?
    ensures Enabled(c, s, a) && !a.Interrupt? && !a.InterruptReceive?
  {
    ExactMeansInStep(c, s);
    match s.client
    case LoopHead =>
      a := if s.taken < |c.pieces| then Fetch else EndOfInput;
    case Sending(unsent) =>
      if unsent == [] { a := SendDone; }
      else if |s.up| < c.upCapacity { a := Send(1); }
      else { a := ServerMove(c, s); }
    case Reading(got) =>
      if Done(got) { a := Print; }
      else if s.readBuf != [] { a := Take; }
      else if s.down != [] { a := Fill(1); }
      else {
        assert Exact(c.pieces[..s.taken][s.taken - 1], ROOM, NEWLINE);
        a := ServerMove(c, s);
      }
    case Finished =>
      a := ServerEof;
      if !s.server.Listening? { a := ReplyDone; }
    case TerminatedPrematurely =>
    case Failed(_, _) =>
  }

  /** Progress: while the pieces sent are complete lines that fit, some process can move
      without a signal until the client has finished and the server has seen it. */
  lemma Progress(c: Config, signals: nat, run: seq<Action>, s: State) returns (a: Action)
    requires Reached(c, signals, run, s) && !s.server.Crashed? && Provisioned(c)
    requires TakenExact(c, s)
    requires forall i :: 0 <= i < s.taken ==> Fits(c, c.pieces[i])
    requires !s.client.Finished? || !s.server.Closed?
    ensures Enabled(c, s, a) && !a.Interrupt? && !a.InterruptReceive?
  {
    ReachedInvariant(c, signals, run, s);
    a := Move(c, s);
  }

  function InputWeight(pieces: seq<seq<byte>>): nat {
    if pieces == [] then 0 else 8 * |pieces[0]| + 3 + InputWeight(pieces[1..])
  }

  function ClientWeight(client: Client): nat {
    match client
    case LoopHead => 1
    case Sending(unsent) => 7 * |unsent| + 3
    case Reading(got) => |got| + 2
    case Finished => 0
    case TerminatedPrematurely => 0
    case Failed(_, _) => 0
  }

  function ServerWeight(server: Server): nat {
    match server
    case Listening => 1
    case Replying(reply) => 4 * |reply| + 2
    case Closed => 0
    case Crashed => 0
  }

  /** A bound on the steps still to come. */
  function Weight(c: Config, s: State): nat
    requires s.taken <= |c.pieces|
  {
    s.signals + InputWeight(c.pieces[s.taken..]) + ClientWeight(s.client)
    + 6 * |s.up| + ServerWeight(s.server) + 3 * |s.down| + 2 * |s.readBuf|
  }

  lemma StepLosesWeight(c: Config, s: State, a: Action)
    requires s.taken <= |c.pieces| && Enabled(c, s, a)
    ensures Step(c, s, a).taken <= |c.pieces|
    ensures Weight(c, Step(c, s, a)) < Weight(c, s)
  {
    if a.Fetch? {
      assert c.pieces[s.taken..][1..] == c.pieces[s.taken + 1..];
    }
  }

  /** Termination: no run is longer than the weight of the state it starts from, for any
      input and any capacities. */
  lemma {:induction false} RunBounded(c: Config, s: State, run: seq<Action>)
    requires s.taken <= |c.pieces| && CanRun(Machine(c), s, run)
    ensures After(Machine(c), s, run).taken <= |c.pieces|
    ensures |run| + Weight(c, After(Machine(c), s, run)) <= Weight(c, s)
    decreases |run|
  {
    if run != [] {
      StepLosesWeight(c, s, run[0]);
      RunBounded(c, Step(c, s, run[0]), run[1..]);
    }
  }

  /** Every state has a run to one where nothing is left to happen; with RunBounded, every
      run gets to such a state if it goes on for as long as it can. */
  lemma {:induction false} ReachesEnd(c: Config, s: State) returns (run: seq<Action>)
    requires s.taken <= |c.pieces|
    ensures CanRun(Machine(c), s, run) && Stuck(c, After(Machine(c), s, run))
    decreases Weight(c, s)
  {
    if Stuck(c, s) {
      run := [];
    } else {
      var a :| Enabled(c, s, a) && !Harmless(c, a);
      StepLosesWeight(c, s, a);
      run := ReachesEnd(c, Step(c, s, a));
      Prepend(Machine(c), s, a, run);
      run := [a] + run;
    }
  }

  /** Both processes have ended, and each piece of the input was printed as it was sent. */
  predicate Served(c: Config, s: State) {
    s.client.Finished? && s.server.Closed? && s.printed == c.pieces
  }

  /** Completion: a run that cannot be extended has printed the whole input line by line,
      emptied both channels and ended both processes. */
  lemma Completion(c: Config, signals: nat, run: seq<Action>, s: State)
    requires Reached(c, signals, run, s) && Stuck(c, s) && !s.server.Crashed?
    requires AllExact(c.pieces, ROOM, NEWLINE) && AllFit(c) && Provisioned(c)
    ensures Served(c, s) && Pipeline(s) == []
  {
    ReachedInvariant(c, signals, run, s);
    if !s.client.Finished? || !s.server.Closed? {
      var a := Progress(c, signals, run, s);
    }
    ExactMeansInStep(c, s);
    assert c.pieces[..s.taken] == c.pieces;
  }

  /** For the C client, if the pieces fit, a run that cannot be extended has finished if and
      only if every piece is complete; otherwise the client waits forever for the end of its
      first incomplete piece. */
  lemma CompletionIff(c: Config, signals: nat, run: seq<Action>, s: State)
    requires Reached(c, signals, run, s) && Stuck(c, s) && !s.server.Crashed?
    requires WithinLines(c.pieces) && AllFit(c) && Provisioned(c)
    ensures s.client.Finished? <==> AllExact(c.pieces, ROOM, NEWLINE)
  {
    if s.client.Finished? {
      ReachedInvariant(c, signals, run, s);
      PrintsWhatItSent(c, signals, run, s);
      assert c.pieces[..|s.printed|] == c.pieces;
    }
    if AllExact(c.pieces, ROOM, NEWLINE) {
      Completion(c, signals, run, s);
    }
  }

  /** Sender and echoer block each other. */
  predicate Jammed(c: Config, s: State) {
    && s.client.Sending? && s.client.unsent != [] && |s.up| >= c.upCapacity
    && s.server.Replying? && s.server.reply != [] && |s.down| >= c.downCapacity
  }

  lemma {:induction false} Jam(c: Config, s: State) returns (run: seq<Action>)
    requires Provisioned(c)
    requires s.client.Sending? && s.server == Listening && s.up == [] && |s.down| <= c.downCapacity
    requires |s.client.unsent| >= c.downCapacity - |s.down| + c.upCapacity + 2
    ensures CanRun(Machine(c), s, run) && Jammed(c, After(Machine(c), s, run))
    decreases c.downCapacity - |s.down|
  {
    var m := Machine(c);
    var s1 := Step(c, s, Send(1));
    var s2 := Step(c, s1, Receive(1));
    if |s.down| < c.downCapacity {
      var s3 := Step(c, s2, Reply(1));
      var s4 := Step(c, s3, ReplyDone);
      run := Jam(c, s4);
      Prepend(m, s3, ReplyDone, run);
      Prepend(m, s2, Reply(1), [ReplyDone] + run);
      run := [Reply(1)] + ([ReplyDone] + run);
    } else {
      run := [];
      Prepend(m, s2, Send(c.upCapacity), run);
      run := [Send(c.upCapacity)] + run;
    }
    Prepend(m, s1, Receive(1), run);
    Prepend(m, s, Send(1), [Receive(1)] + run);
    run := [Send(1)] + ([Receive(1)] + run);
  }

  predicate AtPiece(s: State, i: nat) {
    s.client.LoopHead? && s.taken == i && s.server == Listening
  }

  lemma TowardsPiece(c: Config, s: State, i: nat) returns (a: Action)
    requires Invariant(c, s) && !s.server.Crashed? && Provisioned(c)
    requires s.taken <= i < |c.pieces| && AllExact(c.pieces[..i], ROOM, NEWLINE)
    requires forall j :: 0 <= j < i ==> Fits(c, c.pieces[j])
    requires !AtPiece(s, i)
    ensures Enabled(c, s, a) && Step(c, s, a).taken <= i && !Step(c, s, a).server.Crashed?
  {
    assert c.pieces[..s.taken] == c.pieces[..i][..s.taken];
    ExactMeansInStep(c, s);
    if s.client.LoopHead? && s.taken == i { a := ReplyDone; } else { a := Move(c, s); }
  }

  /** The client gets to piece i, with the server waiting, if the pieces before it allow it. */
  lemma {:induction false} ReachesPiece(c: Config, s: State, i: nat) returns (run: seq<Action>)
    requires Invariant(c, s) && !s.server.Crashed? && Provisioned(c)
    requires s.taken <= i < |c.pieces| && AllExact(c.pieces[..i], ROOM, NEWLINE)
    requires forall j :: 0 <= j < i ==> Fits(c, c.pieces[j])
    ensures CanRun(Machine(c), s, run)
    ensures var t := After(Machine(c), s, run); AtPiece(t, i) && t.up == [] && t.down == []
    decreases Weight(c, s)
  {
    if AtPiece(s, i) {
      ExactMeansInStep(c, s);
      run := [];
    } else {
      var a := TowardsPiece(c, s, i);
      StepLosesWeight(c, s, a);
      StepKeepsInvariant(c, s, a);
      run := ReachesPiece(c, Step(c, s, a), i);
      Prepend(Machine(c), s, a, run);
      run := [a] + run;
    }
  }

  /** Room is needed: if the first piece that does not fit comes after complete ones only,
      there is a run in which client and server wait for each other forever. The piece
      itself may be of any kind and length. */
  lemma Deadlock(c: Config, signals: nat, i: nat) returns (run: seq<Action>)
    requires Provisioned(c)
    requires i < |c.pieces| && !Fits(c, c.pieces[i])
    requires AllExact(c.pieces[..i], ROOM, NEWLINE) && forall j :: 0 <= j < i ==> Fits(c, c.pieces[j])
    ensures CanRun(Machine(c), Init(c, signals), run)
    ensures var s := After(Machine(c), Init(c, signals), run); Jammed(c, s) && Stuck(c, s)
  {
    var m := Machine(c);
    InitInvariant(c, signals);
    var before := ReachesPiece(c, Init(c, signals), i);
    var s := After(m, Init(c, signals), before);
    var jam := Jam(c, Step(c, s, Fetch));
    Prepend(m, s, Fetch, jam);
    Append(m, Init(c, signals), before, [Fetch] + jam);
    run := before + ([Fetch] + jam);
  }

  /** The first piece that does not fit. */
  lemma {:induction false} FirstMisfit(c: Config, n: nat) returns (i: nat)
    requires n <= |c.pieces| && exists j :: 0 <= j < n && !Fits(c, c.pieces[j])
    ensures i < n && !Fits(c, c.pieces[i]) && forall j :: 0 <= j < i ==> Fits(c, c.pieces[j])
  {
    if exists j :: 0 <= j < n - 1 && !Fits(c, c.pieces[j]) {
      i := FirstMisfit(c, n - 1);
    } else {
      i := n - 1;
    }
  }

  /** Deadlock freedom, for complete pieces: no run ends in a state where client and server
      wait for each other, if and only if every piece fits. */
  lemma DeadlockFreeIff(c: Config, signals: nat)
    requires Provisioned(c) && AllExact(c.pieces, ROOM, NEWLINE)
    ensures (forall run :: CanRun(Machine(c), Init(c, signals), run) ==>
              !Jammed(c, After(Machine(c), Init(c, signals), run)))
            <==> AllFit(c)
  {
    if AllFit(c) {
      forall run | CanRun(Machine(c), Init(c, signals), run)
        ensures !Jammed(c, After(Machine(c), Init(c, signals), run))
      {
        var s := After(Machine(c), Init(c, signals), run);
        ReachedInvariant(c, signals, run, s);
        if s.client.Sending? && !s.server.Crashed? {
          ExactMeansInStep(c, s);
          assert Fits(c, c.pieces[s.taken - 1]);
        }
      }
    } else {
      var i := FirstMisfit(c, |c.pieces|);
      var run := Deadlock(c, signals, i);
    }
  }

  /** A signal at the start, and a server that throws. */
  lemma CrashRun(c: Config, signals: nat) returns (run: seq<Action>)
    requires c.onInterrupt.Throws? && signals > 0
    ensures CanRun(Machine(c), Init(c, signals), run)
    ensures var s := After(Machine(c), Init(c, signals), run); Stuck(c, s) && s.server.Crashed?
  {
    var s := Step(c, Init(c, signals), InterruptReceive);
    run := ReachesEnd(c, s);
    StaysCrashed(c, s, run);
    Prepend(Machine(c), Init(c, signals), InterruptReceive, run);
    run := [InterruptReceive] + run;
  }

  /** However the session is scheduled and interrupted, it ends with the whole input printed. */
  ghost predicate AlwaysServed(c: Config, signals: nat) {
    forall run :: CanRun(Machine(c), Init(c, signals), run) && Stuck(c, After(Machine(c), Init(c, signals), run)) ==>
      Served(c, After(Machine(c), Init(c, signals), run))
  }

  /** The exact condition, for pieces of any kind: every piece is a complete line of at most
      ROOM bytes, every piece fits the channels, and no signal can make the server throw. */
  lemma AlwaysServedIff(c: Config, signals: nat)
    requires Provisioned(c)
    ensures AlwaysServed(c, signals) <==>
            AllExact(c.pieces, ROOM, NEWLINE) && AllFit(c) && SafeFromSignals(c, Init(c, signals))
  {
    var m, s0 := Machine(c), Init(c, signals);
    if !SafeFromSignals(c, s0) {
      var run := CrashRun(c, signals);
    } else if !AllExact(c.pieces, ROOM, NEWLINE) {
      var run := ReachesEnd(c, s0);
      ReachedInvariant(c, signals, run, After(m, s0, run));
      NeverCrashes(c, s0, run);
    } else if !AllFit(c) {
      var i := FirstMisfit(c, |c.pieces|);
      var run := Deadlock(c, signals, i);
    } else {
      forall run | CanRun(m, s0, run) && Stuck(c, After(m, s0, run)) ensures Served(c, After(m, s0, run)) {
        NeverCrashes(c, s0, run);
        Completion(c, signals, run, After(m, s0, run));
      }
    }
  }
}
