// Who closes which descriptor. First the rules on values: a kernel that reuses numbers and a
// list of sockets under construction, accept, move, swap assignment, Close and destruction;
// then the class, whose methods follow those rules.
module Ownership {
  import opened Runs

  /** What a socket object holds: a number and a family, or -1. The ticket is history: which
      of all descriptors ever handed out the number stands for. */
  datatype Handle = Handle(fd: int, family: int, ticket: int)

  const EMPTY := Handle(-1, -1, -1)

  /** A successful close(2): the descriptor that was closed, and the one that the socket
      making the call held. */
  datatype Closing = Closing(ticket: int, holder: int)

  /** The descriptor table: the open numbers, each with its ticket; the tickets issued; the
      closings; and how many calls of close(2) failed on a number that is no -1. */
  datatype Table = Table(open: map<int, nat>, issued: nat, closed: seq<Closing>, failed: nat)

  datatype World = World(table: Table, held: seq<Handle>)

  const NO_SOCKETS := World(Table(map[], 0, [], 0), [])

  datatype Op =
    | Default | Open(family: int) | AcceptOn(i: nat) | MoveFrom(i: nat) | Assign(i: nat, j: nat)
    | CloseAt(i: nat) | DestroyAt(i: nat)

  /** An operation, with the number socket(2) or accept(2) answers if it is called: any that
      is not open, or -1. */
  datatype Call = Call(op: Op, answer: int)

  /** The operation names sockets that exist. */
  predicate Applies(op: Op, n: nat) {
    match op
    case Default => true
    case Open(_) => true
    case Assign(i, j) => i < n && j < n
    case AcceptOn(i) => i < n
    case MoveFrom(i) => i < n
    case CloseAt(i) => i < n
    case DestroyAt(i) => i < n
  }

  predicate Legal(t: Table, answer: int) {
    answer == -1 || (answer >= 0 && answer !in t.open)
  }

  function Allocated(t: Table, fd: int): Table {
    t.(open := t.open[fd := t.issued], issued := t.issued + 1)
  }

  /** close(2), called by a socket that holds `holder`. */
  function Released(t: Table, fd: int, holder: int): Table {
    if fd in t.open then t.(open := t.open - {fd}, closed := t.closed + [Closing(t.open[fd], holder)])
    else t.(failed := t.failed + if fd >= 0 then 1 else 0)
  }

  predicate Enabled(w: World, c: Call) {
    Legal(w.table, c.answer) && Applies(c.op, |w.held|)
  }

  function Step(w: World, c: Call): World
    requires Enabled(w, c)
  {
    var t, held := w.table, w.held;
    match c.op
    case Default => World(t, held + [EMPTY])
    case Open(family) =>
      if c.answer < 0 then w else World(Allocated(t, c.answer), held + [Handle(c.answer, family, t.issued)])
    case AcceptOn(i) =>
      if c.answer < 0 then w else World(Allocated(t, c.answer), held + [Handle(c.answer, held[i].family, t.issued)])
    case MoveFrom(i) => World(t, held[i := EMPTY] + [held[i]])
    case Assign(i, j) => World(t, held[i := held[j]][j := held[i]])
    case CloseAt(i) =>
      var h := held[i];
      World(Released(t, h.fd, h.ticket), if h.fd in t.open then held[i := h.(fd := -1, ticket := -1)] else held)
    case DestroyAt(i) =>
      var h := held[i];
      World(if h.fd >= 0 then Released(t, h.fd, h.ticket) else t, held[..i] + held[i + 1..])
  }

  function Machine(): System<World, Call> {
    System((w, c) => Enabled(w, c), (w, c) => if Enabled(w, c) then Step(w, c) else w)
  }

  predicate OpenAs(t: Table, fd: int, ticket: int) {
    fd in t.open && t.open[fd] == ticket
  }

  ghost predicate IsOpen(t: Table, ticket: int) {
    exists fd :: OpenAs(t, fd, ticket)
  }

  predicate ClosedAt(closed: seq<Closing>, i: nat, ticket: int) {
    i < |closed| && closed[i].ticket == ticket
  }

  ghost predicate IsClosed(closed: seq<Closing>, ticket: int) {
    exists i :: ClosedAt(closed, i, ticket)
  }

  predicate HeldAt(held: seq<Handle>, i: nat, fd: int, ticket: int) {
    i < |held| && held[i].fd == fd && held[i].ticket == ticket
  }

  ghost predicate IsHeld(held: seq<Handle>, fd: int, ticket: int) {
    exists i :: HeldAt(held, i, fd, ticket)
  }

  /** No number is held twice. */
  predicate Different(held: seq<Handle>) {
    forall i, j :: 0 <= i < j < |held| && held[i].fd >= 0 ==> held[i].fd != held[j].fd
  }

  /** A number that is held is open, and still stands for what its holder was given. */
  predicate HeldAreOpen(t: Table, held: seq<Handle>) {
    forall i :: 0 <= i < |held| && held[i].fd >= 0 ==> OpenAs(t, held[i].fd, held[i].ticket)
  }

  /** Every open descriptor is held. */
  ghost predicate NoneLoose(t: Table, held: seq<Handle>) {
    forall fd :: fd in t.open ==> fd >= 0 && IsHeld(held, fd, t.open[fd])
  }

  /** Every ticket is open, under one number, or was closed, once, by the socket that held
      it; and no close(2) failed on a number. */
  ghost predicate ClosedByOwner(t: Table) {
    && t.failed == 0
    && (forall i :: 0 <= i < |t.closed| ==>
          t.closed[i].holder == t.closed[i].ticket && 0 <= t.closed[i].ticket < t.issued)
    && (forall i, j :: 0 <= i < j < |t.closed| ==> t.closed[i].ticket != t.closed[j].ticket)
    && (forall fd :: fd in t.open ==> t.open[fd] < t.issued)
    && (forall a, b :: a in t.open && b in t.open && a != b ==> t.open[a] != t.open[b])
    && (forall fd, i :: fd in t.open && 0 <= i < |t.closed| ==> t.open[fd] != t.closed[i].ticket)
    && (forall ticket: nat :: ticket < t.issued ==> IsOpen(t, ticket) || IsClosed(t.closed, ticket))
  }

  /** The sockets hold pairwise different descriptors, and exactly the open ones. */
  ghost predicate Holding(t: Table, held: seq<Handle>) {
    Different(held) && HeldAreOpen(t, held) && NoneLoose(t, held)
  }

  ghost predicate Owned(w: World) {
    Holding(w.table, w.held) && ClosedByOwner(w.table)
  }

  lemma AllocatedKeeps(t: Table, fd: int)
    requires ClosedByOwner(t) && fd >= 0 && fd !in t.open
    ensures ClosedByOwner(Allocated(t, fd))
  {
    var t' := Allocated(t, fd);
    forall ticket: nat | ticket < t'.issued
      ensures IsOpen(t', ticket) || IsClosed(t'.closed, ticket)
    {
      if ticket == t.issued {
        assert OpenAs(t', fd, ticket);
      } else if IsOpen(t, ticket) {
        var a :| OpenAs(t, a, ticket);
        assert OpenAs(t', a, ticket);
      }
    }
  }

  lemma ReleasedKeeps(t: Table, fd: int)
    requires ClosedByOwner(t) && fd in t.open
    ensures ClosedByOwner(Released(t, fd, t.open[fd]))
  {
    var t' := Released(t, fd, t.open[fd]);
    forall ticket: nat | ticket < t'.issued
      ensures IsOpen(t', ticket) || IsClosed(t'.closed, ticket)
    {
      if ticket == t.open[fd] {
        assert ClosedAt(t'.closed, |t.closed|, ticket);
      } else if IsOpen(t, ticket) {
        var a :| OpenAs(t, a, ticket);
        assert OpenAs(t', a, ticket);
      } else {
        var i: nat :| ClosedAt(t.closed, i, ticket);
        assert ClosedAt(t'.closed, i, ticket);
      }
    }
  }

  /** Sockets are rearranged: `to` says where each one that holds something goes. */
  lemma Rearranged(t: Table, held: seq<Handle>, held': seq<Handle>, to: nat -> nat, from: nat -> nat)
    requires Holding(t, held)
    requires forall i: nat :: i < |held| && held[i].fd >= 0 ==>
               to(i) < |held'| && held'[to(i)].fd == held[i].fd && held'[to(i)].ticket == held[i].ticket
    requires forall i: nat :: i < |held'| && held'[i].fd >= 0 ==>
               from(i) < |held| && held[from(i)].fd == held'[i].fd && held[from(i)].ticket == held'[i].ticket
               && to(from(i)) == i
    ensures Holding(t, held')
  {
    forall i, j | 0 <= i < j < |held'| && held'[i].fd >= 0 ensures held'[i].fd != held'[j].fd {
      if held'[j].fd >= 0 {
        assert from(i) != from(j);
      }
    }
    forall fd | fd in t.open ensures fd >= 0 && IsHeld(held', fd, t.open[fd]) {
      var i: nat :| HeldAt(held, i, fd, t.open[fd]);
      assert HeldAt(held', to(i), fd, t.open[fd]);
    }
  }

  lemma MoveKeeps(t: Table, held: seq<Handle>, k: nat)
    requires Holding(t, held) && k < |held|
    ensures var held' := held[k := EMPTY] + [held[k]];
            Holding(t, held')
  {
    Rearranged(t, held, held[k := EMPTY] + [held[k]],
               (i: nat) => if i == k then |held| else i, (i: nat) => if i == |held| then k else i);
  }

  lemma AssignKeeps(t: Table, held: seq<Handle>, k: nat, l: nat)
    requires Holding(t, held) && k < |held| && l < |held|
    ensures var held' := held[k := held[l]][l := held[k]];
            Holding(t, held')
  {
    var swap := (i: nat) => if i == k then l else if i == l then k else i;
    Rearranged(t, held, held[k := held[l]][l := held[k]], swap, swap);
  }

  /** A new socket that holds nothing. */
  lemma EmptyKeeps(t: Table, held: seq<Handle>)
    requires Holding(t, held)
    ensures Holding(t, held + [EMPTY])
  {
    Rearranged(t, held, held + [EMPTY], (i: nat) => i, (i: nat) => i);
  }

  /** A new socket with a new descriptor. */
  lemma JoinKeeps(t: Table, held: seq<Handle>, h: Handle)
    requires Holding(t, held)
    requires h.fd >= 0 && h.fd !in t.open && h.ticket == t.issued
    ensures var t', held' := Allocated(t, h.fd), held + [h];
            Holding(t', held')
  {
    var t', held' := Allocated(t, h.fd), held + [h];
    forall i | 0 <= i < |held| && held[i].fd >= 0 ensures OpenAs(t', held[i].fd, held[i].ticket) && held[i].fd != h.fd {
      assert OpenAs(t, held[i].fd, held[i].ticket);
    }
    forall fd | fd in t'.open ensures fd >= 0 && IsHeld(held', fd, t'.open[fd]) {
      if fd == h.fd {
        assert HeldAt(held', |held|, fd, t'.open[fd]);
      } else {
        var i: nat :| HeldAt(held, i, fd, t.open[fd]);
        assert HeldAt(held', i, fd, t'.open[fd]);
      }
    }
  }

  /** The number held at k is released, and that socket holds it no more. */
  lemma LeaveKeeps(t: Table, held: seq<Handle>, k: nat)
    requires Holding(t, held)
    requires k < |held| && held[k].fd >= 0
    ensures var t', held' := Released(t, held[k].fd, held[k].ticket), held[k := held[k].(fd := -1, ticket := -1)];
            Holding(t', held')
  {
    var t', held' := Released(t, held[k].fd, held[k].ticket), held[k := held[k].(fd := -1, ticket := -1)];
    assert OpenAs(t, held[k].fd, held[k].ticket);
    forall i | 0 <= i < |held'| && held'[i].fd >= 0 ensures OpenAs(t', held'[i].fd, held'[i].ticket) {
      assert i != k && OpenAs(t, held[i].fd, held[i].ticket);
    }
    forall fd | fd in t'.open ensures fd >= 0 && IsHeld(held', fd, t'.open[fd]) {
      var i: nat :| HeldAt(held, i, fd, t.open[fd]);
      assert HeldAt(held', i, fd, t'.open[fd]);
    }
  }

  /** A socket that holds nothing goes. */
  lemma DropKeeps(t: Table, held: seq<Handle>, k: nat)
    requires Holding(t, held)
    requires k < |held| && held[k].fd < 0
    ensures var held' := held[..k] + held[k + 1..];
            Holding(t, held')
  {
    var held' := held[..k] + held[k + 1..];
    assert forall i :: 0 <= i < |held'| ==> held'[i] == held[if i < k then i else i + 1];
    forall fd | fd in t.open ensures fd >= 0 && IsHeld(held', fd, t.open[fd]) {
      var i: nat :| HeldAt(held, i, fd, t.open[fd]);
      assert HeldAt(held', if i < k then i else i - 1, fd, t.open[fd]);
    }
  }

  lemma DestroyKeeps(t: Table, held: seq<Handle>, k: nat)
    requires Holding(t, held) && k < |held|
    ensures Holding(if held[k].fd >= 0 then Released(t, held[k].fd, held[k].ticket) else t, held[..k] + held[k + 1..])
  {
    if held[k].fd >= 0 {
      LeaveKeeps(t, held, k);
      var emptied := held[k := held[k].(fd := -1, ticket := -1)];
      DropKeeps(Released(t, held[k].fd, held[k].ticket), emptied, k);
      assert emptied[..k] + emptied[k + 1..] == held[..k] + held[k + 1..];
    } else {
      DropKeeps(t, held, k);
    }
  }

  lemma StepKeepsHolding(w: World, c: Call)
    requires Owned(w) && Enabled(w, c)
    ensures Holding(Step(w, c).table, Step(w, c).held)
  {
    var t, held := w.table, w.held;
    match c.op
    case Default => EmptyKeeps(t, held);
    case Open(family) =>
      if c.answer >= 0 { JoinKeeps(t, held, Handle(c.answer, family, t.issued)); }
    case AcceptOn(i) =>
      if c.answer >= 0 { JoinKeeps(t, held, Handle(c.answer, held[i].family, t.issued)); }
    case MoveFrom(i) => MoveKeeps(t, held, i);
    case Assign(i, j) => AssignKeeps(t, held, i, j);
    case CloseAt(i) =>
      if held[i].fd >= 0 { LeaveKeeps(t, held, i); }
    case DestroyAt(i) => DestroyKeeps(t, held, i);
  }

  lemma StepKeepsTable(w: World, c: Call)
    requires Owned(w) && Enabled(w, c)
    ensures ClosedByOwner(Step(w, c).table)
  {
    match c.op
    case Open(_) => if c.answer >= 0 { AllocatedKeeps(w.table, c.answer); }
    case AcceptOn(_) => if c.answer >= 0 { AllocatedKeeps(w.table, c.answer); }
    case CloseAt(i) => if w.held[i].fd >= 0 { ReleasedKeeps(w.table, w.held[i].fd); }
    case DestroyAt(i) => if w.held[i].fd >= 0 { ReleasedKeeps(w.table, w.held[i].fd); }
    case _ =>
  }

  lemma StepKeepsOwned(w: World, c: Call)
    requires Owned(w) && Enabled(w, c)
    ensures Owned(Step(w, c))
  {
    StepKeepsHolding(w, c);
    StepKeepsTable(w, c);
  }

  /** What an operation does to each socket and to each descriptor; x is any socket that was
      there. A number that a socket holds is closed with the ticket it was given. */
  lemma Effects(w: World, c: Call, x: nat)
    requires Owned(w) && Enabled(w, c) && x < |w.held|
    ensures var n, t, before, after := |w.held|, Step(w, c).table, w.held, Step(w, c).held;
            match c.op
            case Default => t == w.table && |after| == n + 1 && after[x] == before[x] && after[n].fd == -1
            case Open(family) =>
              if c.answer < 0 then Step(w, c) == w
              else
                && |after| == n + 1 && after[x] == before[x] && after[n] == Handle(c.answer, family, w.table.issued)
                && t.open == w.table.open[c.answer := w.table.issued] && t.closed == w.table.closed
            case AcceptOn(i) =>
              if c.answer < 0 then Step(w, c) == w
              else
                && |after| == n + 1 && after[x] == before[x]
                && after[n] == Handle(c.answer, before[i].family, w.table.issued)
                && t.open == w.table.open[c.answer := w.table.issued] && t.closed == w.table.closed
            case MoveFrom(i) =>
              && t == w.table && |after| == n + 1 && after[n] == before[i]
              && after[i].fd == -1 && after[i].ticket == -1 && (x != i ==> after[x] == before[x])
            case Assign(i, j) =>
              && t == w.table && |after| == n && after[i] == before[j] && after[j] == before[i]
              && (x != i && x != j ==> after[x] == before[x])
            case CloseAt(i) =>
              && |after| == n && (x != i ==> after[x] == before[x])
              && if before[i].fd < 0 then Step(w, c) == w
                 else
                   && after[i].fd == -1 && after[i].ticket == -1
                   && t.open == w.table.open - {before[i].fd}
                   && t.closed == w.table.closed + [Closing(before[i].ticket, before[i].ticket)]
            case DestroyAt(i) =>
              && |after| == n - 1 && (x < i ==> after[x] == before[x]) && (x > i ==> after[x - 1] == before[x])
              && if before[i].fd < 0 then t == w.table
                 else
                   && t.open == w.table.open - {before[i].fd}
                   && t.closed == w.table.closed + [Closing(before[i].ticket, before[i].ticket)]
  {
    assert forall i :: 0 <= i < |w.held| && w.held[i].fd >= 0 ==> OpenAs(w.table, w.held[i].fd, w.held[i].ticket);
  }

  /** Assigning an accepted connection to a socket, as the servers do: a temporary is made by
      accept, swapped with that socket, and destroyed. In the end the socket holds the new
      connection, and what it held before, if anything, is what was closed. */
  lemma AcceptInto(w: World, i: nat, j: nat, answer: int)
    requires Owned(w) && i < |w.held| && j < |w.held| && answer >= 0 && Legal(w.table, answer)
    ensures var n := |w.held|;
            var run := [Call(AcceptOn(i), answer)] + ([Call(Assign(j, n), -1)] + [Call(DestroyAt(n), -1)]);
            && CanRun(Machine(), w, run)
            && var t, h := After(Machine(), w, run), w.held[j];
            && t.held == w.held[j := Handle(answer, w.held[i].family, w.table.issued)]
            && t.table.failed == w.table.failed
            && if h.fd >= 0 then
                 && t.table.open == (w.table.open - {h.fd})[answer := w.table.issued]
                 && t.table.closed == w.table.closed + [Closing(h.ticket, h.ticket)]
               else
                 t.table.open == w.table.open[answer := w.table.issued] && t.table.closed == w.table.closed
  {
    var n := |w.held|;
    var a, b, c := Call(AcceptOn(i), answer), Call(Assign(j, n), -1), Call(DestroyAt(n), -1);
    var s := Step(w, a);
    var t := Step(s, b);
    var u := Step(t, c);
    Prepend(Machine(), t, c, []);
    Prepend(Machine(), s, b, [c]);
    Prepend(Machine(), w, a, [b] + [c]);
    assert [c] + [] == [c];
    if w.held[j].fd >= 0 {
      assert OpenAs(w.table, w.held[j].fd, w.held[j].ticket);
    }
    assert u.held == w.held[j := Handle(answer, w.held[i].family, w.table.issued)];
  }

  /** Ownership: after every operation of every program, the live sockets hold pairwise
      different descriptors, these are exactly the open ones, and each descriptor closed so
      far was closed once, by the socket holding it, even when its number was reused. */
  lemma OwnershipKept(run: seq<Call>)
    requires CanRun(Machine(), NO_SOCKETS, run)
    ensures Owned(After(Machine(), NO_SOCKETS, run))
  {
    forall w, c | Owned(w) && Enabled(w, c) ensures Owned(Step(w, c)) {
      StepKeepsOwned(w, c);
    }
    Keeps(Machine(), (w: World) => Owned(w), NO_SOCKETS, run);
  }

  /** When no socket is left, no descriptor is open, none was ever closed by a socket that
      did not hold it or found closed already, and each one was closed exactly once. */
  lemma NothingLeaks(run: seq<Call>, ticket: int, holder: int)
    requires CanRun(Machine(), NO_SOCKETS, run)
    requires After(Machine(), NO_SOCKETS, run).held == []
    ensures var t := After(Machine(), NO_SOCKETS, run).table;
            && t.open == map[] && t.failed == 0
            && multiset(t.closed)[Closing(ticket, holder)] ==
               if ticket == holder && 0 <= ticket < t.issued then 1 else 0
  {
    var t := After(Machine(), NO_SOCKETS, run).table;
    OwnershipKept(run);
    forall fd ensures fd !in t.open {
      assert fd in t.open ==> IsHeld([], fd, t.open[fd]);
    }
    var c := Closing(ticket, holder);
    if ticket == holder && 0 <= ticket < t.issued {
      assert !IsOpen(t, ticket) && IsClosed(t.closed, ticket);
      var i: nat :| ClosedAt(t.closed, i, ticket);
      assert t.closed[i] == c;
    }
    AtMostOnce(t.closed, c);
  }

  lemma {:induction false} AtMostOnce(closed: seq<Closing>, c: Closing)
    requires forall i, j :: 0 <= i < j < |closed| ==> closed[i].ticket != closed[j].ticket
    ensures multiset(closed)[c] == if c in closed then 1 else 0
  {
    if closed != [] {
      var n := |closed| - 1;
      AtMostOnce(closed[..n], c);
      assert closed == closed[..n] + [closed[n]];
      assert c == closed[n] ==> c !in closed[..n];
    }
  }

  /** From wherever a program is, leaving all scopes gets there. */
  lemma {:induction false} LeavesAllScopes(w: World) returns (run: seq<Call>)
    ensures CanRun(Machine(), w, run) && After(Machine(), w, run).held == []
    decreases |w.held|
  {
    if w.held == [] {
      run := [];
    } else {
      var c := Call(DestroyAt(0), -1);
      run := LeavesAllScopes(Step(w, c));
      Prepend(Machine(), w, c, run);
      run := [c] + run;
    }
  }

  class Kernel {
    var open: map<int, nat>
    var issued: nat
    var failed: nat
    ghost var closed: seq<Closing>

    constructor ()
      ensures Contents() == NO_SOCKETS.table
    {
      open, issued, failed, closed := map[], 0, 0, [];
    }

    ghost function Contents(): Table
      reads this
    {
      Table(open, issued, closed, failed)
    }

    /** socket(2) and accept(2). */
    method Allocate() returns (fd: int)
      modifies this
      ensures Legal(old(Contents()), fd)
      ensures Contents() == if fd < 0 then old(Contents()) else Allocated(old(Contents()), fd)
      ensures fd >= 0 ==>
                && fd !in old(open) && open == old(open)[fd := old(issued)] && issued == old(issued) + 1
                && closed == old(closed) && failed == old(failed)
    {
      if * {
        return -1;
      }
      var number: nat := *;
      ghost var taken := set i | i in open && i >= number;
      while number in open
        invariant taken == set i | i in open && i >= number
        decreases taken
      {
        ghost var before := taken;
        taken := taken - {number};
        assert number in before;
        number := number + 1;
      }
      fd := number;
      open := open[fd := issued];
      issued := issued + 1;
    }

    /** close(2): -1 with EBADF when the number is not open. */
    method CloseFd(fd: int, ghost holder: int) returns (rc: int)
      modifies this
      ensures Contents() == Released(old(Contents()), fd, holder)
      ensures rc == if fd in old(open) then 0 else -1
      ensures open == old(open) - {fd} && issued == old(issued)
      ensures closed == old(closed) + if fd in old(open) then [Closing(old(open)[fd], holder)] else []
      ensures failed == old(failed) + if fd >= 0 && fd !in old(open) then 1 else 0
    {
      if fd in open {
        closed := closed + [Closing(open[fd], holder)];
        open := open - {fd};
        rc := 0;
      } else {
        if fd >= 0 {
          failed := failed + 1;
        }
        rc := -1;
      }
    }
  }

  datatype Outcome = Done | Thrown

  class Socket {
    var sockfd: int
    var family: int
    ghost var ticket: int

    constructor ()
      ensures Value() == EMPTY
    {
      sockfd, family, ticket := -1, -1, -1;
    }

    /** The move constructor leaves its argument empty. */
    constructor Move(x: Socket)
      modifies x
      ensures Value() == old(x.Value()) && x.Value() == EMPTY
    {
      sockfd, family, ticket := x.sockfd, x.family, x.ticket;
      new;
      x.sockfd, x.family, x.ticket := -1, -1, -1;
    }

    ghost function Value(): Handle
      reads this
    {
      Handle(sockfd, family, ticket)
    }

    /** Move assignment swaps: the argument gets what this socket held. */
    method MoveAssign(x: Socket)
      modifies this, x
      ensures Value() == old(x.Value()) && x.Value() == old(Value())
    {
      var fd, fam := sockfd, family;
      ghost var t := ticket;
      sockfd, family, ticket := x.sockfd, x.family, x.ticket;
      x.sockfd, x.family, x.ticket := fd, fam, t;
    }

    /** Close throws when close(2) fails, and then still holds what it held. */
    method Close(k: Kernel) returns (r: Outcome)
      modifies k, this
      ensures k.Contents() == Released(old(k.Contents()), old(sockfd), old(ticket))
      ensures r == if old(sockfd) in old(k.open) then Done else Thrown
      ensures Value() == if r.Done? then old(Value()).(fd := -1, ticket := -1) else old(Value())
    {
      var rc := k.CloseFd(sockfd, ticket);
      if rc < 0 {
        return Thrown;
      }
      sockfd, ticket := -1, -1;
      r := Done;
    }

    /** The destructor closes what is held, if anything, and ignores how that goes. */
    method Destroy(k: Kernel)
      modifies k
      ensures k.Contents() == if sockfd >= 0 then Released(old(k.Contents()), sockfd, ticket) else old(k.Contents())
    {
      if sockfd >= 0 {
        var rc := k.CloseFd(sockfd, ticket);
      }
    }

    /** Accept: the connection arrives in a local socket and is moved into the result. */
    method Accept(k: Kernel) returns (s: Socket?, ghost answer: int)
      modifies k
      ensures Legal(old(k.Contents()), answer) && (s == null <==> answer < 0)
      ensures s == null ==> k.Contents() == old(k.Contents())
      ensures s != null ==>
                && fresh(s) && k.Contents() == Allocated(old(k.Contents()), answer)
                && s.Value() == Handle(answer, family, old(k.issued))
    {
      ghost var ticket' := k.issued;
      var n := k.Allocate();
      answer := n;
      if n < 0 {
        return null, answer;
      }
      var sock := new Socket();
      sock.family := family;
      sock.sockfd := n;
      sock.ticket := ticket';
      s := new Socket.Move(sock);
      sock.Destroy(k);
    }
  }

  /** Socket(family, type, protocol): throws when socket(2) fails, and then there is no object. */
  method Construct(k: Kernel, family: int) returns (s: Socket?, ghost answer: int)
    modifies k
    ensures Legal(old(k.Contents()), answer) && (s == null <==> answer < 0)
    ensures s == null ==> k.Contents() == old(k.Contents())
    ensures s != null ==>
              && fresh(s) && k.Contents() == Allocated(old(k.Contents()), answer)
              && s.Value() == Handle(answer, family, old(k.issued))
  {
    ghost var ticket := k.issued;
    var fd := k.Allocate();
    answer := fd;
    if fd < 0 {
      return null, answer;
    }
    s := new Socket();
    s.family := family;
    s.sockfd := fd;
    s.ticket := ticket;
  }

  method ConstructEmpty() returns (s: Socket)
    ensures fresh(s) && s.Value() == EMPTY
  {
    s := new Socket();
  }

  method MoveConstruct(x: Socket) returns (s: Socket)
    modifies x
    ensures fresh(s) && s.Value() == old(x.Value()) && x.Value() == EMPTY
  {
    s := new Socket.Move(x);
  }

  ghost function Values(socks: seq<Socket>): (held: seq<Handle>)
    reads set x | x in socks
    ensures |held| == |socks|
    ensures forall i :: 0 <= i < |socks| ==> held[i] == socks[i].Value()
  {
    seq(|socks|, i requires 0 <= i < |socks| reads set x | x in socks => socks[i].Value())
  }

  predicate Distinct(socks: seq<Socket>) {
    forall i, j :: 0 <= i < j < |socks| ==> socks[i] != socks[j]
  }

  lemma Without(socks: seq<Socket>, i: nat)
    requires Distinct(socks) && i < |socks|
    ensures Distinct(socks[..i] + socks[i + 1..])
  {
    var rest := socks[..i] + socks[i + 1..];
    assert forall j :: 0 <= j < |rest| ==> rest[j] == socks[if j < i then j else j + 1];
  }

  predicate Creates(op: Op) {
    op.Default? || op.Open? || op.AcceptOn? || op.MoveFrom?
  }

  /** The operation changes the m-th of the sockets. */
  predicate Touches(op: Op, m: nat) {
    match op
    case Assign(i, j) => m == i || m == j
    case MoveFrom(i) => m == i
    case CloseAt(i) => m == i
    case _ => false
  }

  /** The operations that make a socket do what the rules say. */
  method Create(k: Kernel, socks: seq<Socket>, op: Op) returns (now: seq<Socket>, ghost answer: int)
    requires Distinct(socks) && Applies(op, |socks|) && Creates(op)
    modifies k, set x | x in socks
    ensures Distinct(now) && forall x :: x in now && x !in socks ==> fresh(x)
    ensures socks <= now
    ensures forall m :: 0 <= m < |socks| && !Touches(op, m) ==> socks[m].Value() == old(socks[m].Value())
    ensures var before := old(World(k.Contents(), Values(socks)));
            && Enabled(before, Call(op, answer))
            && World(k.Contents(), Values(now)) == Step(before, Call(op, answer))
  {
    now, answer := socks, -1;
    ghost var held := Values(socks);
    var s: Socket? := null;
    match op {
      case Default =>
        s := ConstructEmpty();
      case Open(family) =>
        s, answer := Construct(k, family);
      case AcceptOn(i) =>
        s, answer := socks[i].Accept(k);
      case MoveFrom(i) =>
        s := MoveConstruct(socks[i]);
        held := held[i := EMPTY];
    }
    if s != null {
      now := socks + [s];
      assert Values(now) == held + [s.Value()];
    }
  }

  /** The operations on sockets that exist do what the rules say. */
  method Change(k: Kernel, socks: seq<Socket>, op: Op) returns (now: seq<Socket>, ghost answer: int)
    requires Distinct(socks) && Applies(op, |socks|) && !Creates(op)
    modifies k, set x | x in socks
    ensures Distinct(now) && forall x :: x in now && x !in socks ==> fresh(x)
    ensures now == if op.DestroyAt? then socks[..op.i] + socks[op.i + 1..] else socks
    ensures forall m :: 0 <= m < |socks| && !Touches(op, m) ==> socks[m].Value() == old(socks[m].Value())
    ensures var before := old(World(k.Contents(), Values(socks)));
            && Enabled(before, Call(op, answer))
            && World(k.Contents(), Values(now)) == Step(before, Call(op, answer))
  {
    now, answer := socks, -1;
    ghost var held := Values(socks);
    match op {
      case Assign(i, j) =>
        socks[i].MoveAssign(socks[j]);
        assert Values(now) == held[i := held[j]][j := held[i]];
      case CloseAt(i) =>
        var r := socks[i].Close(k);
        assert Values(now) == held[i := socks[i].Value()];
      case DestroyAt(i) =>
        socks[i].Destroy(k);
        Without(socks, i);
        now := socks[..i] + socks[i + 1..];
        assert Values(now) == held[..i] + held[i + 1..];
    }
  }

  /** One operation of a program on its sockets. */
  method Perform(k: Kernel, socks: seq<Socket>, op: Op) returns (now: seq<Socket>, ghost answer: int)
    requires Distinct(socks) && Applies(op, |socks|)
    modifies k, set x | x in socks
    ensures Distinct(now) && forall x :: x in now && x !in socks ==> fresh(x)
    ensures if op.DestroyAt? then now == socks[..op.i] + socks[op.i + 1..] else socks <= now
    ensures forall m :: 0 <= m < |socks| && !Touches(op, m) ==> socks[m].Value() == old(socks[m].Value())
    ensures op.Assign? ==>
              && now == socks
              && socks[op.i].Value() == old(socks[op.j].Value()) && socks[op.j].Value() == old(socks[op.i].Value())
    ensures op.MoveFrom? ==>
              && |now| == |socks| + 1 && now[|socks|].Value() == old(socks[op.i].Value())
              && socks[op.i].sockfd == -1 && socks[op.i].ticket == -1
    ensures op.AcceptOn? && |now| > |socks| ==>
              now[|socks|].Value() == Handle(answer, old(socks[op.i].family), old(k.issued))
    ensures op.CloseAt? && old(socks[op.i].sockfd) in old(k.open) ==>
              && socks[op.i].sockfd == -1 && socks[op.i].ticket == -1
              && k.open == old(k.open) - {old(socks[op.i].sockfd)}
    ensures var before := old(World(k.Contents(), Values(socks)));
            && Enabled(before, Call(op, answer))
            && World(k.Contents(), Values(now)) == Step(before, Call(op, answer))
  {
    if Creates(op) {
      now, answer := Create(k, socks, op);
    } else {
      now, answer := Change(k, socks, op);
    }
  }

  /** The run does what the program says: its operations in order, except that those on
      sockets that do not exist are passed over, and then the end of all its scopes. */
  predicate Follows(w: World, run: seq<Call>, ops: seq<Op>)
    decreases |ops|, |run|
  {
    if ops != [] && !Applies(ops[0], |w.held|) then Follows(w, run, ops[1..])
    else if ops == [] && w.held == [] then run == []
    else
      && run != [] && run[0].op == (if ops != [] then ops[0] else DestroyAt(0)) && Enabled(w, run[0])
      && Follows(Step(w, run[0]), run[1..], if ops != [] then ops[1..] else [])
  }

  /** After `run`, which has led from the start to `w`, the rest of the program is `left`. */
  ghost predicate Remaining(run: seq<Call>, ops: seq<Op>, w: World, left: seq<Op>) {
    forall tail :: Follows(w, tail, left) ==> Follows(NO_SOCKETS, run + tail, ops)
  }

  lemma NextRemaining(run: seq<Call>, ops: seq<Op>, w: World, left: seq<Op>, c: Call)
    requires Remaining(run, ops, w, left) && Enabled(w, c)
    requires if left != [] then c.op == left[0] else w.held != [] && c.op == DestroyAt(0)
    ensures Remaining(run + [c], ops, Step(w, c), if left != [] then left[1..] else [])
  {
    forall tail | Follows(Step(w, c), tail, if left != [] then left[1..] else [])
      ensures Follows(NO_SOCKETS, (run + [c]) + tail, ops)
    {
      assert ([c] + tail)[1..] == tail;
      assert Follows(w, [c] + tail, left);
      assert (run + [c]) + tail == run + ([c] + tail);
    }
  }

  /** Any program, then the end of all its scopes: together a run by the rules, so that all
      that is proved about runs holds of it. */
  method Program(k: Kernel, ops: seq<Op>) returns (ghost run: seq<Call>)
    requires k.Contents() == NO_SOCKETS.table
    modifies k
    ensures CanRun(Machine(), NO_SOCKETS, run) && Follows(NO_SOCKETS, run, ops)
    ensures World(k.Contents(), []) == After(Machine(), NO_SOCKETS, run)
    ensures k.open == map[] && k.failed == 0
    ensures forall t, h :: multiset(k.closed)[Closing(t, h)] == if t == h && 0 <= t < k.issued then 1 else 0
  {
    var socks: seq<Socket> := [];
    run := [];
    assert forall tail: seq<Call> :: run + tail == tail;
    assert ops[0..] == ops;
    for n := 0 to |ops|
      invariant Distinct(socks) && forall x :: x in socks ==> fresh(x)
      invariant CanRun(Machine(), NO_SOCKETS, run)
      invariant World(k.Contents(), Values(socks)) == After(Machine(), NO_SOCKETS, run)
      invariant Remaining(run, ops, After(Machine(), NO_SOCKETS, run), ops[n..])
    {
      assert ops[n..][0] == ops[n] && ops[n..][1..] == ops[n + 1..];
      if Applies(ops[n], |socks|) {
        ghost var before := World(k.Contents(), Values(socks));
        ghost var answer;
        socks, answer := Perform(k, socks, ops[n]);
        OneMore(run, before, Call(ops[n], answer));
        NextRemaining(run, ops, before, ops[n..], Call(ops[n], answer));
        run := run + [Call(ops[n], answer)];
      }
    }
    while socks != []
      invariant Distinct(socks) && forall x :: x in socks ==> fresh(x)
      invariant CanRun(Machine(), NO_SOCKETS, run)
      invariant World(k.Contents(), Values(socks)) == After(Machine(), NO_SOCKETS, run)
      invariant Remaining(run, ops, After(Machine(), NO_SOCKETS, run), [])
      decreases |socks|
    {
      ghost var before, size := World(k.Contents(), Values(socks)), |socks|;
      ghost var answer;
      socks, answer := Perform(k, socks, DestroyAt(0));
      assert |Values(socks)| == |Step(before, Call(DestroyAt(0), answer)).held| == size - 1;
      OneMore(run, before, Call(DestroyAt(0), answer));
      NextRemaining(run, ops, before, [], Call(DestroyAt(0), answer));
      run := run + [Call(DestroyAt(0), answer)];
    }
    assert Values(socks) == [] && run + [] == run;
    assert Follows(After(Machine(), NO_SOCKETS, run), [], []);
    forall t, h ensures multiset(k.closed)[Closing(t, h)] == if t == h && 0 <= t < k.issued then 1 else 0 {
      NothingLeaks(run, t, h);
    }
    NothingLeaks(run, 0, 0);
  }

  lemma OneMore(run: seq<Call>, w: World, c: Call)
    requires CanRun(Machine(), NO_SOCKETS, run) && After(Machine(), NO_SOCKETS, run) == w
    requires Enabled(w, c)
    ensures CanRun(Machine(), NO_SOCKETS, run + [c])
    ensures After(Machine(), NO_SOCKETS, run + [c]) == Step(w, c)
  {
    Prepend(Machine(), w, c, []);
    assert [c] + [] == [c];
    Append(Machine(), NO_SOCKETS, run, [c]);
  }
}
