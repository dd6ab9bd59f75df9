// The hot-plug pipeline as its threads interleave: the receiver and the scheduler put tasks
// at any moment; the worker takes one at a time, and visits the pending events one by one,
// with a mount table that may be different at every look.
module Monitor {
  import Bytes
  import opened Netlink
  import opened Uevents
  import opened Runs

  datatype Work =
    | Idle
    | Adding(event: Event)
    // doCheckPendingEvent: its `now`, the events it has still to visit, and, as history,
    // the store it started from and the mount tables seen so far
    | Checking(now: int, rest: seq<Event>, start: Store, mounted: seq<seq<Partition>>)

  datatype State = State(
    clock: int,
    received: seq<Event>,   // every event that was made into a task
    queue: seq<Task>,
    work: Work,
    store: Store,
    checks: seq<int>,       // when each check started
    joined: map<nat, nat>)  // by event: how many checks had started when it became pending

  datatype Action =
    | Tick(now: int)
    | Receive(data: string)
    | Schedule
    | Get
    | Resolve(partitions: seq<Partition>)
    | Visit(partitions: seq<Partition>)
    | EndCheck

  /** The monitor's run method looks at the mount table once before the threads start. */
  function Init(clock: int, initial: seq<Partition>): State {
    State(clock, [], [], Idle, Store([], MountMap(initial), [], [], []), [], map[])
  }

  predicate Enabled(s: State, a: Action) {
    match a
    case Tick(now) => now >= s.clock
    case Receive(data) => true
    case Schedule => true
    case Get => s.work.Idle? && s.queue != []
    case Resolve(_) => s.work.Adding? && HasName(s.work.event)
    case Visit(_) => s.work.Checking? && s.work.rest != [] && HasName(s.work.rest[0])
    case EndCheck => s.work.Checking? && s.work.rest == []
  }

  function Step(s: State, a: Action): State
    requires Enabled(s, a)
  {
    match a
    case Tick(now) => s.(clock := now)
    case Receive(data) =>
      if |data| < MIN_MESSAGE then s
      else
        var e := Event(|s.received|, ParsedFields(data), s.clock);
        s.(received := s.received + [e], queue := s.queue + [Process(e)])
    case Schedule => s.(queue := s.queue + [Check])
    case Get => Take(s.(queue := s.queue[1..]), s.queue[0])
    case Resolve(partitions) =>
      var e := s.work.event;
      var store := AddEvent(s.store, e, partitions);
      s.(work := Idle, store := store,
         joined := if |store.pending| > |s.store.pending| then s.joined[e.ref := |s.checks|] else s.joined)
    case Visit(partitions) =>
      s.(store := VisitEvent(s.store, s.work.rest[0], s.work.now, partitions),
         work := s.work.(rest := s.work.rest[1..], mounted := s.work.mounted + [partitions]))
    case EndCheck => s.(work := Idle)
  }

  function Take(s: State, task: Task): State {
    if task.Check? then
      s.(work := Checking(s.clock, s.store.pending, s.store, []),
         store := s.store.(pending := []),
         checks := s.checks + [s.clock])
    else
      match KindOf(task.event.fields)
      case Add => s.(work := Adding(task.event))
      case Remove => s.(store := RemoveEvent(s.store, task.event))
      case Ignored => s
  }

  function Machine(): System<State, Action> {
    System((s, a) => Enabled(s, a), (s, a) => if Enabled(s, a) then Step(s, a) else s)
  }

  predicate IsAdd(e: Event) {
    KindOf(e.fields) == Add
  }

  /** The accepted events among some events. */
  function Adds(events: seq<Event>): seq<Event> {
    if events == [] then []
    else
      var n := |events| - 1;
      Adds(events[..n]) + (if IsAdd(events[n]) then [events[n]] else [])
  }

  function QueuedAdds(queue: seq<Task>): seq<Event> {
    if queue == [] then []
    else (if queue[0].Process? && IsAdd(queue[0].event) then [queue[0].event] else []) + QueuedAdds(queue[1..])
  }

  function Working(work: Work): seq<Event> {
    match work
    case Idle => []
    case Adding(e) => [e]
    case Checking(_, rest, _, _) => rest
  }

  function Reported(reports: seq<Report>): seq<Event> {
    if reports == [] then []
    else Reported(reports[..|reports| - 1]) + [reports[|reports| - 1].event]
  }

  /** The events whose fate is still open, in the order the worker will see them again. */
  function Live(s: State): seq<Event> {
    s.store.pending + (Working(s.work) + QueuedAdds(s.queue))
  }

  /** Events are numbered in arrival order, and stamped with a clock that never goes back. */
  predicate Numbered(s: State) {
    && (forall i :: 0 <= i < |s.received| ==> s.received[i].ref == i && s.received[i].receiveTime <= s.clock)
    && (forall i, j :: 0 <= i <= j < |s.received| ==> s.received[i].receiveTime <= s.received[j].receiveTime)
  }

  /** A subsequence of the accepted arrivals, in arrival order. */
  predicate InOrder(events: seq<Event>, received: seq<Event>) {
    && (forall i :: 0 <= i < |events| ==>
          events[i].ref < |received| && received[events[i].ref] == events[i] && IsAdd(events[i]))
    && (forall i, j :: 0 <= i < j < |events| ==> events[i].ref < events[j].ref)
  }

  /** The events whose fate is decided: reported as added, or expired. */
  function Decided(s: Store): multiset<Event> {
    multiset(Reported(s.added)) + multiset(s.expired)
  }

  predicate Conserved(s: State) {
    multiset(Adds(s.received)) == multiset(Live(s)) + Decided(s.store)
  }

  /** Every accepted event is in exactly one place, and the open ones are in arrival order. */
  predicate Accounted(s: State) {
    Conserved(s) && InOrder(Live(s), s.received)
  }

  predicate SortedByTime(events: seq<Event>) {
    forall i, j :: 0 <= i < j < |events| ==> events[i].receiveTime <= events[j].receiveTime
  }

  /** Sorted by receive time, and no event twice. */
  predicate InTurn(events: seq<Event>) {
    SortedByTime(events) && forall i, j :: 0 <= i < j < |events| ==> events[i] != events[j]
  }

  /** While a check is under way, the store is what visiting the first events of a list sorted
      by receive time gives. */
  predicate CheckFaithful(s: State) {
    s.work.Checking? ==>
      var start, rest := s.work.start, s.work.rest;
      var k := |start.pending| - |rest|;
      && 0 <= k == |s.work.mounted| && rest == start.pending[k..]
      && AllNamed(start.pending) && InTurn(start.pending)
      && s.store == VisitAll(start.(pending := []), start.pending[..k], s.work.now, s.work.mounted)
  }

  lemma {:induction false} QueuedAddsAppend(queue: seq<Task>, task: Task)
    ensures QueuedAdds(queue + [task]) == QueuedAdds(queue) + QueuedAdds([task])
  {
    if queue == [] {
      assert queue + [task] == [task];
    } else {
      var first := if queue[0].Process? && IsAdd(queue[0].event) then [queue[0].event] else [];
      assert (queue + [task])[1..] == queue[1..] + [task];
      QueuedAddsAppend(queue[1..], task);
      Bytes.Assoc(first, QueuedAdds(queue[1..]), QueuedAdds([task]));
    }
  }

  /** How a step changes the open events: a new one at the end, or one less, or none. */
  datatype Change = Same | Arrived(e: Event) | Settled(before: seq<Event>, e: Event, after: seq<Event>)

  ghost predicate Changes(s: State, t: State, c: Change) {
    match c
    case Same => Live(t) == Live(s)
    case Arrived(e) => Live(t) == Live(s) + [e]
    case Settled(before, e, after) => Live(s) == before + ([e] + after) && Live(t) == before + after
  }

  lemma MoveFirst(s: State, t: State) returns (c: Change)
    requires Working(s.work) != [] && Working(t.work) == Working(s.work)[1..] && t.queue == s.queue
    requires t.store.pending == s.store.pending || t.store.pending == s.store.pending + [Working(s.work)[0]]
    ensures Changes(s, t, c) && !c.Arrived?
    ensures c.Settled? <==> |t.store.pending| == |s.store.pending|
    ensures c.Settled? ==> c.e == Working(s.work)[0]
  {
    var first, after := Working(s.work)[0], Working(t.work) + QueuedAdds(s.queue);
    assert Working(s.work) + QueuedAdds(s.queue) == [first] + after;
    if |t.store.pending| == |s.store.pending| {
      c := Settled(s.store.pending, first, after);
    } else {
      c := Same;
      assert (s.store.pending + [first]) + after == s.store.pending + ([first] + after);
    }
  }

  lemma GetKeepsLive(s: State)
    requires Enabled(s, Get)
    ensures var t := Step(s, Get);
            && Live(t) == Live(s) && t.received == s.received
            && t.store.added == s.store.added && t.store.expired == s.store.expired
  {
    var task := s.queue[0];
    var first := if task.Process? && IsAdd(task.event) then [task.event] else [];
    assert QueuedAdds(s.queue) == first + QueuedAdds(s.queue[1..]);
    if task.Check? {
      assert Live(s) == s.store.pending + QueuedAdds(s.queue[1..]);
    } else {
      assert Working(Take(s.(queue := s.queue[1..]), task).work) == first;
    }
  }

  lemma ReceiveAppends(s: State, data: string)
    requires |data| >= MIN_MESSAGE
    ensures var t := Step(s, Receive(data));
            var e := Event(|s.received|, ParsedFields(data), s.clock);
            && t.received == s.received + [e]
            && t == s.(received := t.received, queue := t.queue)
            && Adds(t.received) == Adds(s.received) + (if IsAdd(e) then [e] else [])
            && Live(t) == Live(s) + (if IsAdd(e) then [e] else [])
  {
    var e := Event(|s.received|, ParsedFields(data), s.clock);
    var more := if IsAdd(e) then [e] else [];
    QueuedAddsAppend(s.queue, Process(e));
    assert QueuedAdds([Process(e)]) == more + QueuedAdds([]);
    assert (s.received + [e])[..|s.received|] == s.received;
    Bytes.Assoc(Working(s.work), QueuedAdds(s.queue), more);
    Bytes.Assoc(s.store.pending, Working(s.work) + QueuedAdds(s.queue), more);
  }

  lemma ScheduleKeepsLive(s: State)
    ensures Live(Step(s, Schedule)) == Live(s)
  {
    QueuedAddsAppend(s.queue, Check);
    assert QueuedAdds([Check]) == [] + QueuedAdds([]);
  }

  lemma InOrderGrow(events: seq<Event>, received: seq<Event>, e: Event)
    requires InOrder(events, received)
    ensures InOrder(events, received + [e])
    ensures e.ref == |received| && IsAdd(e) ==> InOrder(events + [e], received + [e])
  {
  }

  lemma InOrderRemove(before: seq<Event>, e: Event, after: seq<Event>, received: seq<Event>)
    requires InOrder(before + ([e] + after), received)
    ensures InOrder(before + after, received)
  {
    var all, left := before + ([e] + after), before + after;
    assert forall i :: 0 <= i < |left| ==> left[i] == all[if i < |before| then i else i + 1];
  }

  /** The event was put back on the pending list, or its fate was decided. */
  predicate Moved(s: Store, t: Store, e: Event) {
    if |t.pending| == |s.pending| then t.pending == s.pending && Decided(t) == Decided(s) + multiset{e}
    else t.pending == s.pending + [e] && Decided(t) == Decided(s)
  }

  lemma AddEventDecides(s: Store, e: Event, partitions: seq<Partition>)
    requires HasName(e)
    ensures Moved(s, AddEvent(s, e, partitions), e)
  {
    var t := AddEvent(s, e, partitions);
    if t.added != s.added {
      assert t.added[..|s.added|] == s.added;
    }
  }

  lemma VisitEventDecides(s: Store, e: Event, now: int, partitions: seq<Partition>)
    requires HasName(e)
    ensures Moved(s, VisitEvent(s, e, now, partitions), e)
  {
    if !Expired(e, now) {
      AddEventDecides(s, e, partitions);
    }
  }

  /** Visiting an event keeps it open where it was, or moves it to the decided ones. */
  lemma VisitKeepsConserved(s: State, t: State)
    requires Conserved(s) && InOrder(Live(s), s.received)
    requires Working(s.work) != [] && Working(t.work) == Working(s.work)[1..]
    requires t.queue == s.queue && t.received == s.received
    requires Moved(s.store, t.store, Working(s.work)[0])
    ensures Conserved(t) && InOrder(Live(t), t.received)
  {
    var c := MoveFirst(s, t);
    if c.Settled? {
      InOrderRemove(c.before, c.e, c.after, s.received);
      assert multiset(Live(s)) == multiset(Live(t)) + multiset{c.e};
    }
  }

  lemma QuietKeepsConserved(s: State, t: State)
    requires Conserved(s) && InOrder(Live(s), s.received)
    requires Live(t) == Live(s) && t.received == s.received
    requires t.store.added == s.store.added && t.store.expired == s.store.expired
    ensures Conserved(t) && InOrder(Live(t), t.received)
  {
  }

  lemma ReceiveKeepsConserved(s: State, data: string)
    requires Conserved(s) && InOrder(Live(s), s.received) && |data| >= MIN_MESSAGE
    ensures Conserved(Step(s, Receive(data))) && InOrder(Live(Step(s, Receive(data))), Step(s, Receive(data)).received)
  {
    var e := Event(|s.received|, ParsedFields(data), s.clock);
    ReceiveAppends(s, data);
    InOrderGrow(Live(s), s.received, e);
    if !IsAdd(e) {
      assert Live(s) + [] == Live(s) && Adds(s.received) + [] == Adds(s.received);
    }
  }

  lemma ResolveKeepsAccounted(s: State, partitions: seq<Partition>)
    requires Accounted(s) && Enabled(s, Resolve(partitions))
    ensures Accounted(Step(s, Resolve(partitions)))
  {
    var t := Step(s, Resolve(partitions));
    assert t.store == AddEvent(s.store, s.work.event, partitions);
    AddEventDecides(s.store, s.work.event, partitions);
    VisitKeepsConserved(s, t);
  }

  lemma VisitKeepsAccounted(s: State, partitions: seq<Partition>)
    requires Accounted(s) && Enabled(s, Visit(partitions))
    ensures Accounted(Step(s, Visit(partitions)))
  {
    var t := Step(s, Visit(partitions));
    assert t.store == VisitEvent(s.store, s.work.rest[0], s.work.now, partitions);
    VisitEventDecides(s.store, s.work.rest[0], s.work.now, partitions);
    VisitKeepsConserved(s, t);
  }

  lemma GetKeepsAccounted(s: State)
    requires Accounted(s) && Enabled(s, Get)
    ensures Accounted(Step(s, Get))
  {
    GetKeepsLive(s);
    QuietKeepsConserved(s, Step(s, Get));
  }

  lemma ScheduleKeepsAccounted(s: State)
    requires Accounted(s)
    ensures Accounted(Step(s, Schedule))
  {
    ScheduleKeepsLive(s);
    QuietKeepsConserved(s, Step(s, Schedule));
  }

  lemma StepKeepsAccounted(s: State, a: Action)
    requires Accounted(s) && Enabled(s, a)
    ensures Accounted(Step(s, a))
  {
    match a
    case Tick(now) => QuietKeepsConserved(s, s.(clock := now));
    case EndCheck => QuietKeepsConserved(s, s.(work := Idle));
    case Schedule => ScheduleKeepsAccounted(s);
    case Get => GetKeepsAccounted(s);
    case Resolve(partitions) => ResolveKeepsAccounted(s, partitions);
    case Visit(partitions) => VisitKeepsAccounted(s, partitions);
    case Receive(data) =>
      if |data| >= MIN_MESSAGE {
        ReceiveKeepsConserved(s, data);
      }
  }

  lemma StepKeepsNumbered(s: State, a: Action)
    requires Enabled(s, a) && Numbered(s)
    ensures Numbered(Step(s, a))
  {
  }

  lemma {:induction false} VisitAllPrefix(
    s: Store, events: seq<Event>, now: int, mounted: seq<seq<Partition>>, more: seq<seq<Partition>>)
    requires AllNamed(events) && |events| <= |mounted| && mounted <= more
    ensures VisitAll(s, events, now, mounted) == VisitAll(s, events, now, more)
    decreases |events|
  {
    if events != [] {
      VisitAllPrefix(s, events[..|events| - 1], now, mounted, more);
    }
  }

  lemma GetKeepsCheckFaithful(s: State)
    requires Enabled(s, Get) && AllNamed(s.store.pending) && InTurn(s.store.pending)
    ensures CheckFaithful(Step(s, Get))
  {
    assert s.store.pending[..0] == [];
  }

  lemma VisitKeepsCheckFaithful(s: State, partitions: seq<Partition>)
    requires Enabled(s, Visit(partitions)) && CheckFaithful(s)
    ensures CheckFaithful(Step(s, Visit(partitions)))
  {
    var start, k := s.work.start, |s.work.mounted|;
    var more := s.work.mounted + [partitions];
    assert start.pending[..k + 1][..k] == start.pending[..k];
    assert start.pending[k + 1..] == start.pending[k..][1..];
    VisitAllPrefix(start.(pending := []), start.pending[..k], s.work.now, s.work.mounted, more);
    assert VisitAll(start.(pending := []), start.pending[..k + 1], s.work.now, more)
        == VisitEvent(s.store, start.pending[k], s.work.now, partitions);
  }

  /** What the other invariants mean for the pending events and the one in hand. */
  lemma PendingFacts(s: State)
    requires Numbered(s) && Accounted(s)
    ensures AllNamed(s.store.pending) && InTurn(s.store.pending)
    ensures forall i :: 0 <= i < |s.store.pending| ==> s.store.pending[i].receiveTime <= s.clock
    ensures s.work.Adding? ==> forall i :: 0 <= i < |s.store.pending| ==> s.store.pending[i].ref != s.work.event.ref
  {
    forall i | 0 <= i < |s.store.pending|
      ensures HasName(s.store.pending[i]) && s.store.pending[i].receiveTime <= s.clock
      ensures s.work.Adding? ==> s.store.pending[i].ref != s.work.event.ref
    {
      assert s.store.pending[i] == Live(s)[i];
      if s.work.Adding? {
        assert s.work.event == Live(s)[|s.store.pending|];
      }
    }
    InOrderPrefix(s.store.pending, Working(s.work) + QueuedAdds(s.queue), s.received);
  }

  /** `e` has been pending through the checks from joined[e.ref] up to n. */
  predicate Waiting(s: State, e: Event, n: nat) {
    && n <= |s.checks|
    && e.ref in s.joined && s.joined[e.ref] <= n
    && (s.joined[e.ref] < n ==>
          s.checks[s.joined[e.ref]] >= e.receiveTime && s.checks[n - 1] - e.receiveTime <= EXPIRY)
  }

  predicate AllWaiting(s: State, events: seq<Event>, n: nat) {
    forall i :: 0 <= i < |events| ==> Waiting(s, events[i], n)
  }

  /** The pending events have been through all checks so far; those that a check has still
      to visit, through all but that one. */
  predicate Residence(s: State) {
    && AllWaiting(s, s.store.pending, |s.checks|)
    && (s.work.Checking? ==>
          && |s.checks| > 0 && s.checks[|s.checks| - 1] == s.work.now
          && AllWaiting(s, s.work.rest, |s.checks| - 1)
          && forall i :: 0 <= i < |s.work.rest| ==> s.work.rest[i].receiveTime <= s.work.now)
  }

  lemma WaitingKept(s: State, t: State, events: seq<Event>, n: nat)
    requires AllWaiting(s, events, n) && n <= |s.checks| && s.checks <= t.checks
    requires forall i :: 0 <= i < |events| && events[i].ref in s.joined ==>
               events[i].ref in t.joined && t.joined[events[i].ref] == s.joined[events[i].ref]
    ensures AllWaiting(t, events, n)
  {
    forall i | 0 <= i < |events| ensures Waiting(t, events[i], n) {
      assert Waiting(s, events[i], n);
    }
  }

  lemma CheckStartKeepsResidence(s: State)
    requires Residence(s)
    requires forall i :: 0 <= i < |s.store.pending| ==> s.store.pending[i].receiveTime <= s.clock
    ensures Residence(Take(s, Check))
  {
    WaitingKept(s, Take(s, Check), s.store.pending, |s.checks|);
  }

  lemma ResolveKeepsResidence(s: State, partitions: seq<Partition>)
    requires Residence(s) && Enabled(s, Resolve(partitions))
    requires forall i :: 0 <= i < |s.store.pending| ==> s.store.pending[i].ref != s.work.event.ref
    ensures Residence(Step(s, Resolve(partitions)))
  {
    WaitingKept(s, Step(s, Resolve(partitions)), s.store.pending, |s.checks|);
  }

  lemma VisitKeepsResidence(s: State, partitions: seq<Partition>)
    requires Residence(s) && Enabled(s, Visit(partitions))
    ensures Residence(Step(s, Visit(partitions)))
  {
    var t := Step(s, Visit(partitions));
    var first, rest, n := s.work.rest[0], s.work.rest[1..], |s.checks|;
    assert Waiting(s, first, n - 1);
    forall i | 0 <= i < |rest| ensures Waiting(s, rest[i], n - 1) {
      assert rest[i] == s.work.rest[i + 1];
    }
    WaitingKept(s, t, rest, n - 1);
    WaitingKept(s, t, s.store.pending, n);
    if t.store.pending != s.store.pending {
      assert Waiting(t, first, n);
    }
  }

  lemma OtherKeepsResidence(s: State, t: State)
    requires Residence(s)
    requires t.store.pending == s.store.pending && t.checks == s.checks && t.joined == s.joined
    requires t.work == s.work || !t.work.Checking?
    ensures Residence(t)
  {
    WaitingKept(s, t, s.store.pending, |s.checks|);
    if t.work.Checking? {
      WaitingKept(s, t, s.work.rest, |s.checks| - 1);
    }
  }

  lemma GetKeepsHistory(s: State)
    requires CheckFaithful(s) && Residence(s) && Enabled(s, Get)
    requires AllNamed(s.store.pending) && InTurn(s.store.pending)
    requires forall i :: 0 <= i < |s.store.pending| ==> s.store.pending[i].receiveTime <= s.clock
    ensures CheckFaithful(Step(s, Get)) && Residence(Step(s, Get))
  {
    var s' := s.(queue := s.queue[1..]);
    OtherKeepsResidence(s, s');
    if s.queue[0].Check? {
      GetKeepsCheckFaithful(s);
      CheckStartKeepsResidence(s');
    } else {
      OtherKeepsResidence(s', Step(s, Get));
    }
  }

  lemma StepKeepsHistory(s: State, a: Action)
    requires CheckFaithful(s) && Residence(s) && Enabled(s, a)
    requires AllNamed(s.store.pending) && InTurn(s.store.pending)
    requires forall i :: 0 <= i < |s.store.pending| ==> s.store.pending[i].receiveTime <= s.clock
    requires s.work.Adding? ==> forall i :: 0 <= i < |s.store.pending| ==> s.store.pending[i].ref != s.work.event.ref
    ensures CheckFaithful(Step(s, a)) && Residence(Step(s, a))
  {
    match a
    case Get => GetKeepsHistory(s);
    case Resolve(partitions) => ResolveKeepsResidence(s, partitions);
    case Visit(partitions) =>
      VisitKeepsCheckFaithful(s, partitions);
      VisitKeepsResidence(s, partitions);
    case _ => OtherKeepsResidence(s, Step(s, a));
  }

  predicate Invariant(s: State) {
    Numbered(s) && Accounted(s) && CheckFaithful(s) && Residence(s)
  }

  lemma StepKeepsInvariant(s: State, a: Action)
    requires Invariant(s) && Enabled(s, a)
    ensures Invariant(Step(s, a))
  {
    StepKeepsNumbered(s, a);
    StepKeepsAccounted(s, a);
    PendingFacts(s);
    StepKeepsHistory(s, a);
  }

  /** A state some run of the threads leads to. */
  predicate Reached(clock: int, initial: seq<Partition>, run: seq<Action>, s: State) {
    CanRun(Machine(), Init(clock, initial), run) && After(Machine(), Init(clock, initial), run) == s
  }

  lemma ReachedInvariant(clock: int, initial: seq<Partition>, run: seq<Action>, s: State)
    requires Reached(clock, initial, run, s)
    ensures Invariant(s)
  {
    forall t, a | Invariant(t) && Enabled(t, a) ensures Invariant(Step(t, a)) {
      StepKeepsInvariant(t, a);
    }
    Keeps(Machine(), (t: State) => Invariant(t), Init(clock, initial), run);
  }

  lemma {:induction false} AddsCount(received: seq<Event>, e: Event)
    requires forall i :: 0 <= i < |received| ==> received[i].ref == i
    ensures multiset(Adds(received))[e] == if e in received && IsAdd(e) then 1 else 0
  {
    if received != [] {
      var n := |received| - 1;
      var before, last := received[..n], received[n];
      AddsCount(before, e);
      CountSnoc(Adds(before), last, e);
      assert received == before + [last];
      assert last == e ==> e !in before;
      assert Adds(received) == if IsAdd(last) then Adds(before) + [last] else Adds(before);
    }
  }

  lemma CountSnoc(events: seq<Event>, last: Event, e: Event)
    ensures multiset(events + [last])[e] == multiset(events)[e] + (if last == e then 1 else 0)
  {
  }

  /** Conservation: each accepted "add" event is, once, in exactly one of the pending list,
      the worker's hands, the task queue, the reported and the expired ones; so none is lost,
      reported twice, or reported after it expired. No other event is in any of them. */
  lemma EventConservation(clock: int, initial: seq<Partition>, run: seq<Action>, s: State, e: Event)
    requires Reached(clock, initial, run, s)
    ensures multiset(s.store.pending)[e] + multiset(Working(s.work))[e] + multiset(QueuedAdds(s.queue))[e]
          + multiset(Reported(s.store.added))[e] + multiset(s.store.expired)[e]
         == if e in s.received && IsAdd(e) then 1 else 0
  {
    ReachedInvariant(clock, initial, run, s);
    AddsCount(s.received, e);
  }

  lemma InOrderPrefix(a: seq<Event>, b: seq<Event>, received: seq<Event>)
    requires InOrder(a + b, received)
    ensures InOrder(a, received) && InOrder(b, received)
  {
    assert forall i :: 0 <= i < |a| ==> (a + b)[i] == a[i];
    assert forall i :: 0 <= i < |b| ==> (a + b)[|a| + i] == b[i];
  }

  /** Order: the pending list, and the list a check is working on, are subsequences of the
      accepted arrivals in arrival order, and sorted by receive time. */
  lemma PendingOrder(clock: int, initial: seq<Partition>, run: seq<Action>, s: State)
    requires Reached(clock, initial, run, s)
    ensures InOrder(s.store.pending, s.received) && InOrder(Working(s.work), s.received)
    ensures SortedByTime(s.store.pending) && SortedByTime(Working(s.work))
  {
    ReachedInvariant(clock, initial, run, s);
    InOrderPrefix(s.store.pending, Working(s.work) + QueuedAdds(s.queue), s.received);
    InOrderPrefix(Working(s.work), QueuedAdds(s.queue), s.received);
  }

  /** The receiver, the scheduler and the clock. */
  predicate ByOthers(a: Action) {
    a.Tick? || a.Receive? || a.Schedule?
  }

  lemma {:induction false} OthersLeaveWorker(s: State, run: seq<Action>)
    requires CanRun(Machine(), s, run) && forall i :: 0 <= i < |run| ==> ByOthers(run[i])
    ensures var t := After(Machine(), s, run); t.work == s.work && t.store == s.store && t.checks == s.checks
    decreases |run|
  {
    if run != [] {
      assert ByOthers(run[0]);
      OthersLeaveWorker(Step(s, run[0]), run[1..]);
    }
  }

  /** Taking the task of an event, and for an accepted "add" looking at the mount table
      later, changes the worker's data as doProcessEvent does in one go, whatever the other
      threads do in between. */
  lemma ProcessIsAtomic(s: State, e: Event, between: seq<Action>, partitions: seq<Partition>)
    requires Enabled(s, Get) && s.queue[0] == Process(e)
    requires CanRun(Machine(), Step(s, Get), between)
    requires forall i :: 0 <= i < |between| ==> ByOthers(between[i])
    ensures var t := After(Machine(), Step(s, Get), between);
            if IsAdd(e) then
              && Enabled(t, Resolve(partitions))
              && Step(t, Resolve(partitions)).store == ProcessOne(s.store, e, partitions)
              && Step(t, Resolve(partitions)).work == Idle
            else t.store == ProcessOne(s.store, e, partitions) && t.work == Idle
  {
    OthersLeaveWorker(Step(s, Get), between);
  }

  /** A check expires the first k events of a list in which those are the expired ones. */
  lemma {:induction false} VisitAllExpires(s: Store, events: seq<Event>, now: int, mounted: seq<seq<Partition>>, k: nat)
    requires |mounted| >= |events| && AllNamed(events)
    requires k <= |events| && forall i :: 0 <= i < |events| ==> (Expired(events[i], now) <==> i < k)
    ensures VisitAll(s, events, now, mounted).expired == s.expired + events[..k]
    decreases |events|
  {
    if events == [] {
      assert s.expired + [] == s.expired;
    } else {
      var n := |events| - 1;
      var k' := if k <= n then k else n;
      VisitAllExpires(s, events[..n], now, mounted, k');
      assert events[..n][..k'] == events[..k'];
      if k > n {
        assert s.expired + events[..k] == (s.expired + events[..n]) + [events[n]];
      }
    }
  }

  /** Where the events of the pending list and the decided ones are, counted together. */
  function Total(s: Store): multiset<Event> {
    multiset(s.pending) + Decided(s)
  }

  lemma MovedKeepsTotal(s: Store, t: Store, e: Event)
    requires Moved(s, t, e)
    ensures Total(t) == Total(s) + multiset{e}
  {
  }

  /** A check loses no event and invents none. */
  lemma {:induction false} VisitAllKeeps(s: Store, events: seq<Event>, now: int, mounted: seq<seq<Partition>>)
    requires |mounted| >= |events| && AllNamed(events)
    ensures Total(VisitAll(s, events, now, mounted)) == Total(s) + multiset(events)
    decreases |events|
  {
    if events != [] {
      var n := |events| - 1;
      var before := VisitAll(s, events[..n], now, mounted);
      VisitAllKeeps(s, events[..n], now, mounted);
      VisitEventDecides(before, events[n], now, mounted[n]);
      MovedKeepsTotal(before, VisitAll(s, events, now, mounted), events[n]);
      assert events == events[..n] + [events[n]];
      MultisetAssoc(Total(s), multiset(events[..n]), multiset{events[n]});
      assert multiset(events) == multiset(events[..n]) + multiset{events[n]};
    }
  }

  lemma MultisetAssoc(a: multiset<Event>, b: multiset<Event>, c: multiset<Event>)
    ensures (a + b) + c == a + (b + c)
  {
  }

  lemma Cancel(p: multiset<Event>, r': multiset<Event>, x': multiset<Event>,
               r: multiset<Event>, x: multiset<Event>, k: multiset<Event>, l: multiset<Event>)
    requires p + (r' + x') == (r + x) + (k + l) && x' == x + k
    ensures p + r' == l + r
  {
    forall e: Event ensures (p + r')[e] == (l + r)[e] {
      assert (p + (r' + x'))[e] == ((r + x) + (k + l))[e];
    }
  }

  function ExpiredCount(events: seq<Event>, now: int): (k: nat)
    ensures k <= |events|
  {
    if events == [] || !Expired(events[0], now) then 0 else 1 + ExpiredCount(events[1..], now)
  }

  lemma {:induction false} ExpiredCountSplits(events: seq<Event>, now: int)
    requires SortedByTime(events)
    ensures forall i :: 0 <= i < |events| ==> (Expired(events[i], now) <==> i < ExpiredCount(events, now))
  {
    if events != [] && Expired(events[0], now) {
      ExpiredCountSplits(events[1..], now);
      assert forall i :: 1 <= i < |events| ==> events[i] == events[1..][i - 1];
    }
  }

  /** doCheckPendingEvent on a list sorted by receive time: the events it expires are a
      prefix of the list; the others, all at most 30 s old, are reported or pending again. */
  lemma CheckPendingSplits(start: Store, now: int, mounted: seq<seq<Partition>>)
    requires |mounted| >= |start.pending| && AllNamed(start.pending) && SortedByTime(start.pending)
    ensures var t, k := CheckPending(start, now, mounted), ExpiredCount(start.pending, now);
            && t.expired == start.expired + start.pending[..k]
            && multiset(t.pending) + multiset(Reported(t.added))
            == multiset(start.pending[k..]) + multiset(Reported(start.added))
            && forall i :: k <= i < |start.pending| ==> now - start.pending[i].receiveTime <= EXPIRY
  {
    var k := ExpiredCount(start.pending, now);
    ExpiredCountSplits(start.pending, now);
    VisitAllExpires(start.(pending := []), start.pending, now, mounted, k);
    VisitAllKeeps(start.(pending := []), start.pending, now, mounted);
    RestKept(start, CheckPending(start, now, mounted), k);
  }

  lemma RestKept(start: Store, t: Store, k: nat)
    requires k <= |start.pending| && t.expired == start.expired + start.pending[..k]
    requires Total(t) == Total(start.(pending := [])) + multiset(start.pending)
    ensures multiset(t.pending) + multiset(Reported(t.added))
         == multiset(start.pending[k..]) + multiset(Reported(start.added))
  {
    assert start.pending == start.pending[..k] + start.pending[k..];
    assert multiset(start.pending) == multiset(start.pending[..k]) + multiset(start.pending[k..]);
    assert Total(start.(pending := [])) == multiset(Reported(start.added)) + multiset(start.expired);
    Cancel(multiset(t.pending), multiset(Reported(t.added)), multiset(t.expired), multiset(Reported(start.added)),
           multiset(start.expired), multiset(start.pending[..k]), multiset(start.pending[k..]));
  }

  /** Whatever tasks arrive and whatever the mount table says meanwhile, a check that has
      visited its whole list has done to the store what doCheckPendingEvent does in one go. */
  lemma CheckIsAtomic(clock: int, initial: seq<Partition>, run: seq<Action>, s: State)
    requires Reached(clock, initial, run, s)
    requires s.work.Checking? && s.work.rest == []
    ensures |s.work.mounted| == |s.work.start.pending| && AllNamed(s.work.start.pending)
    ensures s.store == CheckPending(s.work.start, s.work.now, s.work.mounted)
  {
    ReachedInvariant(clock, initial, run, s);
    assert s.work.start.pending[..|s.work.start.pending|] == s.work.start.pending;
  }

  /** Where a check puts an event that is young enough is decided by the table of its visit. */
  lemma {:induction false} VisitAllPlaces(s: Store, events: seq<Event>, now: int, mounted: seq<seq<Partition>>,
                                          i: nat, mountpoint: string)
    requires |mounted| >= |events| && AllNamed(events) && i < |events|
    requires forall j :: 0 <= j < |events| && j != i ==> events[j] != events[i]
    requires events[i] !in s.pending && now - events[i].receiveTime <= 30_000_000
    ensures var t, device := VisitAll(s, events, now, mounted), events[i].fields["DEVNAME"];
            && s.added <= t.added
            && (events[i] in t.pending <==> Unmounted(mounted[i], device))
            && (MountedAt(mounted[i], device, mountpoint) ==>
                  Report(events[i], mountpoint) in t.added[|s.added|..])
    decreases |events|
  {
    var n := |events| - 1;
    var before, device := VisitAll(s, events[..n], now, mounted), events[i].fields["DEVNAME"];
    if i < n {
      VisitAllPlaces(s, events[..n], now, mounted, i, mountpoint);
      var t := VisitAll(s, events, now, mounted);
      assert before.added[|s.added|..] <= t.added[|s.added|..];
    } else {
      VisitAllOthers(s, events[..n], now, mounted, events[n]);
      VisitOutcome(before, events[n], now, mounted[n], mountpoint);
      MountedIff(mounted[n], device, mountpoint);
      if !Unmounted(mounted[n], device) {
        VisitOutcome(before, events[n], now, mounted[n], MountMap(mounted[n])[device]);
        MountedIff(mounted[n], device, MountMap(mounted[n])[device]);
        var report := Report(events[n], MountMap(mounted[n])[device]);
        assert (before.added + [report])[|before.added|] == report;
      }
    }
  }

  lemma {:induction false} VisitAllOthers(s: Store, events: seq<Event>, now: int, mounted: seq<seq<Partition>>,
                                          e: Event)
    requires |mounted| >= |events| && AllNamed(events)
    requires e !in s.pending && e !in events
    ensures var t := VisitAll(s, events, now, mounted); e !in t.pending && s.added <= t.added
    decreases |events|
  {
    if events != [] {
      VisitAllOthers(s, events[..|events| - 1], now, mounted, e);
    }
  }

  /** What a check has done when it has visited its whole list, in every run: the events it
      expired are a prefix of the list it started from, and each of the others is at most
      30 s old and either reported or pending again. */
  lemma CheckOutcome(clock: int, initial: seq<Partition>, run: seq<Action>, s: State)
    requires Reached(clock, initial, run, s)
    requires s.work.Checking? && s.work.rest == []
    ensures var start, now := s.work.start, s.work.now;
            var k := ExpiredCount(start.pending, now);
            && s.store.expired == start.expired + start.pending[..k]
            && multiset(s.store.pending) + multiset(Reported(s.store.added))
            == multiset(start.pending[k..]) + multiset(Reported(start.added))
            && (forall i :: 0 <= i < k ==> now - start.pending[i].receiveTime > EXPIRY)
            && (forall i :: k <= i < |start.pending| ==> now - start.pending[i].receiveTime <= EXPIRY)
  {
    ReachedInvariant(clock, initial, run, s);
    CheckIsAtomic(clock, initial, run, s);
    CheckPendingSplits(s.work.start, s.work.now, s.work.mounted);
    ExpiredCountSplits(s.work.start.pending, s.work.now);
  }

  /** Which of the two, in every run: an event that is young enough is pending again if and
      only if its device was not mounted when the check visited it, and otherwise reported
      at the mount point of that moment. */
  lemma CheckDecides(clock: int, initial: seq<Partition>, run: seq<Action>, s: State, i: nat, mountpoint: string)
    requires Reached(clock, initial, run, s)
    requires s.work.Checking? && s.work.rest == []
    requires i < |s.work.start.pending| && s.work.now - s.work.start.pending[i].receiveTime <= 30_000_000
    ensures |s.work.mounted| == |s.work.start.pending| && HasName(s.work.start.pending[i])
    ensures s.work.start.added <= s.store.added
    ensures var e, mounted := s.work.start.pending[i], s.work.mounted[i];
            && (e in s.store.pending <==> Unmounted(mounted, e.fields["DEVNAME"]))
            && (MountedAt(mounted, e.fields["DEVNAME"], mountpoint) ==>
                  Report(e, mountpoint) in s.store.added[|s.work.start.added|..])
  {
    ReachedInvariant(clock, initial, run, s);
    CheckIsAtomic(clock, initial, run, s);
    var start := s.work.start;
    VisitAllPlaces(start.(pending := []), start.pending, s.work.now, s.work.mounted, i, mountpoint);
  }

  /** The partition table that was looked at last: the run method looks once at the start,
      each accepted "add" when it is handled, and a check at each event that is young enough. */
  function LastLook(s: State, run: seq<Action>, table: seq<Partition>): seq<Partition>
    requires CanRun(Machine(), s, run)
    decreases |run|
  {
    if run == [] then table
    else
      var looks := match run[0]
        case Resolve(_) => true
        case Visit(_) => s.work.now - s.work.rest[0].receiveTime <= 30_000_000
        case _ => false;
      LastLook(Step(s, run[0]), run[1..], if looks then run[0].partitions else table)
  }

  lemma {:induction false} MountsAreLastLook(s: State, run: seq<Action>, table: seq<Partition>)
    requires CanRun(Machine(), s, run) && s.store.mounts == MountMap(table)
    ensures After(Machine(), s, run).store.mounts == MountMap(LastLook(s, run, table))
    decreases |run|
  {
    if run != [] {
      var a := run[0];
      var next := if a.Resolve? || (a.Visit? && !Expired(s.work.rest[0], s.work.now)) then a.partitions else table;
      assert Step(s, a).store.mounts == MountMap(next);
      MountsAreLastLook(Step(s, a), run[1..], next);
    }
  }

  /** A removed partition is reported, in every run, at the mount point that the last look at
      the table gave, and not at all if that look did not find its device. */
  lemma RemovalOutcome(clock: int, initial: seq<Partition>, run: seq<Action>, s: State, e: Event, mountpoint: string)
    requires Reached(clock, initial, run, s)
    requires Enabled(s, Get) && s.queue[0] == Process(e)
    requires "DEVTYPE" in e.fields && e.fields["DEVTYPE"] == "partition"
    requires "ACTION" in e.fields && e.fields["ACTION"] == "remove"
    requires "DEVNAME" in e.fields && "/dev" <= e.fields["DEVNAME"]
    ensures var table, device := LastLook(Init(clock, initial), run, initial), e.fields["DEVNAME"];
            && (MountedAt(table, device, mountpoint) ==>
                  Step(s, Get).store == s.store.(removed := s.store.removed + [Report(e, mountpoint)]))
            && (Unmounted(table, device) ==> Step(s, Get).store == s.store)
  {
    MountsAreLastLook(Init(clock, initial), run, initial);
    MountedIff(LastLook(Init(clock, initial), run, initial), e.fields["DEVNAME"], mountpoint);
    ProcessOutcome(s.store, e, [], mountpoint);
  }

  /** What reaches the queue: a message that is long enough, or the scheduler's timer. */
  datatype Arrival = Message(data: string) | Timer

  function ArrivalOf(a: Action): seq<Arrival> {
    match a
    case Receive(data) => if |data| < 32 then [] else [Message(data)]
    case Schedule => [Timer]
    case _ => []
  }

  function Arrivals(run: seq<Action>): seq<Arrival> {
    if run == [] then [] else ArrivalOf(run[0]) + Arrivals(run[1..])
  }

  function Taken(run: seq<Action>): nat {
    if run == [] then 0 else (if run[0].Get? then 1 else 0) + Taken(run[1..])
  }

  /** The task that arrival puts on the queue. */
  predicate TaskOf(task: Task, arrival: Arrival) {
    match arrival
    case Timer => task == Check
    case Message(data) => task.Process? && task.event.fields == ParsedFields(data)
  }

  predicate TasksOf(queue: seq<Task>, arrivals: seq<Arrival>) {
    |queue| == |arrivals| && forall i :: 0 <= i < |queue| ==> TaskOf(queue[i], arrivals[i])
  }

  /** The queue holds the tasks of all these arrivals but the first n. */
  predicate AllButFirst(queue: seq<Task>, arrivals: seq<Arrival>, n: nat) {
    n <= |arrivals| && TasksOf(queue, arrivals[n..])
  }

  lemma OneMoreTaken(queue: seq<Task>, waiting: seq<Arrival>, rest: seq<Arrival>, n: nat)
    requires waiting != [] && AllButFirst(queue, waiting[1..] + rest, n)
    ensures AllButFirst(queue, waiting + rest, n + 1)
  {
    assert (waiting[1..] + rest)[n..] == (waiting + rest)[n + 1..];
  }

  lemma StepQueue(s: State, a: Action, waiting: seq<Arrival>)
    requires Enabled(s, a) && TasksOf(s.queue, waiting)
    ensures a.Get? ==> waiting != [] && TasksOf(Step(s, a).queue, waiting[1..]) && ArrivalOf(a) == []
    ensures !a.Get? ==> TasksOf(Step(s, a).queue, waiting + ArrivalOf(a))
  {
    if a.Get? {
      assert Step(s, a).queue == s.queue[1..];
    }
  }

  lemma {:induction false} QueueFrom(s: State, run: seq<Action>, waiting: seq<Arrival>)
    requires CanRun(Machine(), s, run) && TasksOf(s.queue, waiting)
    ensures AllButFirst(After(Machine(), s, run).queue, waiting + Arrivals(run), Taken(run))
    decreases |run|
  {
    if run == [] {
      assert waiting + [] == waiting;
    } else {
      var first, rest := ArrivalOf(run[0]), Arrivals(run[1..]);
      StepQueue(s, run[0], waiting);
      if run[0].Get? {
        QueueFrom(Step(s, run[0]), run[1..], waiting[1..]);
        OneMoreTaken(After(Machine(), s, run).queue, waiting, rest, Taken(run[1..]));
        assert first + rest == rest;
      } else {
        QueueFrom(Step(s, run[0]), run[1..], waiting + first);
        Bytes.Assoc(waiting, first, rest);
      }
    }
  }

  /** The queue is first in, first out: in every run it holds a task for each message of at
      least 32 characters and for each timer, in order, except those taken off its front. */
  lemma QueueIsFifo(clock: int, initial: seq<Partition>, run: seq<Action>, s: State)
    requires Reached(clock, initial, run, s)
    ensures Taken(run) <= |Arrivals(run)|
    ensures TasksOf(s.queue, Arrivals(run)[Taken(run)..])
  {
    QueueFrom(Init(clock, initial), run, []);
    assert [] + Arrivals(run) == Arrivals(run);
  }

  lemma {:induction false} OthersKeepHead(s: State, run: seq<Action>)
    requires CanRun(Machine(), s, run) && forall i :: 0 <= i < |run| ==> ByOthers(run[i])
    ensures s.queue <= After(Machine(), s, run).queue
    decreases |run|
  {
    if run != [] {
      assert ByOthers(run[0]);
      OthersKeepHead(Step(s, run[0]), run[1..]);
    }
  }

  /** A message is received, the worker takes its task and later looks at the mount table;
      the other threads may do anything before and between. */
  function AddRun(data: string, before: seq<Action>, between: seq<Action>, partitions: seq<Partition>): seq<Action> {
    [Receive(data)] + (before + ([Get] + (between + [Resolve(partitions)])))
  }

  lemma AddRunIsAtomic(s: State, data: string, before: seq<Action>, between: seq<Action>, partitions: seq<Partition>)
    requires s.work == Idle && s.queue == [] && |data| >= 32
    requires IsAdd(Event(|s.received|, ParsedFields(data), s.clock))
    requires forall i :: 0 <= i < |before| ==> ByOthers(before[i])
    requires forall i :: 0 <= i < |between| ==> ByOthers(between[i])
    requires CanRun(Machine(), s, AddRun(data, before, between, partitions))
    ensures After(Machine(), s, AddRun(data, before, between, partitions)).store
         == ProcessOne(s.store, Event(|s.received|, ParsedFields(data), s.clock), partitions)
  {
    var e := Event(|s.received|, ParsedFields(data), s.clock);
    var last := [Resolve(partitions)];
    var s1 := Step(s, Receive(data));
    assert AddRun(data, before, between, partitions)[1..] == before + ([Get] + (between + last));
    CutRun(Machine(), s1, before, [Get] + (between + last));
    var s2 := After(Machine(), s1, before);
    OthersLeaveWorker(s1, before);
    OthersKeepHead(s1, before);
    assert s1.queue == [Process(e)] && s2.queue[0] == s1.queue[0];
    assert ([Get] + (between + last))[1..] == between + last;
    CutRun(Machine(), Step(s2, Get), between, last);
    ProcessIsAtomic(s2, e, between, partitions);
  }

  /** End to end: a well-formed "add" datagram of a partition under /dev, received while the
      worker has nothing to do, is reported where the table says when the worker looks, or
      becomes pending, whatever the other threads do before and after the worker takes it. */
  lemma DatagramHandled(s: State, header: string, vars: seq<(string, string)>, trailer: seq<string>, data: string,
                        device: string, before: seq<Action>, between: seq<Action>, partitions: seq<Partition>,
                        mountpoint: string)
    requires s.work == Idle && s.queue == []
    requires WellFormed(header, vars, trailer) && "/dev" <= device
    requires ("DEVTYPE", "partition") in vars && ("ACTION", "add") in vars && ("DEVNAME", device) in vars
    requires data == Sanitized(Join(Lines(header, vars, trailer), '\0')) && |data| >= 32
    requires forall i :: 0 <= i < |before| ==> ByOthers(before[i])
    requires forall i :: 0 <= i < |between| ==> ByOthers(between[i])
    requires CanRun(Machine(), s, AddRun(data, before, between, partitions))
    ensures var e := Event(|s.received|, ParsedFields(data), s.clock);
            var t := After(Machine(), s, AddRun(data, before, between, partitions)).store;
            && (MountedAt(partitions, device, mountpoint) ==>
                  t == s.store.(mounts := MountMap(partitions), added := s.store.added + [Report(e, mountpoint)]))
            && (Unmounted(partitions, device) ==>
                  t == s.store.(mounts := MountMap(partitions), pending := s.store.pending + [e]))
  {
    var e := Event(|s.received|, ParsedFields(data), s.clock);
    DatagramOutcome(header, vars, trailer, "add", device, e, s.store, partitions, mountpoint);
    AddRunIsAtomic(s, data, before, between, partitions);
  }

  /** Successive checks start at least the scheduler's interval apart. */
  predicate Spaced(checks: seq<int>) {
    forall i :: 1 <= i < |checks| ==> checks[i] - checks[i - 1] >= CHECK_INTERVAL
  }

  lemma {:induction false} SpacedApart(checks: seq<int>, i: nat, j: nat)
    requires Spaced(checks) && i <= j < |checks|
    ensures checks[j] - checks[i] >= (j - i) * CHECK_INTERVAL
    decreases j
  {
    if i < j {
      SpacedApart(checks, i, j - 1);
    }
  }

  /** Residence: if checks start at least 5 s apart, no event stays pending through more than
      7 of them, whatever the mount table says; and one that has been through a check was at
      most 30 s old at the last one. */
  lemma ResidenceBound(clock: int, initial: seq<Partition>, run: seq<Action>, s: State, i: nat)
    requires Reached(clock, initial, run, s) && i < |s.store.pending|
    ensures var e := s.store.pending[i];
            && e.ref in s.joined && s.joined[e.ref] <= |s.checks|
            && (s.joined[e.ref] < |s.checks| ==> s.checks[|s.checks| - 1] - e.receiveTime <= EXPIRY)
            && (Spaced(s.checks) ==> |s.checks| - s.joined[e.ref] <= 7)
  {
    ReachedInvariant(clock, initial, run, s);
    var e := s.store.pending[i];
    assert Waiting(s, e, |s.checks|);
    if Spaced(s.checks) && s.joined[e.ref] < |s.checks| {
      SpacedApart(s.checks, s.joined[e.ref], |s.checks| - 1);
    }
  }

  /** The worker has nothing to do, and one event, numbered e.ref, is pending. */
  predicate OnePending(s: State, e: Event) {
    s.work == Idle && s.queue == [] && s.store.pending == [e] && HasName(e)
  }

  /** A check at time `now` that finds the event young enough and its device unmounted. */
  lemma CheckInVain(s: State, e: Event, now: int) returns (run: seq<Action>)
    requires OnePending(s, e) && s.clock <= now && !Expired(e, now)
    ensures CanRun(Machine(), s, run)
    ensures var t := After(Machine(), s, run);
            OnePending(t, e) && t.clock == now && t.checks == s.checks + [now] && t.joined == s.joined
  {
    var s1 := Step(s, Tick(now));
    var s2 := Step(s1, Schedule);
    var s3 := Step(s2, Get);
    assert s3.work == Checking(now, [e], s.store, []);
    var s4 := Step(s3, Visit([]));
    Prepend(Machine(), s4, EndCheck, []);
    Prepend(Machine(), s3, Visit([]), [EndCheck]);
    Prepend(Machine(), s2, Get, [Visit([])] + [EndCheck]);
    Prepend(Machine(), s1, Schedule, [Get] + ([Visit([])] + [EndCheck]));
    run := [Schedule] + ([Get] + ([Visit([])] + [EndCheck]));
    Prepend(Machine(), s, Tick(now), run);
    run := [Tick(now)] + run;
  }

  lemma {:induction false} ChecksInVain(s: State, e: Event, n: nat) returns (run: seq<Action>)
    requires OnePending(s, e) && s.clock == e.receiveTime && s.checks == [] && n <= 7
    ensures CanRun(Machine(), s, run)
    ensures var t := After(Machine(), s, run);
            && OnePending(t, e) && t.joined == s.joined && |t.checks| == n
            && (n > 0 ==> t.clock == e.receiveTime + (n - 1) * CHECK_INTERVAL)
            && (n == 0 ==> t.clock == e.receiveTime)
            && forall i :: 0 <= i < n ==> t.checks[i] == e.receiveTime + i * CHECK_INTERVAL
  {
    if n == 0 {
      run := [];
    } else {
      var before := ChecksInVain(s, e, n - 1);
      var last := CheckInVain(After(Machine(), s, before), e, e.receiveTime + (n - 1) * CHECK_INTERVAL);
      Append(Machine(), s, before, last);
      run := before + last;
    }
  }

  /** The bound of 7 is reached: any accepted event whose device never mounts can stay
      pending through 7 checks that are 5 s apart, the first right after its arrival. */
  lemma SevenChecksHappen(clock: int, initial: seq<Partition>, data: string) returns (run: seq<Action>, s: State)
    requires |data| >= MIN_MESSAGE && KindOf(ParsedFields(data)) == Add
    ensures Reached(clock, initial, run, s) && Spaced(s.checks) && |s.store.pending| == 1
    ensures var ref := s.store.pending[0].ref; ref in s.joined && |s.checks| - s.joined[ref] == 7
  {
    var e := Event(0, ParsedFields(data), clock);
    var s0 := Init(clock, initial);
    var s1 := Step(s0, Receive(data));
    assert s1.queue == [Process(e)];
    var s2 := Step(s1, Get);
    var s3 := Step(s2, Resolve([]));
    assert s3.store.pending == [e];
    run := ChecksInVain(s3, e, 7);
    Prepend(Machine(), s2, Resolve([]), run);
    Prepend(Machine(), s1, Get, [Resolve([])] + run);
    Prepend(Machine(), s0, Receive(data), [Get] + ([Resolve([])] + run));
    run := [Receive(data)] + ([Get] + ([Resolve([])] + run));
    s := After(Machine(), s0, run);
  }
}
