// UeventMonitor: events from the receiver thread and checks from the scheduler go through
// one task queue to one worker, which keeps the list of pending partitions. First the
// methods of the class, then the threads interleaved.
module Uevents {
  import opened Netlink

  const EXPIRY := 30_000_000         // pending_expired_time_sec, in microseconds
  const CHECK_INTERVAL := 5_000_000  // pending_check_interval_sec
  const MIN_MESSAGE := 32

  /** An event dictionary. `ref` is the identity of the object, numbered in creation order. */
  datatype Event = Event(ref: nat, fields: Fields, receiveTime: int)

  datatype Kind = Add | Remove | Ignored

  datatype Task = Process(event: Event) | Check

  datatype Partition = Partition(device: string, mountpoint: string)

  type Mounts = map<string, string>

  datatype Report = Report(event: Event, mountpoint: string)

  /** The variables only the worker thread touches, and what it has logged. */
  datatype Store = Store(
    pending: seq<Event>,
    mounts: Mounts,
    added: seq<Report>,
    expired: seq<Event>,
    removed: seq<Report>)

  /** How doProcessEvent treats an event. */
  function KindOf(f: Fields): Kind {
    if "DEVTYPE" !in f || f["DEVTYPE"] != "partition" then Ignored
    else if "ACTION" !in f || "DEVNAME" !in f || !("/dev" <= f["DEVNAME"]) then Ignored
    else if f["ACTION"] == "add" then Add
    else if f["ACTION"] == "remove" then Remove
    else Ignored
  }

  predicate HasName(e: Event) {
    "DEVNAME" in e.fields
  }

  /** The map after the partitions have been entered in order. */
  function MountMap(partitions: seq<Partition>): Mounts {
    if partitions == [] then map[]
    else
      var last := partitions[|partitions| - 1];
      MountMap(partitions[..|partitions| - 1])[last.device := last.mountpoint]
  }

  predicate LastEntry(partitions: seq<Partition>, p: Partition, i: nat) {
    && i < |partitions| && partitions[i] == p
    && forall j :: i < j < |partitions| ==> partitions[j].device != p.device
  }

  /** A device is mounted where the last entry for it says, and only if there is one. */
  lemma {:induction false} MountMapIff(partitions: seq<Partition>, p: Partition)
    ensures p.device in MountMap(partitions) && MountMap(partitions)[p.device] == p.mountpoint <==>
            exists i :: LastEntry(partitions, p, i)
  {
    if partitions != [] {
      var n := |partitions| - 1;
      var before := partitions[..n];
      MountMapIff(before, p);
      if partitions[n].device == p.device {
        if partitions[n] == p {
          assert LastEntry(partitions, p, n);
        }
        forall i: nat | LastEntry(partitions, p, i) ensures i == n {
        }
      } else {
        forall i: nat | LastEntry(before, p, i) ensures LastEntry(partitions, p, i) {
        }
        forall i: nat | LastEntry(partitions, p, i) ensures LastEntry(before, p, i) {
          assert i != n;
        }
      }
    }
  }

  /** The last entry of the device gives this mount point. */
  ghost predicate MountedAt(partitions: seq<Partition>, device: string, mountpoint: string) {
    exists i :: LastEntry(partitions, Partition(device, mountpoint), i)
  }

  predicate Unmounted(partitions: seq<Partition>, device: string) {
    forall i :: 0 <= i < |partitions| ==> partitions[i].device != device
  }

  lemma MountedIff(partitions: seq<Partition>, device: string, mountpoint: string)
    ensures MountedAt(partitions, device, mountpoint) <==>
            device in MountMap(partitions) && MountMap(partitions)[device] == mountpoint
    ensures Unmounted(partitions, device) <==> device !in MountMap(partitions)
  {
    MountMapIff(partitions, Partition(device, mountpoint));
    if device in MountMap(partitions) {
      var p := Partition(device, MountMap(partitions)[device]);
      MountMapIff(partitions, p);
      var i: nat :| LastEntry(partitions, p, i);
      assert partitions[i].device == device;
    } else {
      NotInMountMap(partitions, device);
    }
  }

  lemma {:induction false} NotInMountMap(partitions: seq<Partition>, device: string)
    requires device !in MountMap(partitions)
    ensures Unmounted(partitions, device)
  {
    if partitions != [] {
      NotInMountMap(partitions[..|partitions| - 1], device);
    }
  }

  function AddEvent(s: Store, e: Event, partitions: seq<Partition>): Store
    requires HasName(e)
  {
    var mounts := MountMap(partitions);
    var name := e.fields["DEVNAME"];
    if name !in mounts then s.(mounts := mounts, pending := s.pending + [e])
    else s.(mounts := mounts, added := s.added + [Report(e, mounts[name])])
  }

  function RemoveEvent(s: Store, e: Event): Store
    requires HasName(e)
  {
    var name := e.fields["DEVNAME"];
    if name !in s.mounts then s else s.(removed := s.removed + [Report(e, s.mounts[name])])
  }

  function ProcessOne(s: Store, e: Event, partitions: seq<Partition>): Store {
    match KindOf(e.fields)
    case Add => AddEvent(s, e, partitions)
    case Remove => RemoveEvent(s, e)
    case Ignored => s
  }

  /** An "add" is reported, at the mount point the table gives at that moment, or becomes
      pending if its device is not in the table. */
  lemma AddOutcome(s: Store, e: Event, partitions: seq<Partition>, mountpoint: string)
    requires HasName(e)
    ensures var t, device := AddEvent(s, e, partitions), e.fields["DEVNAME"];
            && (MountedAt(partitions, device, mountpoint) ==>
                  t.added == s.added + [Report(e, mountpoint)] && t.pending == s.pending)
            && (Unmounted(partitions, device) ==> t.pending == s.pending + [e] && t.added == s.added)
            && t.expired == s.expired && t.removed == s.removed && t.mounts == MountMap(partitions)
  {
    MountedIff(partitions, e.fields["DEVNAME"], mountpoint);
  }

  /** What an event does to the store is decided by three of its fields and by the mounts: an
      "add" looks at them anew, a "remove" uses those of the last look. */
  lemma ProcessOutcome(s: Store, e: Event, partitions: seq<Partition>, mountpoint: string)
    ensures var f, t := e.fields, ProcessOne(s, e, partitions);
            var ours := "DEVTYPE" in f && f["DEVTYPE"] == "partition" && "DEVNAME" in f && "/dev" <= f["DEVNAME"];
            var add := ours && "ACTION" in f && f["ACTION"] == "add";
            var remove := ours && "ACTION" in f && f["ACTION"] == "remove";
            && (KindOf(f) == Add <==> add) && (KindOf(f) == Remove <==> remove)
            && (add && MountedAt(partitions, f["DEVNAME"], mountpoint) ==>
                  t == s.(mounts := MountMap(partitions), added := s.added + [Report(e, mountpoint)]))
            && (add && Unmounted(partitions, f["DEVNAME"]) ==>
                  t == s.(mounts := MountMap(partitions), pending := s.pending + [e]))
            && (remove && f["DEVNAME"] in s.mounts ==>
                  t == s.(removed := s.removed + [Report(e, s.mounts[f["DEVNAME"]])]))
            && (remove && f["DEVNAME"] !in s.mounts ==> t == s)
            && (!add && !remove ==> t == s)
  {
    if HasName(e) {
      AddOutcome(s, e, partitions, mountpoint);
    }
  }

  /** From the kernel's datagram to the store: a well-formed "add" message of a partition
      under /dev is reported where the table says, or becomes pending; a "remove" is reported
      where the last look at the table said. */
  lemma DatagramOutcome(header: string, vars: seq<(string, string)>, trailer: seq<string>, action: string,
                        device: string, e: Event, s: Store, partitions: seq<Partition>, mountpoint: string)
    requires WellFormed(header, vars, trailer) && "/dev" <= device
    requires ("DEVTYPE", "partition") in vars && ("ACTION", action) in vars && ("DEVNAME", device) in vars
    requires e.fields == ParsedFields(Sanitized(Join(Lines(header, vars, trailer), '\0')))
    ensures HasName(e) && e.fields["DEVNAME"] == device
    ensures KindOf(e.fields) == if action == "add" then Add else if action == "remove" then Remove else Ignored
    ensures var t := ProcessOne(s, e, partitions);
            if action == "add" then
              && (MountedAt(partitions, device, mountpoint) ==>
                    t == s.(mounts := MountMap(partitions), added := s.added + [Report(e, mountpoint)]))
              && (Unmounted(partitions, device) ==>
                    t == s.(mounts := MountMap(partitions), pending := s.pending + [e]))
            else if action == "remove" && device in s.mounts then
              t == s.(removed := s.removed + [Report(e, s.mounts[device])])
            else t == s
  {
    MessageRoundTrip(header, vars, trailer, "DEVTYPE", "partition");
    MessageRoundTrip(header, vars, trailer, "ACTION", action);
    MessageRoundTrip(header, vars, trailer, "DEVNAME", device);
    ProcessOutcome(s, e, partitions, mountpoint);
  }

  predicate Expired(e: Event, now: int) {
    now - e.receiveTime > EXPIRY
  }

  function VisitEvent(s: Store, e: Event, now: int, partitions: seq<Partition>): Store
    requires HasName(e)
  {
    if Expired(e, now) then s.(expired := s.expired + [e]) else AddEvent(s, e, partitions)
  }

  /** A visit expires an event that is more than 30 s old, and treats any other as an "add". */
  lemma VisitOutcome(s: Store, e: Event, now: int, partitions: seq<Partition>, mountpoint: string)
    requires HasName(e)
    ensures var t, device := VisitEvent(s, e, now, partitions), e.fields["DEVNAME"];
            if now - e.receiveTime > 30_000_000 then t == s.(expired := s.expired + [e])
            else
              && (MountedAt(partitions, device, mountpoint) ==>
                    t == s.(mounts := MountMap(partitions), added := s.added + [Report(e, mountpoint)]))
              && (Unmounted(partitions, device) ==>
                    t == s.(mounts := MountMap(partitions), pending := s.pending + [e]))
  {
    AddOutcome(s, e, partitions, mountpoint);
  }

  predicate AllNamed(events: seq<Event>) {
    forall i :: 0 <= i < |events| ==> HasName(events[i])
  }

  /** The loop of doCheckPendingEvent. `mounted[i]` is what disk_partitions returns if it is
      asked while the i-th event is visited. */
  function VisitAll(s: Store, events: seq<Event>, now: int, mounted: seq<seq<Partition>>): Store
    requires |mounted| >= |events| && AllNamed(events)
    decreases |events|
  {
    if events == [] then s
    else
      var n := |events| - 1;
      VisitEvent(VisitAll(s, events[..n], now, mounted), events[n], now, mounted[n])
  }

  function CheckPending(s: Store, now: int, mounted: seq<seq<Partition>>): Store
    requires |mounted| >= |s.pending| && AllNamed(s.pending)
  {
    VisitAll(s.(pending := []), s.pending, now, mounted)
  }

  class UeventMonitor {
    var taskQueue: seq<Task>
    var created: nat  // how many event objects have been made
    var pendingEventList: seq<Event>
    var devMountpointMap: Mounts
    var added: seq<Report>
    var expired: seq<Event>
    var removed: seq<Report>

    constructor ()
      ensures taskQueue == [] && created == 0 && Contents() == Store([], map[], [], [], [])
    {
      taskQueue, created, pendingEventList, devMountpointMap := [], 0, [], map[];
      added, expired, removed := [], [], [];
    }

    function Contents(): Store
      reads this
    {
      Store(pendingEventList, devMountpointMap, added, expired, removed)
    }

    /** onReceiveUevent: a message that is too short is dropped, any other becomes a task. */
    method OnReceiveUevent(data: string, now: int)
      modifies this`taskQueue, this`created
      ensures |data| < 32 ==> taskQueue == old(taskQueue) && created == old(created)
      ensures |data| >= 32 ==>
                && taskQueue == old(taskQueue) + [Process(Event(old(created), ParsedFields(data), now))]
                && created == old(created) + 1
    {
      if |data| < MIN_MESSAGE {
        return;
      }
      var fields := ParserRawData(data);
      taskQueue := taskQueue + [Process(Event(created, fields, now))];
      created := created + 1;
    }

    method CheckPendingEvent()
      modifies this`taskQueue
      ensures taskQueue == old(taskQueue) + [Check]
    {
      taskQueue := taskQueue + [Check];
    }

    method UpdateMountpoint(partitions: seq<Partition>)
      modifies this`devMountpointMap
      ensures devMountpointMap == MountMap(partitions)
    {
      var mounts: Mounts := map[];
      for i := 0 to |partitions|
        invariant mounts == MountMap(partitions[..i])
      {
        assert partitions[..i + 1][..i] == partitions[..i];
        mounts := mounts[partitions[i].device := partitions[i].mountpoint];
      }
      assert partitions[..|partitions|] == partitions;
      devMountpointMap := mounts;
    }

    method OnPartitionAdd(event: Event, partitions: seq<Partition>)
      requires HasName(event)
      modifies this`devMountpointMap, this`pendingEventList, this`added
      ensures Contents() == AddEvent(old(Contents()), event, partitions)
    {
      UpdateMountpoint(partitions);
      var devname := event.fields["DEVNAME"];
      if devname !in devMountpointMap {
        pendingEventList := pendingEventList + [event];
        return;
      }
      added := added + [Report(event, devMountpointMap[devname])];
    }

    method OnPartitionRemove(event: Event)
      requires HasName(event)
      modifies this`removed
      ensures Contents() == RemoveEvent(old(Contents()), event)
    {
      var devname := event.fields["DEVNAME"];
      if devname !in devMountpointMap {
        return;
      }
      removed := removed + [Report(event, devMountpointMap[devname])];
    }

    method DoProcessEvent(event: Event, partitions: seq<Partition>)
      modifies this`devMountpointMap, this`pendingEventList, this`added, this`removed
      ensures Contents() == ProcessOne(old(Contents()), event, partitions)
    {
      var f := event.fields;
      if "DEVTYPE" !in f || f["DEVTYPE"] != "partition" {
        return;
      }
      if "ACTION" !in f {
        return;
      }
      if "DEVNAME" !in f {
        return;
      }
      if !("/dev" <= f["DEVNAME"]) {
        return;
      }
      if f["ACTION"] == "add" {
        OnPartitionAdd(event, partitions);
      } else if f["ACTION"] == "remove" {
        OnPartitionRemove(event);
      }
    }

    method DoCheckPendingEvent(now: int, mounted: seq<seq<Partition>>)
      requires |mounted| >= |pendingEventList| && AllNamed(pendingEventList)
      modifies this`devMountpointMap, this`pendingEventList, this`added, this`expired
      ensures Contents() == CheckPending(old(Contents()), now, mounted)
    {
      var events := pendingEventList;
      pendingEventList := [];
      ghost var emptied := Contents();
      for i := 0 to |events|
        invariant Contents() == VisitAll(emptied, events[..i], now, mounted)
      {
        assert events[..i + 1][..i] == events[..i];
        if now - events[i].receiveTime > EXPIRY {
          expired := expired + [events[i]];
        } else {
          OnPartitionAdd(events[i], mounted[i]);
        }
      }
      assert events[..|events|] == events;
    }
  }
}
