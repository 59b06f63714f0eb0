/**
 Runs in which the registry serves, with no signal still to come, a record that is not
 micad's last one.
 */
module TaskAnomalies {
  import opened Base
  import opened Runs
  import opened Signals
  import opened TaskRegistry
  import opened TaskProtocol

  const QUEUED := Task(1, 0, "queued", "")
  const RUNNING := Task(1, 0, "running", "")
  const FINISHED := Task(1, 0, "finished", "applied")

  /** A world some run leads to, with its run. */
  datatype Point = Point(events: seq<Event>, world: World) {
    ghost predicate Reached() { Run(INITIAL, events) && Final(INITIAL, events) == world }
  }

  lemma Then(p: Point, e: Event) returns (q: Point)
    requires p.Reached() && Enabled(p.world, e)
    ensures q.Reached() && q.world == Next(p.world, e)
  {
    OneMore(PROTOCOL, INITIAL, p.events, e);
    q := Point(p.events + [e], Next(p.world, e));
  }

  /** A micad after some steps, and the copies its publishers still hold. */
  function Busy(last: Task, made: nat, clock: nat, changes: set<Task>, publishers: map<nat, Publisher>,
                stored: Listing, signalled: map<nat, Task>): Micad {
    Micad(map[1 := last], map[1 := made], clock, {1}, changes, publishers, stored, signalled, {})
  }

  lemma OneSnapshot(m: Micad, t: Task)
    requires m.retained == {1} && 1 in m.last && m.last[1] == t && t.id == 1
    ensures IsSnapshot(m, [t])
  {
    assert Ids([t]) == [1];
  }

  /** A task is made and started before its maker has published it: two copies are held. */
  lemma TwoCopiesHeld(p: Point) returns (q: Point)
    requires p.Reached() && p.world.micad == NOTHING
    ensures q.Reached()
    ensures q.world == p.world.(micad := Busy(RUNNING, 1, 2, {QUEUED, RUNNING},
                map[0 := Publisher(QUEUED, 0, None, false), 1 := Publisher(RUNNING, 1, None, false)], Listing([], 0), map[]))
  {
    q := Then(p, Within(Change(0, QUEUED)));
    q := Then(q, Within(Change(1, RUNNING)));
    assert {} + {QUEUED} + {RUNNING} == {QUEUED, RUNNING};
    assert {} + {1} + {1} == {1};
  }

  lemma Subscribes(p: Point) returns (q: Point)
    requires p.Reached() && p.world.stream == Closed && !p.world.mirror.synchronised
    ensures q.Reached() && q.world == p.world.(stream := Live([]), unheard := {}, mirror := p.world.mirror.Subscribed())
  {
    q := Then(p, Open);
    q := Then(q, Subscribe);
  }

  /** A publisher that takes its snapshot, stores it and signals its copy in one go. */
  lemma Publishes(p: Point, pid: nat) returns (q: Point)
    requires p.Reached() && pid in p.world.micad.publishers
    requires p.world.micad.publishers[pid].list == None && !p.world.micad.publishers[pid].stored
    requires p.world.micad.retained == {1} && 1 in p.world.micad.last && p.world.micad.last[1].id == 1
    ensures q.Reached()
    ensures var m, t := p.world.micad, p.world.micad.publishers[pid].copy;
            q.world == p.world.(
                         micad := m.(clock := m.clock + 1, stored := Listing([m.last[1]], m.clock),
                                     signalled := m.signalled[t.id := t], publishers := m.publishers - {pid},
                                     lost := m.lost - {t.id}),
                         unheard := p.world.unheard - {t.id},
                         stream := p.world.stream.Sent(t))
  {
    OneSnapshot(p.world.micad, p.world.micad.last[1]);
    q := Then(p, Within(Snap(pid, [p.world.micad.last[1]])));
    q := Then(q, Within(Store(pid)));
    q := Then(q, Within(Signal(pid)));
    var m := p.world.micad;
    assert q.world.micad.publishers == m.publishers - {pid};
  }

  /** A mirror of at most task 1 that takes a record of it. */
  lemma TakesOne(m: Mirror, t: Task)
    requires m.Matched() && m.tasks.Keys <= {1} && t.id == 1
    ensures m.Inserted(t).tasks == map[1 := t] && m.Inserted(t).Matched()
    ensures m.Inserted(t) == m.(tasks := map[1 := t], order := m.Inserted(t).order)
  {
    InsertKeepsMatched(m, t);
    assert m.Inserted(t).tasks.Keys == {1};
  }

  lemma DeliversOne(w: World)
    requires w.stream.Live? && w.stream.queue != [] && w.mirror.synchronised
    requires w.mirror.Matched() && w.mirror.tasks.Keys <= {1} && w.stream.queue[0].id == 1
    ensures var x := Next(w, Deliver);
            && x.micad == w.micad && x.unheard == w.unheard && x.stream == Live(w.stream.queue[1..]) && x.requests == w.requests
            && x.mirror.synchronised && x.mirror.Matched()
            && x.mirror.tasks == map[1 := w.stream.queue[0]] && x.mirror.stale == w.mirror.stale - {1}
  {
    TakesOne(w.mirror.(generation := w.mirror.generation + 1, stale := w.mirror.stale - {1}), w.stream.queue[0]);
  }

  /** A request from its start to micad's answer. */
  lemma Asks(p: Point, id: Option<nat>) returns (q: Point)
    requires p.Reached() && p.world.requests == map[]
    ensures q.Reached() && Enabled(q.world, Fill(7))
    ensures var m := p.world.mirror;
            var stale := if id.Some? && id.value in m.stale then Some(m.stale[id.value]) else None;
            var r := Read(id, stale, Some(m.generation), None);
            q.world == p.world.(requests := map[7 := r.(reply := Some(ReplyTo(p.world.micad, r)))])
  {
    q := Then(p, Begin(7, id));
    q := Then(q, Sample(7));
    q := Then(q, Answer(7));
  }

  lemma SignalsInReverse() returns (p: Point)
    ensures p.Reached() && p.world.stream == Live([RUNNING, QUEUED])
    ensures p.world.mirror == INITIAL.mirror.Subscribed()
    ensures p.world.micad.publishers == map[] && p.world.unheard == {} && p.world.micad.last == map[1 := RUNNING]
  {
    p := Point([], INITIAL);
    p := Subscribes(p);
    p := TwoCopiesHeld(p);
    p := Publishes(p, 1);
    p := Publishes(p, 0);
    assert p.world.stream.queue == [RUNNING, QUEUED];
    assert p.world.micad.publishers == map[];
  }

  /** The newer of the two copies arrives. */
  lemma HearsTheNewer() returns (p: Point)
    ensures p.Reached() && p.world.stream == Live([QUEUED]) && p.world.mirror.synchronised && p.world.mirror.Matched()
    ensures p.world.mirror.tasks == map[1 := RUNNING]
    ensures p.world.micad.publishers == map[] && p.world.unheard == {} && p.world.micad.last == map[1 := RUNNING]
  {
    p := SignalsInReverse();
    DeliversOne(p.world);
    p := Then(p, Deliver);
    assert [RUNNING, QUEUED][1..] == [QUEUED];
  }

  /** The worker's copy is signalled before the older one of whoever made the task: the
      registry ends with the older. */
  lemma LateCopyIsServed() returns (p: Point)
    ensures p.Reached() && !p.world.OnTheWay(1)
    ensures p.world.mirror.Got(1) == Some(QUEUED) && p.world.micad.last == map[1 := RUNNING]
  {
    p := HearsTheNewer();
    DeliversOne(p.world);
    p := Then(p, Deliver);
    assert p.world.stream.Queue() == [];
  }

  lemma StoresOlderList() returns (p: Point)
    ensures p.Reached() && p.world == INITIAL.(micad := p.world.micad)
    ensures p.world.micad.publishers == map[] && p.world.unheard == {}
    ensures p.world.micad.last == map[1 := RUNNING] && p.world.micad.stored.tasks == [QUEUED]
  {
    p := Point([], INITIAL);
    p := Then(p, Within(Change(0, QUEUED)));
    assert {} + {1} == {1};
    OneSnapshot(p.world.micad, QUEUED);
    p := Then(p, Within(Snap(0, [QUEUED])));
    p := Then(p, Within(Change(1, RUNNING)));
    assert {1} + {1} == {1};
    p := Publishes(p, 1);
    p := Then(p, Within(Store(0)));
    p := Then(p, Within(Signal(0)));
    assert p.world.micad.publishers == map[];
  }

  /** A list taken before a change is stored after the list taken after it: the registry
      is filled from the older. */
  lemma OlderListIsServed() returns (p: Point)
    ensures p.Reached() && !p.world.OnTheWay(1)
    ensures p.world.mirror.Got(1) == Some(QUEUED) && p.world.micad.last == map[1 := RUNNING]
  {
    p := StoresOlderList();
    p := Subscribes(p);
    p := Asks(p, None);
    OneListed(p.world.mirror, p.world.mirror.generation);
    p := Then(p, Fill(7));
  }

  lemma OneListed(m: Mirror, sampled: nat)
    requires m.synchronised && m.generation == sampled
    ensures m.FilledList(sampled, [QUEUED]).tasks == map[1 := QUEUED]
  {
    assert [QUEUED][..0] == [];
    assert ById([QUEUED]) == ById([])[1 := QUEUED];
  }

  lemma OneIsKept(m: Mirror)
    requires m.stale == map[] && m.tasks == map[1 := RUNNING]
    ensures m.Lapsed().stale == map[1 := RUNNING]
  {
    assert m.stale + m.tasks == map[1 := RUNNING];
    assert |map[1 := RUNNING]| == |map[1 := RUNNING].Keys| && map[1 := RUNNING].Keys == {1};
  }

  lemma SignalsItRunning() returns (p: Point)
    ensures p.Reached() && p.world.stream == Live([RUNNING]) && p.world.requests == map[]
    ensures p.world.mirror == INITIAL.mirror.Subscribed()
    ensures p.world.micad.publishers == map[] && p.world.unheard == {}
    ensures p.world.micad.retained == {1} && p.world.micad.last == map[1 := RUNNING]
  {
    p := Point([], INITIAL);
    p := Subscribes(p);
    p := Starts(p);
    p := Publishes(p, 0);
    assert p.world.stream.queue == [RUNNING];
    assert p.world.micad.publishers == map[];
  }

  lemma Starts(p: Point) returns (q: Point)
    requires p.Reached() && p.world.micad == NOTHING
    ensures q.Reached()
    ensures q.world == p.world.(micad :=
                Busy(RUNNING, 0, 1, {RUNNING}, map[0 := Publisher(RUNNING, 0, None, false)], Listing([], 0), map[]))
  {
    q := Then(p, Within(Change(0, RUNNING)));
    assert {} + {RUNNING} == {RUNNING};
    assert {} + {1} == {1};
  }

  lemma SeesItRunning() returns (p: Point)
    ensures p.Reached() && p.world.stream == Closed && !p.world.mirror.synchronised && p.world.requests == map[]
    ensures p.world.mirror.stale == map[1 := RUNNING]
    ensures p.world.micad.publishers == map[] && p.world.unheard == {}
    ensures p.world.micad.retained == {1} && p.world.micad.last == map[1 := RUNNING]
  {
    p := SignalsItRunning();
    DeliversOne(p.world);
    p := Then(p, Deliver);
    OneIsKept(p.world.mirror);
    p := Then(p, Lapse);
  }

  /** The registry last saw task 1 running; by the time it asks again the task has finished
      as applied and left the history: it is served as interrupted. */
  lemma AppliedIsServedInterrupted() returns (p: Point)
    ensures p.Reached() && !p.world.OnTheWay(1)
    ensures p.world.mirror.Got(1) == Some(Interrupted(RUNNING)) && p.world.micad.last == map[1 := FINISHED]
    ensures Interrupted(RUNNING) != FINISHED
  {
    p := SeesItRunning();
    p := FinishesUnseen(p);
    p := Subscribes(p);
    p := Asks(p, Some(1));
    TakesOne(p.world.mirror.(stale := p.world.mirror.stale - {1}), Interrupted(RUNNING));
    p := Then(p, Fill(7));
  }

  lemma FinishesUnseen(p: Point) returns (q: Point)
    requires p.Reached() && p.world.stream == Closed && p.world.micad.publishers == map[] && p.world.unheard == {}
    requires p.world.micad.retained == {1} && p.world.micad.last == map[1 := RUNNING]
    ensures q.Reached() && q.world == p.world.(micad := q.world.micad)
    ensures q.world.micad.retained == {} && q.world.micad.last == map[1 := FINISHED]
    ensures q.world.micad.publishers == map[] && q.world.unheard == {}
  {
    q := Then(p, Within(Change(0, FINISHED)));
    assert {1} + {1} == {1};
    q := Publishes(q, 0);
    q := Then(q, Within(Retire(1)));
    assert {1} - {1} == {};
  }

  /**
   Exactly when a change of a task is heard of, from every world that serves its last record
   with no signal of it queued: the old record is served until then, and a signal of the
   change is queued if and only if it is sent rather than lost.
   */
  lemma ChangeIsHeardExactly(w: World, pid: nat, t: Task, ts: seq<Task>, sent: bool)
    requires Invariant(w) && CanStep(w.micad, Change(pid, t)) && t.id in w.micad.last && t != w.micad.last[t.id]
    requires w.mirror.Got(t.id) == Some(w.micad.last[t.id]) && !w.Queued(t.id)
    requires IsSnapshot(Stepped(w.micad, Change(pid, t)), ts)
    ensures var events := [Within(Change(pid, t)), Within(Snap(pid, ts)), Within(Store(pid)),
                           Within(if sent then Signal(pid) else Lose(pid))];
            && Run(w, events)
            && var x := Final(w, events);
               && x.micad.last == w.micad.last[t.id := t] && x.mirror.Got(t.id) == w.mirror.Got(t.id) != Some(t)
               && (x.Queued(t.id) <==> sent)
  {
    var first: seq<Event> := [Within(Change(pid, t)), Within(Snap(pid, ts)), Within(Store(pid))];
    var leave := Within(if sent then Signal(pid) else Lose(pid));
    PublishesUpTo(w, pid, t, ts);
    var y := Final(w, first);
    OneMore(PROTOCOL, w, first, leave);
    assert first + [leave] ==
           [Within(Change(pid, t)), Within(Snap(pid, ts)), Within(Store(pid)), Within(if sent then Signal(pid) else Lose(pid))];
    LeavesQueued(w, y, pid, t, sent);
  }

  lemma LeavesQueued(w: World, y: World, pid: nat, t: Task, sent: bool)
    requires !w.Queued(t.id) && y.stream == w.stream && !w.stream.Closed?
    requires pid in y.micad.publishers && y.micad.publishers[pid].copy == t && y.micad.publishers[pid].stored
    ensures Next(y, Within(if sent then Signal(pid) else Lose(pid))).Queued(t.id) <==> sent
  {
    var x := Next(y, Within(if sent then Signal(pid) else Lose(pid)));
    if sent {
      assert x.stream.Queue() == w.stream.Queue() + [t];
      assert x.stream.Queue()[|w.stream.Queue()|].id == t.id;
    } else {
      assert x.stream.Queue() == w.stream.Queue();
    }
  }

  lemma PublishesUpTo(w: World, pid: nat, t: Task, ts: seq<Task>)
    requires CanStep(w.micad, Change(pid, t)) && IsSnapshot(Stepped(w.micad, Change(pid, t)), ts)
    ensures var events := [Within(Change(pid, t)), Within(Snap(pid, ts)), Within(Store(pid))];
            && Run(w, events)
            && var y := Final(w, events);
               && y.stream == w.stream && y.mirror == w.mirror && y.micad.last == w.micad.last[t.id := t]
               && pid in y.micad.publishers && y.micad.publishers[pid].copy == t && y.micad.publishers[pid].stored
  {
    var a := Next(w, Within(Change(pid, t)));
    var b := Next(a, Within(Snap(pid, ts)));
    assert IsRun(PROTOCOL, Next(b, Within(Store(pid))), []);
    OneFirst(PROTOCOL, b, Within(Store(pid)), []);
    OneFirst(PROTOCOL, a, Within(Snap(pid, ts)), [Within(Store(pid))] + []);
    OneFirst(PROTOCOL, w, Within(Change(pid, t)), [Within(Snap(pid, ts))] + ([Within(Store(pid))] + []));
    assert [Within(Change(pid, t))] + ([Within(Snap(pid, ts))] + ([Within(Store(pid))] + [])) ==
           [Within(Change(pid, t)), Within(Snap(pid, ts)), Within(Store(pid))];
  }
}
