/**
 How apid's task registry follows micad. A change of a record, the snapshot its
 publisher stores afterwards and the signal it sends last are separate steps, and
 publishers overlap; direct reads overtake signals; subscriptions come and go.
 */
module TaskProtocol {
  import opened Base
  import opened Runs
  import opened Signals
  import opened TaskRegistry

  // ----- micad

  /** A snapshot of the records, and when it was taken. */
  datatype Listing = Listing(tasks: seq<Task>, taken: nat)

  /** Whoever changed a record holds a copy of it until its signal is out; in
      between it takes a snapshot and stores it as the task list. */
  datatype Publisher = Publisher(copy: Task, made: nat, list: Option<Listing>, stored: bool)

  /** The last record of each id and when it was made, the ids still in the history,
      every record there ever was, the publishers at work, the stored task list, the
      last copy signalled of each id, and the ids whose last copy to leave was lost. */
  datatype Micad = Micad(
    last: map<nat, Task>,
    made: map<nat, nat>,
    clock: nat,
    retained: set<nat>,
    changes: set<Task>,
    publishers: map<nat, Publisher>,
    stored: Listing,
    signalled: map<nat, Task>,
    lost: set<nat>)
  {
    ghost predicate Held(id: nat) {
      exists pid :: pid in publishers && publishers[pid].copy.id == id
    }
  }

  datatype Step =
    | Change(pid: nat, task: Task)        // a record is made or changed
    | Retire(gone: nat)                   // a finished record leaves the history
    | Snap(pid: nat, tasks: seq<Task>)    // a publisher takes a snapshot
    | Store(pid: nat)                     // and makes it the task list
    | Signal(pid: nat)                    // its copy is signalled
    | Lose(pid: nat)                      // or the signal fails
    | Restart                             // micad starts anew and has forgotten them all

  /** The records of the history, each once. */
  predicate IsSnapshot(m: Micad, ts: seq<Task>) {
    && Unique(Ids(ts))
    && (forall i :: 0 <= i < |ts| ==> ts[i].id in m.retained && ts[i].id in m.last && ts[i] == m.last[ts[i].id])
    && (forall id :: id in m.retained ==> id in Ids(ts))
  }

  predicate CanStep(m: Micad, s: Step) {
    match s
    case Change(pid, t) => pid !in m.publishers && (t.id in m.retained || t.id !in m.last)
    case Retire(id) => id in m.retained && id in m.last && m.last[id].status == "finished"
    case Snap(pid, ts) => pid in m.publishers && m.publishers[pid].list.None? && IsSnapshot(m, ts)
    case Store(pid) => pid in m.publishers && m.publishers[pid].list.Some? && !m.publishers[pid].stored
    case Signal(pid) => pid in m.publishers && m.publishers[pid].stored
    case Lose(pid) => pid in m.publishers && m.publishers[pid].stored
    case Restart => true
  }

  function Stepped(m: Micad, s: Step): Micad
    requires CanStep(m, s)
  {
    match s
    case Change(pid, t) =>
      m.(last := m.last[t.id := t], made := m.made[t.id := m.clock], clock := m.clock + 1,
         retained := m.retained + {t.id}, changes := m.changes + {t},
         publishers := m.publishers[pid := Publisher(t, m.clock, None, false)])
    case Retire(id) => m.(retained := m.retained - {id})
    case Snap(pid, ts) =>
      m.(clock := m.clock + 1,
         publishers := m.publishers[pid := m.publishers[pid].(list := Some(Listing(ts, m.clock)))])
    case Store(pid) =>
      m.(stored := m.publishers[pid].list.value,
         publishers := m.publishers[pid := m.publishers[pid].(stored := true)])
    case Signal(pid) =>
      var t := m.publishers[pid].copy;
      m.(signalled := m.signalled[t.id := t], publishers := m.publishers - {pid}, lost := LostAfter(m, m.lost, s))
    case Lose(pid) => m.(publishers := m.publishers - {pid}, lost := LostAfter(m, m.lost, s))
    case Restart =>
      m.(retained := {}, stored := Listing([], m.clock), publishers := map[], lost := LostAfter(m, m.lost, s))
  }

  /** The ids of which nothing was signalled since a copy was lost. */
  function LostAfter(m: Micad, lost: set<nat>, s: Step): set<nat>
    requires CanStep(m, s)
  {
    match s
    case Signal(pid) => lost - {m.publishers[pid].copy.id}
    case Lose(pid) => lost + {m.publishers[pid].copy.id}
    case Restart => lost + set pid | pid in m.publishers :: m.publishers[pid].copy.id
    case _ => lost
  }

  // ----- apid

  /** micad's reply to a read; with the task list, the records it then held. */
  datatype Reply = Found(task: Task) | Missing | Tasks(tasks: seq<Task>, held: map<nat, Task>)

  /** A direct read: of one id, with the stale record of it looked up first, or of
      all; the generation sampled next; and the reply. */
  datatype Read = Read(id: Option<nat>, stale: Option<Task>, sampled: Option<nat>, reply: Option<Reply>)

  /** Where a mirrored record came from, and for a read whether it was then the last. */
  datatype How = Asked | Listed | Presumed
  datatype Source = Signalled | Filled(how: How, current: bool)

  /** `unheard` are the ids lost, in micad's sense, since the stream was opened. */
  datatype World = World(
    micad: Micad,
    unheard: set<nat>,
    stream: Stream<Task>,
    mirror: Mirror,
    sources: map<nat, Source>,
    requests: map<nat, Read>)
  {
    predicate Queued(id: nat) {
      exists i :: 0 <= i < |stream.Queue()| && stream.Queue()[i].id == id
    }

    /** A signal of the id is still to be delivered, or the last one due on this stream
        never will be. */
    ghost predicate OnTheWay(id: nat) {
      Queued(id) || micad.Held(id) || id in unheard
    }
  }

  datatype Event =
    | Within(step: Step)
    | Open                             // a stream is established
    | Subscribe                        // and the registry is told
    | Deliver                          // the oldest signal arrives
    | Break                            // the stream dies
    | Lapse                            // and the registry is told
    | Begin(rid: nat, id: Option<nat>) // a request looks up the stale record
    | Sample(rid: nat)                 // and samples the generation
    | Answer(rid: nat)                 // micad replies
    | Abandon(rid: nat)                // the read fails
    | Fill(rid: nat)                   // the reply reaches the registry

  predicate Enabled(w: World, e: Event) {
    match e
    case Within(s) => CanStep(w.micad, s)
    case Open => w.stream.Closed?
    case Subscribe => !w.stream.Closed? && !w.mirror.synchronised
    case Deliver => w.stream.Live? && w.stream.queue != [] && w.mirror.synchronised
    case Break => w.stream.Live?
    case Lapse => true
    case Begin(rid, _) => rid !in w.requests
    case Sample(rid) => rid in w.requests && w.requests[rid].sampled.None?
    case Answer(rid) => rid in w.requests && w.requests[rid].sampled.Some? && w.requests[rid].reply.None?
    case Abandon(rid) => rid in w.requests
    case Fill(rid) => rid in w.requests && w.requests[rid].sampled.Some? && w.requests[rid].reply.Some?
  }

  function ReplyTo(m: Micad, r: Read): Reply {
    if r.id.None? then Tasks(m.stored.tasks, m.last)
    else if r.id.value in m.retained && r.id.value in m.last then Found(m.last[r.id.value])
    else Missing
  }

  /** The mirror after a read: an id micad does not know is filled from its stale
      record, as interrupted, if there is one. */
  function FilledBy(m: Mirror, r: Read): Mirror
    requires r.sampled.Some? && r.reply.Some?
  {
    match r.reply.value
    case Found(t) => m.Filled(r.sampled.value, t)
    case Missing => if r.stale.Some? then m.Filled(r.sampled.value, Interrupted(r.stale.value)) else m
    case Tasks(ts, _) => m.FilledList(r.sampled.value, ts)
  }

  function ListSources(ts: seq<Task>, held: map<nat, Task>): map<nat, Source> {
    var byId := ById(ts);
    map id | id in byId :: Filled(Listed, id in held && byId[id] == held[id])
  }

  function SourcesBy(w: World, r: Read): map<nat, Source>
    requires r.reply.Some?
  {
    match r.reply.value
    case Found(t) => w.sources[t.id := Filled(Asked, true)]
    case Missing =>
      if r.stale.None? then w.sources
      else
        var t := Interrupted(r.stale.value);
        w.sources[t.id := Filled(Presumed, t.id in w.micad.last && t == w.micad.last[t.id])]
    case Tasks(ts, held) => w.sources + ListSources(Newest(ts), held)
  }

  function Next(w: World, e: Event): World
    requires Enabled(w, e)
  {
    match e
    case Within(s) =>
      w.(micad := Stepped(w.micad, s), unheard := LostAfter(w.micad, w.unheard, s),
         stream := if s.Signal? then w.stream.Sent(w.micad.publishers[s.pid].copy) else w.stream)
    case Open => w.(stream := Live([]), unheard := {})
    case Subscribe => w.(mirror := w.mirror.Subscribed())
    case Deliver =>
      var t := w.stream.queue[0];
      w.(stream := Live(w.stream.queue[1..]), mirror := w.mirror.Updated(t), sources := w.sources[t.id := Signalled])
    case Break => w.(stream := Broken(w.stream.queue))
    case Lapse => w.(stream := Closed, mirror := w.mirror.Lapsed())
    case Begin(rid, id) =>
      var stale := if id.Some? && id.value in w.mirror.stale then Some(w.mirror.stale[id.value]) else None;
      w.(requests := w.requests[rid := Read(id, stale, None, None)])
    case Sample(rid) => w.(requests := w.requests[rid := w.requests[rid].(sampled := Some(w.mirror.generation))])
    case Answer(rid) => w.(requests := w.requests[rid := w.requests[rid].(reply := Some(ReplyTo(w.micad, w.requests[rid])))])
    case Abandon(rid) => w.(requests := w.requests - {rid})
    case Fill(rid) =>
      var r := w.requests[rid];
      var taken := w.mirror.synchronised && w.mirror.generation == r.sampled.value;
      w.(requests := w.requests - {rid}, mirror := FilledBy(w.mirror, r), sources := if taken then SourcesBy(w, r) else w.sources)
  }

  const NOTHING := Micad(map[], map[], 0, {}, {}, map[], Listing([], 0), map[], {})
  const INITIAL := World(NOTHING, {}, Closed, Mirror(false, false, 0, map[], [], map[]), map[], map[])

  function Moved(w: World, e: Event): World { if Enabled(w, e) then Next(w, e) else w }

  const PROTOCOL := Machine(Enabled, Moved)

  predicate Run(w: World, events: seq<Event>) { IsRun(PROTOCOL, w, events) }

  function Final(w: World, events: seq<Event>): World { End(PROTOCOL, w, events) }

  // ----- what holds of micad alone

  /** A record made up for an id micad has dropped: one it had, if that was finished, or else
      finished as interrupted. */
  ghost predicate Presumption(m: Micad, t: Task) {
    && t.id in m.last && t.id !in m.retained
    && exists s :: s in m.changes && s.id == t.id
         && t == if s.status == "finished" then s else Task(s.id, s.enqueuedAt, "finished", "interrupted")
  }

  ghost predicate Genuine(m: Micad, t: Task) {
    t.id in m.last && (t in m.changes || Presumption(m, t))
  }

  predicate ListSound(m: Micad, ts: seq<Task>) {
    Unique(Ids(ts)) && forall i :: 0 <= i < |ts| ==> ts[i] in m.changes
  }

  predicate PublisherSound(m: Micad, p: Publisher) {
    && p.copy in m.changes
    && (p.stored ==> p.list.Some?)
    && (p.list.Some? ==> ListSound(m, p.list.value.tasks))
  }

  ghost predicate MicadSound(m: Micad) {
    && (forall id :: id in m.last ==> m.last[id].id == id && m.last[id] in m.changes)
    && (forall t :: t in m.changes ==> t.id in m.last)
    && m.retained <= m.last.Keys
    && (forall pid :: pid in m.publishers ==> PublisherSound(m, m.publishers[pid]))
    && ListSound(m, m.stored.tasks)
    && (forall id :: id in m.signalled ==> m.signalled[id].id == id && m.signalled[id] in m.changes)
  }

  lemma SnapshotIsSound(m: Micad, ts: seq<Task>)
    requires MicadSound(m) && IsSnapshot(m, ts)
    ensures ListSound(m, ts)
  {
    forall i | 0 <= i < |ts| ensures ts[i] in m.changes { assert ts[i] == m.last[ts[i].id]; }
  }

  lemma StepKeepsMicadSound(m: Micad, s: Step)
    requires MicadSound(m) && CanStep(m, s)
    ensures MicadSound(Stepped(m, s))
  {
    var n := Stepped(m, s);
    if s.Snap? { SnapshotIsSound(m, s.tasks); }
    if s.Store? || s.Signal? { assert PublisherSound(m, m.publishers[s.pid]); }
    forall pid | pid in n.publishers ensures PublisherSound(n, n.publishers[pid]) {
      if pid in m.publishers { assert PublisherSound(m, m.publishers[pid]); }
    }
  }

  lemma StepKeepsGenuine(m: Micad, s: Step, t: Task)
    requires MicadSound(m) && CanStep(m, s)
    ensures Presumption(m, t) ==> Presumption(Stepped(m, s), t)
    ensures Genuine(m, t) ==> Genuine(Stepped(m, s), t)
  {
    if Presumption(m, t) {
      var x :| x in m.changes && x.id == t.id && t == Interrupted(x);
      assert x in Stepped(m, s).changes;
    }
  }

  /** An id whose record is gone reads, from any genuine record of it, as presumed. */
  lemma InterruptedIsPresumption(m: Micad, t: Task)
    requires Genuine(m, t) && t.id !in m.retained
    ensures Presumption(m, Interrupted(t)) && Genuine(m, Interrupted(t))
  {
    if t !in m.changes {
      var x :| x in m.changes && x.id == t.id && t == Interrupted(x);
      assert Interrupted(t) == Interrupted(x);
    }
  }

  // ----- signals

  predicate IsLast(signals: seq<Task>, i: nat)
    requires i < |signals|
  {
    forall j :: i < j < |signals| ==> signals[j].id != signals[i].id
  }

  /** The last queued signal of an id is the last copy signalled of it. */
  ghost predicate SignalsEnd(signalled: map<nat, Task>, signals: seq<Task>) {
    forall i :: 0 <= i < |signals| ==>
      signals[i].id in signalled && (IsLast(signals, i) ==> signals[i] == signalled[signals[i].id])
  }

  lemma AppendSignal(signalled: map<nat, Task>, u: seq<Task>, t: Task)
    requires SignalsEnd(signalled, u)
    ensures SignalsEnd(signalled[t.id := t], u + [t])
  {
    var v, p := u + [t], signalled[t.id := t];
    assert forall i :: 0 <= i < |u| ==> v[i] == u[i];
    assert v[|u|] == t;
    forall i | 0 <= i < |v| ensures v[i].id in p && (IsLast(v, i) ==> v[i] == p[v[i].id]) {
      if i < |u| && IsLast(v, i) { assert IsLast(u, i); }
    }
  }

  lemma LastOfTail(u: seq<Task>, i: nat)
    requires u != [] && i < |u| - 1 && IsLast(u[1..], i)
    ensures IsLast(u, i + 1)
  {
    forall j | i + 1 < j < |u| ensures u[j].id != u[i + 1].id { assert u[j] == u[1..][j - 1]; }
  }

  lemma DropHead(signalled: map<nat, Task>, u: seq<Task>)
    requires SignalsEnd(signalled, u) && u != []
    ensures SignalsEnd(signalled, u[1..])
  {
    var v := u[1..];
    forall i | 0 <= i < |v| ensures v[i].id in signalled && (IsLast(v, i) ==> v[i] == signalled[v[i].id]) {
      assert v[i] == u[i + 1];
      if IsLast(v, i) { LastOfTail(u, i); }
    }
  }

  lemma HeadIsLast(signalled: map<nat, Task>, u: seq<Task>)
    requires SignalsEnd(signalled, u) && u != []
    ensures u[0].id in signalled
    ensures u[0] == signalled[u[0].id] || exists i :: 0 <= i < |u[1..]| && u[1..][i].id == u[0].id
  {
    if forall i :: 0 <= i < |u[1..]| ==> u[1..][i].id != u[0].id {
      forall j | 0 < j < |u| ensures u[j].id != u[0].id { assert u[j] == u[1..][j - 1]; }
      assert IsLast(u, 0);
    }
  }

  // ----- what a record served comes to

  /** Until the signals of its id have arrived a record may be anything; then one that
      was signalled is the last copy signalled, and one that was read is the last
      record exactly if it was when it was read. */
  ghost predicate Settling(w: World, t: Task, s: Source) {
    match s
    case Signalled => w.Queued(t.id) || (t.id in w.micad.signalled && t == w.micad.signalled[t.id])
    case Filled(how, current) =>
      && (how == Asked ==> current)
      && (if how == Presumed then Presumption(w.micad, t) else t in w.micad.changes)
      && (w.OnTheWay(t.id) || (t.id in w.micad.last && (t == w.micad.last[t.id] <==> current)))
  }

  ghost predicate AllGenuine(m: Micad, ts: map<nat, Task>) {
    forall id :: id in ts ==> ts[id].id == id && Genuine(m, ts[id])
  }

  ghost predicate MirrorSound(w: World) {
    && w.mirror.Matched()
    && AllGenuine(w.micad, w.mirror.stale) && AllGenuine(w.micad, w.mirror.tasks)
    && (w.mirror.synchronised ==> !w.stream.Closed? && AllSettling(w, w.mirror.tasks, w.sources))
  }

  ghost predicate AllSettling(w: World, ts: map<nat, Task>, sources: map<nat, Source>) {
    forall id :: id in ts ==> id in sources && Settling(w, ts[id], sources[id])
  }

  function ListedAs(t: Task, held: map<nat, Task>): Source {
    Filled(Listed, t.id in held && t == held[t.id])
  }

  ghost predicate ReplySettling(w: World, reply: Reply) {
    match reply
    case Found(t) => Settling(w, t, Filled(Asked, true))
    case Missing => true
    case Tasks(ts, held) => forall i :: 0 <= i < |ts| ==> Settling(w, ts[i], ListedAs(ts[i], held))
  }

  ghost predicate ReplySound(m: Micad, r: Read, reply: Reply) {
    match reply
    case Found(t) => t in m.changes
    case Missing => r.stale.Some? ==> r.stale.value.id !in m.retained
    case Tasks(ts, _) => ListSound(m, ts)
  }

  ghost predicate ReadSound(w: World, r: Read) {
    && (r.stale.Some? ==> r.id == Some(r.stale.value.id) && Genuine(w.micad, r.stale.value))
    && (r.sampled.Some? ==> r.sampled.value <= w.mirror.generation)
    && (r.reply.Some? ==>
          && r.sampled.Some? && ReplySound(w.micad, r, r.reply.value)
          && (w.mirror.synchronised && r.sampled.value == w.mirror.generation ==> ReplySettling(w, r.reply.value)))
  }

  ghost predicate ReadsSound(w: World) {
    forall rid :: rid in w.requests ==> ReadSound(w, w.requests[rid])
  }

  ghost predicate QueueSound(w: World) {
    && SignalsEnd(w.micad.signalled, w.stream.Queue())
    && forall i :: 0 <= i < |w.stream.Queue()| ==> w.stream.Queue()[i] in w.micad.changes
  }

  ghost predicate Invariant(w: World) {
    MicadSound(w.micad) && QueueSound(w) && MirrorSound(w) && ReadsSound(w)
  }

  // ----- micad's steps

  lemma StaysOnTheWay(w: World, s: Step, id: nat)
    requires CanStep(w.micad, s) && !w.stream.Closed?
    ensures w.Queued(id) ==> Next(w, Within(s)).Queued(id)
    ensures w.OnTheWay(id) ==> Next(w, Within(s)).OnTheWay(id)
  {
    var x := Next(w, Within(s));
    var q, p := w.stream.Queue(), x.stream.Queue();
    assert q <= p;
    if w.Queued(id) {
      var i :| 0 <= i < |q| && q[i].id == id;
      assert p[i].id == id;
    }
    if w.micad.Held(id) {
      var pid :| pid in w.micad.publishers && w.micad.publishers[pid].copy.id == id;
      if s.Signal? && s.pid == pid {
        assert p[|q|].id == id;
      } else if s.Restart? {
        assert id in x.unheard;
      } else if !(s.Lose? && s.pid == pid) {
        assert pid in x.micad.publishers && x.micad.publishers[pid].copy.id == id;
      }
    }
  }

  lemma StepKeepsSettling(w: World, s: Step, t: Task, source: Source)
    requires MicadSound(w.micad) && CanStep(w.micad, s) && !w.stream.Closed? && Settling(w, t, source)
    ensures Settling(Next(w, Within(s)), t, source)
  {
    var x := Next(w, Within(s));
    StaysOnTheWay(w, s, t.id);
    StepKeepsGenuine(w.micad, s, t);
    if s.Signal? && w.micad.publishers[s.pid].copy.id == t.id {
      assert x.stream.Queue()[|w.stream.Queue()|].id == t.id;
    }
    if s.Change? && s.task.id == t.id {
      assert s.pid in x.micad.publishers && x.micad.publishers[s.pid].copy.id == t.id;
    }
  }

  lemma StepKeepsQueueSound(w: World, s: Step)
    requires MicadSound(w.micad) && QueueSound(w) && CanStep(w.micad, s)
    ensures QueueSound(Next(w, Within(s)))
  {
    if s.Signal? {
      assert PublisherSound(w.micad, w.micad.publishers[s.pid]);
      AppendSignal(w.micad.signalled, w.stream.Queue(), w.micad.publishers[s.pid].copy);
    }
  }

  lemma StepKeepsReadSound(w: World, s: Step, r: Read)
    requires MicadSound(w.micad) && CanStep(w.micad, s) && (w.mirror.synchronised ==> !w.stream.Closed?)
    requires ReadSound(w, r)
    ensures ReadSound(Next(w, Within(s)), r)
  {
    var x := Next(w, Within(s));
    if r.stale.Some? { StepKeepsGenuine(w.micad, s, r.stale.value); }
    if r.reply.Some? && w.mirror.synchronised {
      match r.reply.value {
        case Found(t) => if Settling(w, t, Filled(Asked, true)) { StepKeepsSettling(w, s, t, Filled(Asked, true)); }
        case Missing =>
        case Tasks(ts, held) =>
          forall i | 0 <= i < |ts| && Settling(w, ts[i], ListedAs(ts[i], held))
            ensures Settling(x, ts[i], ListedAs(ts[i], held))
          {
            StepKeepsSettling(w, s, ts[i], ListedAs(ts[i], held));
          }
      }
    }
  }

  lemma StepKeepsMirrorSound(w: World, s: Step)
    requires MicadSound(w.micad) && CanStep(w.micad, s) && MirrorSound(w)
    ensures MirrorSound(Next(w, Within(s)))
  {
    var x := Next(w, Within(s));
    forall t ensures Genuine(w.micad, t) ==> Genuine(x.micad, t) { StepKeepsGenuine(w.micad, s, t); }
    if w.mirror.synchronised {
      forall id | id in w.mirror.tasks ensures Settling(x, w.mirror.tasks[id], w.sources[id]) {
        StepKeepsSettling(w, s, w.mirror.tasks[id], w.sources[id]);
      }
    }
  }

  lemma WithinKeepsInvariant(w: World, s: Step)
    requires Invariant(w) && CanStep(w.micad, s)
    ensures Invariant(Next(w, Within(s)))
  {
    StepKeepsMicadSound(w.micad, s);
    StepKeepsQueueSound(w, s);
    StepKeepsMirrorSound(w, s);
    forall rid | rid in w.requests ensures ReadSound(Next(w, Within(s)), w.requests[rid]) {
      StepKeepsReadSound(w, s, w.requests[rid]);
    }
  }

  // ----- the bus

  /** Settling depends on micad and the queue alone. */
  lemma SameSettling(w: World, x: World, t: Task, s: Source)
    requires x.micad == w.micad && x.unheard == w.unheard && x.stream.Queue() == w.stream.Queue()
    ensures Settling(x, t, s) <==> Settling(w, t, s)
  {
  }

  lemma SameReads(w: World, x: World, r: Read)
    requires x.micad == w.micad
    requires w.mirror.synchronised ==> x.unheard == w.unheard && x.stream.Queue() == w.stream.Queue()
    requires x.mirror.generation == w.mirror.generation && x.mirror.synchronised == w.mirror.synchronised
    ensures ReadSound(x, r) <==> ReadSound(w, r)
  {
    if w.mirror.synchronised {
      forall t, s ensures Settling(x, t, s) <==> Settling(w, t, s) { SameSettling(w, x, t, s); }
    }
  }

  /** A read that began before the generation moved constrains nothing more. */
  lemma OutdatedRead(w: World, x: World, r: Read)
    requires x.micad == w.micad && w.mirror.generation < x.mirror.generation && ReadSound(w, r)
    ensures ReadSound(x, r)
  {
  }

  lemma OthersStaySettling(w: World, t: Task, s: Source)
    requires w.stream.Live? && w.stream.queue != [] && t.id != w.stream.queue[0].id && Settling(w, t, s)
    ensures Settling(w.(stream := Live(w.stream.queue[1..])), t, s)
  {
    var q, x := w.stream.queue, w.(stream := Live(w.stream.queue[1..]));
    if w.Queued(t.id) {
      var i :| 0 <= i < |q| && q[i].id == t.id;
      assert x.stream.Queue()[i - 1].id == t.id;
    }
  }

  /** A settling record joins a mirror whose other records settle. */
  lemma InsertSettles(w: World, m: Mirror, t: Task, sources: map<nat, Source>)
    requires m.Matched() && AllGenuine(w.micad, m.tasks) && Genuine(w.micad, t)
    requires t.id in sources && Settling(w, t, sources[t.id])
    requires forall id :: id in m.tasks && id != t.id ==> id in sources && Settling(w, m.tasks[id], sources[id])
    ensures var n := m.Inserted(t);
            n.Matched() && AllGenuine(w.micad, n.tasks) && AllSettling(w, n.tasks, sources)
            && n == m.(tasks := n.tasks, order := n.order)
  {
    InsertKeepsMatched(m, t);
  }

  lemma HeadSettles(w: World)
    requires w.stream.Live? && w.stream.queue != [] && SignalsEnd(w.micad.signalled, w.stream.queue)
    ensures Settling(w.(stream := Live(w.stream.queue[1..])), w.stream.queue[0], Signalled)
  {
    var q, y := w.stream.queue, w.(stream := Live(w.stream.queue[1..]));
    HeadIsLast(w.micad.signalled, q);
    if q[0] != w.micad.signalled[q[0].id] {
      var i :| 0 <= i < |q[1..]| && q[1..][i].id == q[0].id;
      assert y.stream.Queue()[i].id == q[0].id;
    }
  }

  /** The other records after a delivery, seen from the world with the signal taken off. */
  lemma OthersSettle(w: World, t: Task)
    requires w.stream.Live? && w.stream.queue != [] && t == w.stream.queue[0]
    requires AllSettling(w, w.mirror.tasks, w.sources)
    ensures forall id :: id in w.mirror.tasks && id != t.id && w.mirror.tasks[id].id == id ==>
              id in w.sources && Settling(w.(stream := Live(w.stream.queue[1..])), w.mirror.tasks[id], w.sources[id])
  {
    forall id | id in w.mirror.tasks && id != t.id && w.mirror.tasks[id].id == id
      ensures Settling(w.(stream := Live(w.stream.queue[1..])), w.mirror.tasks[id], w.sources[id])
    {
      OthersStaySettling(w, w.mirror.tasks[id], w.sources[id]);
    }
  }

  lemma DeliverSettles(w: World, t: Task, y: World)
    requires w.stream.Live? && w.stream.queue != [] && t == w.stream.queue[0]
    requires y == w.(stream := Live(w.stream.queue[1..]))
    requires SignalsEnd(w.micad.signalled, w.stream.queue) && MirrorSound(w) && w.mirror.synchronised && Genuine(w.micad, t)
    ensures var m := w.mirror.Updated(t);
            && m.Matched() && AllGenuine(w.micad, m.tasks) && AllGenuine(w.micad, m.stale)
            && AllSettling(y, m.tasks, w.sources[t.id := Signalled])
            && m.synchronised && m.generation == w.mirror.generation + 1
  {
    HeadSettles(w);
    OthersSettle(w, t);
    var m := w.mirror.(generation := w.mirror.generation + 1, stale := w.mirror.stale - {t.id});
    InsertSettles(y, m, t, w.sources[t.id := Signalled]);
  }

  lemma DeliverKeepsInvariant(w: World)
    requires Invariant(w) && Enabled(w, Deliver)
    ensures Invariant(Next(w, Deliver))
  {
    var x, y := Next(w, Deliver), w.(stream := Live(w.stream.queue[1..]));
    DropHead(w.micad.signalled, w.stream.queue);
    DeliverSettles(w, w.stream.queue[0], y);
    forall id | id in x.mirror.tasks ensures Settling(x, x.mirror.tasks[id], x.sources[id]) {
      SameSettling(y, x, x.mirror.tasks[id], x.sources[id]);
    }
    forall rid | rid in w.requests ensures ReadSound(x, w.requests[rid]) { OutdatedRead(w, x, w.requests[rid]); }
  }

  lemma SubscriptionKeepsInvariant(w: World, e: Event)
    requires Invariant(w) && Enabled(w, e) && (e.Open? || e.Subscribe? || e.Break? || e.Lapse?)
    ensures Invariant(Next(w, e))
  {
    var x := Next(w, e);
    if e.Subscribe? || e.Lapse? {
      forall rid | rid in w.requests ensures ReadSound(x, w.requests[rid]) { OutdatedRead(w, x, w.requests[rid]); }
    } else {
      forall rid | rid in w.requests ensures ReadSound(x, w.requests[rid]) { SameReads(w, x, w.requests[rid]); }
      if w.mirror.synchronised {
        forall id | id in w.mirror.tasks ensures Settling(x, w.mirror.tasks[id], w.sources[id]) {
          SameSettling(w, x, w.mirror.tasks[id], w.sources[id]);
        }
      }
    }
  }

  // ----- reads

  lemma AnswerIsSound(w: World, r: Read)
    requires Invariant(w) && ReadSound(w, r) && r.sampled.Some? && r.reply.None?
    ensures ReadSound(w, r.(reply := Some(ReplyTo(w.micad, r))))
  {
  }

  lemma SameMirror(w: World, x: World)
    requires MirrorSound(w) && x.micad == w.micad && x.unheard == w.unheard && x.stream == w.stream && x.mirror == w.mirror && x.sources == w.sources
    ensures MirrorSound(x)
  {
    if w.mirror.synchronised {
      forall id | id in w.mirror.tasks ensures Settling(x, w.mirror.tasks[id], w.sources[id]) {
        SameSettling(w, x, w.mirror.tasks[id], w.sources[id]);
      }
    }
  }

  lemma RequestKeepsInvariant(w: World, e: Event)
    requires Invariant(w) && Enabled(w, e) && (e.Begin? || e.Sample? || e.Answer? || e.Abandon?)
    ensures Invariant(Next(w, e))
  {
    var x := Next(w, e);
    SameMirror(w, x);
    forall rid | rid in x.requests ensures ReadSound(x, x.requests[rid]) {
      if e.Answer? && rid == e.rid { AnswerIsSound(w, w.requests[rid]); }
      SameReads(w, x, x.requests[rid]);
    }
  }

  lemma ListSettles(w: World, ts: seq<Task>, held: map<nat, Task>)
    requires MicadSound(w.micad) && ListSound(w.micad, ts) && ReplySettling(w, Tasks(ts, held))
    ensures var kept := Newest(ts);
            Unique(Ids(kept)) && AllGenuine(w.micad, ById(kept)) && AllSettling(w, ById(kept), ListSources(kept, held))
  {
    var kept := Newest(ts);
    ByIdOf(kept);
    NewestUnique(ts);
    forall t | t in kept ensures t in w.micad.changes && Settling(w, t, ListedAs(t, held)) {
      var i := IndexOfNewest(ts, t);
    }
  }

  lemma NewestUnique(ts: seq<Task>)
    requires Unique(Ids(ts))
    ensures Unique(Ids(Newest(ts)))
  {
    var kept := Newest(ts);
    forall i, j | 0 <= i < j < |kept| ensures Ids(kept)[i] != Ids(kept)[j] {
      var d := |ts| - |kept|;
      assert Ids(ts)[d + i] == Ids(kept)[i] && Ids(ts)[d + j] == Ids(kept)[j];
    }
  }

  lemma IndexOfNewest(ts: seq<Task>, t: Task) returns (i: nat)
    requires t in Newest(ts)
    ensures i < |ts| && ts[i] == t
  {
    var kept := Newest(ts);
    var k :| 0 <= k < |kept| && kept[k] == t;
    return |ts| - |kept| + k;
  }

  lemma OneSettles(w: World, t: Task, s: Source)
    requires MirrorSound(w) && w.mirror.synchronised && Genuine(w.micad, t) && Settling(w, t, s)
    ensures var m := w.mirror.Filled(w.mirror.generation, t);
            && m.Matched() && AllGenuine(w.micad, m.tasks) && AllGenuine(w.micad, m.stale)
            && AllSettling(w, m.tasks, w.sources[t.id := s])
            && m.synchronised && m.generation == w.mirror.generation
  {
    InsertSettles(w, w.mirror.(stale := w.mirror.stale - {t.id}), t, w.sources[t.id := s]);
  }

  /** The mirror and sources after a fill that is taken. */
  lemma FillSettles(w: World, r: Read)
    requires MicadSound(w.micad) && MirrorSound(w) && ReadSound(w, r) && r.reply.Some?
    requires w.mirror.synchronised && w.mirror.generation == r.sampled.value
    ensures var m, sources := FilledBy(w.mirror, r), SourcesBy(w, r);
            && m.Matched() && AllGenuine(w.micad, m.tasks) && AllGenuine(w.micad, m.stale)
            && AllSettling(w, m.tasks, sources)
            && m.synchronised && m.generation == w.mirror.generation
  {
    match r.reply.value {
      case Found(t) => OneSettles(w, t, Filled(Asked, true));
      case Missing =>
        if r.stale.Some? {
          var t := Interrupted(r.stale.value);
          InterruptedIsPresumption(w.micad, r.stale.value);
          OneSettles(w, t, SourcesBy(w, r)[t.id]);
        }
      case Tasks(ts, held) =>
        ListSettles(w, ts, held);
        SnapshotMatched(w.mirror, ts);
    }
  }

  lemma FillKeepsInvariant(w: World, rid: nat)
    requires Invariant(w) && Enabled(w, Fill(rid))
    ensures Invariant(Next(w, Fill(rid)))
  {
    var x, r := Next(w, Fill(rid)), w.requests[rid];
    assert ReadSound(w, r);
    if w.mirror.synchronised && w.mirror.generation == r.sampled.value {
      FillSettles(w, r);
      forall id | id in x.mirror.tasks ensures Settling(x, x.mirror.tasks[id], x.sources[id]) {
        SameSettling(w, x, x.mirror.tasks[id], x.sources[id]);
      }
    } else {
      assert x.mirror == w.mirror;
      SameMirror(w, x);
    }
    forall k | k in x.requests ensures ReadSound(x, x.requests[k]) { SameReads(w, x, w.requests[k]); }
  }

  lemma StepKeepsInvariant(w: World, e: Event)
    requires Invariant(w) && Enabled(w, e)
    ensures Invariant(Next(w, e))
  {
    match e {
      case Within(s) => WithinKeepsInvariant(w, s);
      case Deliver => DeliverKeepsInvariant(w);
      case Fill(rid) => FillKeepsInvariant(w, rid);
      case Open => SubscriptionKeepsInvariant(w, e);
      case Subscribe => SubscriptionKeepsInvariant(w, e);
      case Break => SubscriptionKeepsInvariant(w, e);
      case Lapse => SubscriptionKeepsInvariant(w, e);
      case _ => RequestKeepsInvariant(w, e);
    }
  }

  lemma {:induction false} RunKeepsInvariant(w: World, events: seq<Event>)
    requires Invariant(w) && Run(w, events)
    ensures Invariant(Final(w, events))
    decreases |events|
  {
    if events != [] {
      StepKeepsInvariant(w, events[0]);
      RunKeepsInvariant(Next(w, events[0]), events[1..]);
    }
  }

  /** What the registry heard last of an id is micad's last record of it: the last copy
      signalled is, or the read it was filled from was when micad answered it. */
  predicate LastHeardIsLast(w: World, id: nat)
    requires id in w.sources && id in w.micad.last
  {
    match w.sources[id]
    case Signalled => id in w.micad.signalled && w.micad.signalled[id] == w.micad.last[id]
    case Filled(_, current) => current
  }

  /** Nothing that would change the record served of an id is on its way: for one that was
      signalled, no later signal of it is queued; for one that was read, none is due. */
  ghost predicate Quiet(w: World, id: nat)
    requires id in w.sources
  {
    if w.sources[id] == Signalled then !w.Queued(id) else !w.OnTheWay(id)
  }

  /**
   In every run, once an id is quiet, the record served of it is micad's last one if and
   only if what was heard last of it was. Serving a signalled record is serving the last
   copy signalled; one asked for by its id is always the last; and only for an id micad has
   dropped is a record made up, from an earlier one.
   */
  lemma RegistryFollowsMicad(events: seq<Event>, id: nat)
    requires Run(INITIAL, events)
    ensures var x := Final(INITIAL, events);
            && x.mirror.Matched()
            && (x.mirror.Got(id).Some? ==>
                  && id in x.sources && id in x.micad.last && Genuine(x.micad, x.mirror.Got(id).value)
                  && (Quiet(x, id) ==>
                        && (x.mirror.Got(id) == Some(x.micad.last[id]) <==> LastHeardIsLast(x, id))
                        && match x.sources[id]
                           case Signalled => id in x.micad.signalled && x.mirror.Got(id) == Some(x.micad.signalled[id])
                           case Filled(Asked, _) => x.mirror.Got(id) == Some(x.micad.last[id])
                           case Filled(Listed, _) => x.mirror.Got(id).value in x.micad.changes
                           case Filled(Presumed, _) => Presumption(x.micad, x.mirror.Got(id).value)))
  {
    InitialInvariant();
    RunKeepsInvariant(INITIAL, events);
    var x := Final(INITIAL, events);
    if x.mirror.Got(id).Some? { SettledIs(x, id); }
  }

  lemma SettledIs(x: World, id: nat)
    requires Invariant(x) && x.mirror.Got(id).Some?
    ensures id in x.sources && id in x.micad.last && Genuine(x.micad, x.mirror.Got(id).value)
    ensures Settling(x, x.mirror.Got(id).value, x.sources[id]) && x.mirror.Got(id).value.id == id
  {
    assert Settling(x, x.mirror.tasks[id], x.sources[id]);
    assert Genuine(x.micad, x.mirror.tasks[id]);
  }

  /** From every world, whatever was lost or overtaken before, a new subscription and one
      read of a task micad retains serve its last record. */
  lemma FallbackServesLast(w: World, id: nat, rid: nat)
    requires Invariant(w) && id in w.micad.retained && rid !in w.requests
    ensures var events := [Lapse, Open, Subscribe, Begin(rid, Some(id)), Sample(rid), Answer(rid), Fill(rid)];
            && Run(w, events) && id in w.micad.last
            && var x := Final(w, events);
               x.micad == w.micad && x.mirror.Got(id) == Some(w.micad.last[id])
  {
    var first: seq<Event> := [Lapse, Open, Subscribe];
    var second: seq<Event> := [Begin(rid, Some(id)), Sample(rid), Answer(rid), Fill(rid)];
    Resubscribes(w);
    ReadServesLast(Final(w, first), id, rid);
    Parts(PROTOCOL, w, first, second);
    assert first + second == [Lapse, Open, Subscribe, Begin(rid, Some(id)), Sample(rid), Answer(rid), Fill(rid)];
  }

  lemma Resubscribes(w: World)
    ensures var events := [Lapse, Open, Subscribe];
            && Run(w, events)
            && var x := Final(w, events);
               && x.micad == w.micad && x.requests == w.requests && x.mirror.synchronised && x.mirror.Matched()
               && x.mirror.tasks == map[]
  {
    var a := Next(w, Lapse);
    var b := Next(a, Open);
    assert IsRun(PROTOCOL, Next(b, Subscribe), []);
    OneFirst(PROTOCOL, b, Subscribe, []);
    OneFirst(PROTOCOL, a, Open, [Subscribe] + []);
    OneFirst(PROTOCOL, w, Lapse, [Open] + ([Subscribe] + []));
    assert [Lapse] + ([Open] + ([Subscribe] + [])) == [Lapse, Open, Subscribe];
  }

  /** A read that was answered since the generation was sampled fills the mirror. */
  lemma AnsweredFills(d: World, id: nat, rid: nat, t: Task)
    requires d.mirror.synchronised && d.mirror.Matched() && t.id == id && rid in d.requests
    requires d.requests[rid].sampled == Some(d.mirror.generation) && d.requests[rid].reply == Some(Found(t))
    ensures Next(d, Fill(rid)).micad == d.micad && Next(d, Fill(rid)).mirror.Got(id) == Some(t)
  {
    InsertKeepsMatched(d.mirror.(stale := d.mirror.stale - {id}), t);
  }

  lemma ReadIsAnswered(a: World, id: nat, rid: nat)
    requires rid !in a.requests && id in a.micad.retained && id in a.micad.last
    ensures var events := [Begin(rid, Some(id)), Sample(rid), Answer(rid)];
            && Run(a, events)
            && var d := Final(a, events);
               && d == a.(requests := d.requests) && rid in d.requests
               && d.requests[rid].sampled == Some(a.mirror.generation)
               && d.requests[rid].reply == Some(Found(a.micad.last[id]))
  {
    var b := Next(a, Begin(rid, Some(id)));
    var c := Next(b, Sample(rid));
    assert IsRun(PROTOCOL, Next(c, Answer(rid)), []);
    OneFirst(PROTOCOL, c, Answer(rid), []);
    OneFirst(PROTOCOL, b, Sample(rid), [Answer(rid)] + []);
    OneFirst(PROTOCOL, a, Begin(rid, Some(id)), [Sample(rid)] + ([Answer(rid)] + []));
    assert [Begin(rid, Some(id))] + ([Sample(rid)] + ([Answer(rid)] + [])) == [Begin(rid, Some(id)), Sample(rid), Answer(rid)];
  }

  lemma ReadServesLast(a: World, id: nat, rid: nat)
    requires a.mirror.synchronised && a.mirror.Matched() && rid !in a.requests
    requires id in a.micad.retained && id in a.micad.last && a.micad.last[id].id == id
    ensures var events := [Begin(rid, Some(id)), Sample(rid), Answer(rid), Fill(rid)];
            && Run(a, events)
            && Final(a, events).micad == a.micad && Final(a, events).mirror.Got(id) == Some(a.micad.last[id])
  {
    var first: seq<Event> := [Begin(rid, Some(id)), Sample(rid), Answer(rid)];
    ReadIsAnswered(a, id, rid);
    AnsweredFills(Final(a, first), id, rid, a.micad.last[id]);
    OneMore(PROTOCOL, a, first, Fill(rid));
    assert first + [Fill(rid)] == [Begin(rid, Some(id)), Sample(rid), Answer(rid), Fill(rid)];
  }

  lemma InitialInvariant()
    ensures Invariant(INITIAL)
  {
  }
}
