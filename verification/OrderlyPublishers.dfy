/**
 Publishers of task changes that keep order: then the registry converges to micad's
 records.
 */
module OrderlyPublishers {
  import opened Base
  import opened Runs
  import opened Signals
  import opened TaskRegistry
  import opened TaskProtocol

  /** Task lists are stored in the order they were taken, and the copies of an id are
      signalled, or lost, in the order they were made. */
  ghost predicate Orderly(m: Micad, s: Step)
    requires CanStep(m, s)
  {
    match s
    case Store(pid) => m.stored.taken <= m.publishers[pid].list.value.taken
    case Signal(pid) => IsOldestCopy(m, pid)
    case Lose(pid) => IsOldestCopy(m, pid)
    case _ => true
  }

  ghost predicate IsOldestCopy(m: Micad, pid: nat)
    requires pid in m.publishers
  {
    forall k :: k in m.publishers && m.publishers[k].copy.id == m.publishers[pid].copy.id ==>
      m.publishers[pid].made <= m.publishers[k].made
  }

  // ----- what order keeps of micad

  ghost predicate NewestHolder(m: Micad, id: nat, pid: nat) {
    pid in m.publishers && id in m.made && m.publishers[pid].copy.id == id && m.publishers[pid].made == m.made[id]
  }

  ghost predicate NewestHeld(m: Micad, id: nat) {
    exists pid :: NewestHolder(m, id, pid)
  }

  ghost predicate NewestUnstored(m: Micad, id: nat) {
    exists pid :: NewestHolder(m, id, pid) && !m.publishers[pid].stored
  }

  /** A list has the last record of every id in it that did not change since. */
  ghost predicate ListAsOf(m: Micad, l: Listing) {
    l.taken <= m.clock && forall i :: 0 <= i < |l.tasks| ==>
      && l.tasks[i].id in m.made && l.tasks[i].id in m.last
      && (m.made[l.tasks[i].id] < l.taken ==> l.tasks[i] == m.last[l.tasks[i].id])
  }

  ghost predicate CopyAsOf(m: Micad, p: Publisher) {
    && p.copy.id in m.made && p.copy.id in m.last && p.made <= m.made[p.copy.id]
    && (p.made == m.made[p.copy.id] ==> p.copy == m.last[p.copy.id])
    && (p.stored ==> p.list.Some?)
    && (p.list.Some? ==> p.made < p.list.value.taken && ListAsOf(m, p.list.value))
  }

  /** The newest copy of an id is still to be signalled, or left last: signalled or lost. */
  ghost predicate SignalsAsOf(m: Micad, id: nat) {
    || NewestHeld(m, id)
    || (!m.Held(id) && (id in m.lost || (id in m.signalled && id in m.last && m.signalled[id] == m.last[id])))
  }

  /** The newest record of an id is still to be stored, or the list is newer. */
  ghost predicate StoredAsOf(m: Micad, id: nat) {
    NewestUnstored(m, id) || (id in m.made && m.made[id] < m.stored.taken)
  }

  ghost predicate Stamped(m: Micad) {
    m.made.Keys == m.last.Keys && forall id :: id in m.made ==> m.made[id] < m.clock
  }

  ghost predicate DistinctStamps(m: Micad) {
    && (forall k :: k in m.publishers ==> m.publishers[k].made < m.clock)
    && forall j, k :: j in m.publishers && k in m.publishers && m.publishers[j].made == m.publishers[k].made ==> j == k
  }

  ghost predicate CopiesAsOf(m: Micad) {
    forall pid :: pid in m.publishers ==> CopyAsOf(m, m.publishers[pid])
  }

  ghost predicate IdsAsOf(m: Micad) {
    forall id :: id in m.last ==> SignalsAsOf(m, id) && StoredAsOf(m, id)
  }

  ghost predicate InOrder(m: Micad) {
    Stamped(m) && DistinctStamps(m) && CopiesAsOf(m) && ListAsOf(m, m.stored) && IdsAsOf(m)
  }

  /** Records change only to later ones. */
  ghost predicate Later(m: Micad, n: Micad) {
    && m.clock <= n.clock
    && forall id :: id in m.made && id in m.last ==>
         && id in n.made && id in n.last
         && (if n.made[id] == m.made[id] then n.last[id] == m.last[id] else n.made[id] >= m.clock)
  }

  lemma ListStays(m: Micad, n: Micad, l: Listing)
    requires Later(m, n) && ListAsOf(m, l)
    ensures ListAsOf(n, l)
  {
  }

  lemma CopyStays(m: Micad, n: Micad, p: Publisher)
    requires Stamped(m) && Later(m, n) && CopyAsOf(m, p)
    ensures CopyAsOf(n, p)
  {
    if p.list.Some? { ListStays(m, n, p.list.value); }
  }

  lemma StepIsLater(m: Micad, s: Step)
    requires Stamped(m) && CanStep(m, s)
    ensures Later(m, Stepped(m, s)) && Stamped(Stepped(m, s))
  {
  }

  lemma StampsStayDistinct(m: Micad, s: Step)
    requires DistinctStamps(m) && CanStep(m, s)
    ensures DistinctStamps(Stepped(m, s))
  {
  }

  lemma SnapshotIsAsOf(m: Micad, pid: nat, ts: seq<Task>)
    requires Stamped(m) && CanStep(m, Snap(pid, ts))
    ensures ListAsOf(Stepped(m, Snap(pid, ts)), Listing(ts, m.clock))
  {
  }

  lemma CopiesStay(m: Micad, s: Step)
    requires Stamped(m) && DistinctStamps(m) && CopiesAsOf(m) && CanStep(m, s)
    ensures CopiesAsOf(Stepped(m, s))
  {
    var n := Stepped(m, s);
    StepIsLater(m, s);
    if s.Snap? { SnapshotIsAsOf(m, s.pid, s.tasks); }
    forall k | k in n.publishers ensures CopyAsOf(n, n.publishers[k]) {
      if k in m.publishers { CopyStays(m, n, m.publishers[k]); }
    }
  }

  lemma StoredStays(m: Micad, s: Step)
    requires Stamped(m) && CopiesAsOf(m) && ListAsOf(m, m.stored) && CanStep(m, s)
    ensures ListAsOf(Stepped(m, s), Stepped(m, s).stored)
  {
    StepIsLater(m, s);
    if s.Store? {
      assert CopyAsOf(m, m.publishers[s.pid]);
      ListStays(m, Stepped(m, s), m.publishers[s.pid].list.value);
    } else {
      ListStays(m, Stepped(m, s), m.stored);
    }
  }

  /** The publishers of an id are the same, as far as order can tell. */
  ghost predicate SameHolders(m: Micad, n: Micad, id: nat) {
    && (forall k :: k in m.publishers && m.publishers[k].copy.id == id ==>
          k in n.publishers && n.publishers[k].copy == m.publishers[k].copy
          && n.publishers[k].made == m.publishers[k].made && n.publishers[k].stored == m.publishers[k].stored)
    && (forall k :: k in n.publishers && n.publishers[k].copy.id == id ==> k in m.publishers && m.publishers[k].copy.id == id)
  }

  lemma KeepsHolders(m: Micad, n: Micad, id: nat)
    requires SignalsAsOf(m, id) && StoredAsOf(m, id) && SameHolders(m, n, id)
    requires id in m.made && id in n.made && n.made[id] == m.made[id]
    requires id in m.last && id in n.last && n.last[id] == m.last[id]
    requires (id in m.lost ==> id in n.lost) && m.stored.taken <= n.stored.taken
    requires id in m.signalled ==> id in n.signalled && n.signalled[id] == m.signalled[id]
    ensures SignalsAsOf(n, id) && StoredAsOf(n, id)
  {
    if NewestHeld(m, id) {
      var k :| NewestHolder(m, id, k);
      assert NewestHolder(n, id, k);
    }
    if NewestUnstored(m, id) {
      var k :| NewestHolder(m, id, k) && !m.publishers[k].stored;
      assert NewestHolder(n, id, k) && !n.publishers[k].stored;
    }
  }

  lemma ChangeKeepsIds(m: Micad, pid: nat, t: Task)
    requires Stamped(m) && IdsAsOf(m) && CanStep(m, Change(pid, t))
    ensures IdsAsOf(Stepped(m, Change(pid, t)))
  {
    var n := Stepped(m, Change(pid, t));
    assert NewestHolder(n, t.id, pid);
    forall id | id in n.last ensures SignalsAsOf(n, id) && StoredAsOf(n, id) {
      if id != t.id {
        assert SameHolders(m, n, id);
        KeepsHolders(m, n, id);
      }
    }
  }

  lemma QuietKeepsIds(m: Micad, s: Step)
    requires Stamped(m) && IdsAsOf(m) && CanStep(m, s) && (s.Retire? || s.Snap?)
    ensures IdsAsOf(Stepped(m, s))
  {
    var n := Stepped(m, s);
    forall id | id in n.last ensures SignalsAsOf(n, id) && StoredAsOf(n, id) {
      assert SameHolders(m, n, id);
      KeepsHolders(m, n, id);
    }
  }

  lemma StoreKeepsOwn(m: Micad, pid: nat)
    requires Stamped(m) && CopiesAsOf(m) && IdsAsOf(m) && CanStep(m, Store(pid)) && Orderly(m, Store(pid))
    ensures var n, id := Stepped(m, Store(pid)), m.publishers[pid].copy.id;
            SignalsAsOf(n, id) && StoredAsOf(n, id)
  {
    var n, p := Stepped(m, Store(pid)), m.publishers[pid];
    var id := p.copy.id;
    assert CopyAsOf(m, p);
    assert SignalsAsOf(m, id) && StoredAsOf(m, id) && m.Held(id);
    if NewestHeld(m, id) {
      var k :| NewestHolder(m, id, k);
      assert NewestHolder(n, id, k);
    }
    if NewestUnstored(m, id) {
      var k :| NewestHolder(m, id, k) && !m.publishers[k].stored;
      assert k == pid || (NewestHolder(n, id, k) && !n.publishers[k].stored);
    }
  }

  lemma StoreKeepsIds(m: Micad, pid: nat)
    requires Stamped(m) && CopiesAsOf(m) && IdsAsOf(m) && CanStep(m, Store(pid)) && Orderly(m, Store(pid))
    ensures IdsAsOf(Stepped(m, Store(pid)))
  {
    var n := Stepped(m, Store(pid));
    forall id | id in n.last ensures SignalsAsOf(n, id) && StoredAsOf(n, id) {
      if id == m.publishers[pid].copy.id {
        StoreKeepsOwn(m, pid);
      } else {
        assert SameHolders(m, n, id);
        KeepsHolders(m, n, id);
      }
    }
  }

  /** The publisher that leaves has stored its list. */
  lemma LeaverStored(m: Micad, s: Step, id: nat)
    requires StoredAsOf(m, id) && CanStep(m, s) && (s.Signal? || s.Lose?)
    ensures StoredAsOf(Stepped(m, s), id)
  {
    var n := Stepped(m, s);
    if NewestUnstored(m, id) {
      var k :| NewestHolder(m, id, k) && !m.publishers[k].stored;
      assert NewestHolder(n, id, k) && !n.publishers[k].stored;
    }
  }

  /** The newest copy leaves once every older one has. */
  lemma NewestLeavesLast(m: Micad, s: Step)
    requires DistinctStamps(m) && CopiesAsOf(m) && CanStep(m, s) && Orderly(m, s) && (s.Signal? || s.Lose?)
    requires NewestHolder(m, m.publishers[s.pid].copy.id, s.pid)
    ensures SignalsAsOf(Stepped(m, s), m.publishers[s.pid].copy.id)
  {
    var n, p := Stepped(m, s), m.publishers[s.pid];
    assert CopyAsOf(m, p);
    forall k | k in n.publishers ensures n.publishers[k].copy.id != p.copy.id {
      assert CopyAsOf(m, m.publishers[k]);
    }
  }

  lemma OlderLeaves(m: Micad, s: Step)
    requires CanStep(m, s) && (s.Signal? || s.Lose?) && SignalsAsOf(m, m.publishers[s.pid].copy.id)
    requires !NewestHolder(m, m.publishers[s.pid].copy.id, s.pid)
    ensures SignalsAsOf(Stepped(m, s), m.publishers[s.pid].copy.id)
  {
    var n, id := Stepped(m, s), m.publishers[s.pid].copy.id;
    assert m.Held(id);
    if NewestHeld(m, id) {
      var k :| NewestHolder(m, id, k);
      assert NewestHolder(n, id, k);
    }
  }

  lemma OthersKeepHolders(m: Micad, s: Step, id: nat)
    requires Stamped(m) && IdsAsOf(m) && CanStep(m, s) && (s.Signal? || s.Lose?)
    requires id in m.last && id != m.publishers[s.pid].copy.id
    ensures SignalsAsOf(Stepped(m, s), id)
  {
    assert SameHolders(m, Stepped(m, s), id);
    KeepsHolders(m, Stepped(m, s), id);
  }

  lemma LeaveKeepsIds(m: Micad, s: Step)
    requires InOrder(m) && CanStep(m, s) && Orderly(m, s) && (s.Signal? || s.Lose?)
    ensures IdsAsOf(Stepped(m, s))
  {
    var n, own := Stepped(m, s), m.publishers[s.pid].copy.id;
    assert CopyAsOf(m, m.publishers[s.pid]);
    assert SignalsAsOf(m, own);
    forall id | id in n.last ensures SignalsAsOf(n, id) && StoredAsOf(n, id) {
      assert StoredAsOf(m, id);
      LeaverStored(m, s, id);
      if id != own {
        OthersKeepHolders(m, s, id);
      } else if NewestHolder(m, own, s.pid) {
        NewestLeavesLast(m, s);
      } else {
        OlderLeaves(m, s);
      }
    }
  }

  /** What was still held is lost, and the empty list is newer than any record. */
  lemma RestartKeepsIds(m: Micad)
    requires Stamped(m) && IdsAsOf(m)
    ensures IdsAsOf(Stepped(m, Restart))
  {
    var n := Stepped(m, Restart);
    forall id | id in n.last ensures SignalsAsOf(n, id) && StoredAsOf(n, id) {
      assert SignalsAsOf(m, id);
      if NewestHeld(m, id) {
        var k :| NewestHolder(m, id, k);
        assert m.publishers[k].copy.id in n.lost;
      }
    }
  }

  lemma StepKeepsOrder(m: Micad, s: Step)
    requires InOrder(m) && CanStep(m, s) && Orderly(m, s)
    ensures InOrder(Stepped(m, s))
  {
    StepIsLater(m, s);
    StampsStayDistinct(m, s);
    CopiesStay(m, s);
    StoredStays(m, s);
    match s {
      case Change(pid, t) => ChangeKeepsIds(m, pid, t);
      case Store(pid) => StoreKeepsIds(m, pid);
      case Signal(_) => LeaveKeepsIds(m, s);
      case Lose(_) => LeaveKeepsIds(m, s);
      case Restart => RestartKeepsIds(m);
      case _ => QuietKeepsIds(m, s);
    }
  }

  // ----- what order keeps of the registry

  /** A listed record was the last one, unless a signal of its id is on its way. */
  ghost predicate ListedWell(w: World, id: nat, s: Source) {
    s.Filled? && s.how == Listed ==> s.current || w.OnTheWay(id)
  }

  ghost predicate ReplyListedWell(w: World, reply: Reply) {
    reply.Tasks? ==> forall i :: 0 <= i < |reply.tasks| ==> ListedWell(w, reply.tasks[i].id, ListedAs(reply.tasks[i], reply.held))
  }

  ghost predicate ReadListedWell(w: World, r: Read) {
    r.reply.Some? && r.sampled.Some? && w.mirror.synchronised && r.sampled.value == w.mirror.generation ==>
      ReplyListedWell(w, r.reply.value)
  }

  ghost predicate TasksListedWell(w: World, ts: map<nat, Task>, sources: map<nat, Source>) {
    forall id :: id in ts && id in sources ==> ListedWell(w, id, sources[id])
  }

  ghost predicate Listings(w: World) {
    && (w.mirror.synchronised ==> TasksListedWell(w, w.mirror.tasks, w.sources))
    && (forall rid :: rid in w.requests ==> ReadListedWell(w, w.requests[rid]))
  }

  ghost predicate OrderlyEvent(w: World, e: Event)
    requires Enabled(w, e)
  {
    e.Within? ==> Orderly(w.micad, e.step)
  }

  lemma AnswerIsListedWell(w: World, r: Read)
    requires InOrder(w.micad)
    ensures ReplyListedWell(w, ReplyTo(w.micad, r))
  {
    var ts := w.micad.stored.tasks;
    forall i | 0 <= i < |ts| ensures ListedWell(w, ts[i].id, ListedAs(ts[i], w.micad.last)) {
      assert StoredAsOf(w.micad, ts[i].id);
    }
  }

  lemma ReplyStaysListedWell(w: World, x: World, reply: Reply)
    requires ReplyListedWell(w, reply) && forall id :: w.OnTheWay(id) ==> x.OnTheWay(id)
    ensures ReplyListedWell(x, reply)
  {
    if reply.Tasks? {
      forall i | 0 <= i < |reply.tasks| ensures ListedWell(x, reply.tasks[i].id, ListedAs(reply.tasks[i], reply.held)) {
        assert ListedWell(w, reply.tasks[i].id, ListedAs(reply.tasks[i], reply.held));
      }
    }
  }

  /** What is listed well stays so while signals only move on. */
  lemma ListingsStay(w: World, x: World)
    requires Listings(w) && x.requests == w.requests && x.mirror == w.mirror && x.sources == w.sources
    requires w.mirror.synchronised ==> forall id :: w.OnTheWay(id) ==> x.OnTheWay(id)
    ensures Listings(x)
  {
    forall rid | rid in x.requests ensures ReadListedWell(x, x.requests[rid]) {
      assert ReadListedWell(w, w.requests[rid]);
    }
  }

  lemma WithinKeepsListings(w: World, s: Step)
    requires Listings(w) && CanStep(w.micad, s) && (w.mirror.synchronised ==> !w.stream.Closed?)
    ensures Listings(Next(w, Within(s)))
  {
    var x := Next(w, Within(s));
    if w.mirror.synchronised {
      forall id ensures w.OnTheWay(id) ==> x.OnTheWay(id) { StaysOnTheWay(w, s, id); }
    }
    ListingsStay(w, x);
  }

  /** Reads that began before the generation moved promise nothing more. */
  lemma OutdatedListings(w: World, x: World)
    requires x.requests == w.requests && w.mirror.generation < x.mirror.generation
    requires forall rid :: rid in w.requests && w.requests[rid].sampled.Some? ==> w.requests[rid].sampled.value <= w.mirror.generation
    ensures forall rid :: rid in x.requests ==> ReadListedWell(x, x.requests[rid])
  {
  }

  lemma OthersStayOnTheWay(w: World, id: nat)
    requires w.stream.Live? && w.stream.queue != [] && id != w.stream.queue[0].id && w.OnTheWay(id)
    ensures w.(stream := Live(w.stream.queue[1..])).OnTheWay(id)
  {
    var q, x := w.stream.queue, w.(stream := Live(w.stream.queue[1..]));
    if w.Queued(id) {
      var i :| 0 <= i < |q| && q[i].id == id;
      assert x.stream.Queue()[i - 1].id == id;
    }
  }

  lemma SameWay(w: World, x: World, id: nat)
    requires x.micad == w.micad && x.unheard == w.unheard && x.stream.Queue() == w.stream.Queue()
    ensures w.OnTheWay(id) <==> x.OnTheWay(id)
  {
  }

  lemma DeliverKeepsListings(w: World)
    requires Listings(w) && w.mirror.Matched() && Enabled(w, Deliver)
    ensures TasksListedWell(Next(w, Deliver), Next(w, Deliver).mirror.tasks, Next(w, Deliver).sources)
  {
    var x, t := Next(w, Deliver), w.stream.queue[0];
    var m := w.mirror.(generation := w.mirror.generation + 1, stale := w.mirror.stale - {t.id});
    InsertKeepsMatched(m, t);
    forall id | id in x.mirror.tasks && id in x.sources ensures ListedWell(x, id, x.sources[id]) {
      if id != t.id {
        assert ListedWell(w, id, w.sources[id]);
        SameWay(w.(stream := Live(w.stream.queue[1..])), x, id);
        if w.OnTheWay(id) { OthersStayOnTheWay(w, id); }
      }
    }
  }

  lemma InsertKeepsListings(w: World, t: Task, source: Source)
    requires w.mirror.Matched() && TasksListedWell(w, w.mirror.tasks, w.sources) && ListedWell(w, t.id, source)
    ensures TasksListedWell(w, w.mirror.(stale := w.mirror.stale - {t.id}).Inserted(t).tasks, w.sources[t.id := source])
  {
    InsertKeepsMatched(w.mirror.(stale := w.mirror.stale - {t.id}), t);
  }

  lemma ListKeepsListings(w: World, ts: seq<Task>, held: map<nat, Task>)
    requires ReplyListedWell(w, Tasks(ts, held))
    ensures TasksListedWell(w, ById(Newest(ts)), w.sources + ListSources(Newest(ts), held))
  {
    var byId := ById(Newest(ts));
    ByIdOf(Newest(ts));
    forall id | id in byId ensures ListedWell(w, id, ListSources(Newest(ts), held)[id]) {
      var i := IndexOfNewest(ts, byId[id]);
      assert ListedWell(w, ts[i].id, ListedAs(ts[i], held));
    }
  }

  lemma FillKeepsListings(w: World, r: Read)
    requires w.mirror.Matched() && TasksListedWell(w, w.mirror.tasks, w.sources) && r.sampled.Some? && r.reply.Some?
    requires w.mirror.synchronised && w.mirror.generation == r.sampled.value && ReplyListedWell(w, r.reply.value)
    ensures TasksListedWell(w, FilledBy(w.mirror, r).tasks, SourcesBy(w, r))
  {
    match r.reply.value {
      case Found(t) => InsertKeepsListings(w, t, Filled(Asked, true));
      case Missing =>
        if r.stale.Some? {
          var t := Interrupted(r.stale.value);
          InsertKeepsListings(w, t, SourcesBy(w, r)[t.id]);
        }
      case Tasks(ts, held) => ListKeepsListings(w, ts, held);
    }
  }

  lemma FillStepKeepsListings(w: World, rid: nat)
    requires Listings(w) && w.mirror.Matched() && Enabled(w, Fill(rid))
    requires Next(w, Fill(rid)).mirror.synchronised == w.mirror.synchronised
    requires Next(w, Fill(rid)).mirror.generation == w.mirror.generation
    ensures Listings(Next(w, Fill(rid)))
  {
    var x, r := Next(w, Fill(rid)), w.requests[rid];
    assert ReadListedWell(w, r);
    forall id ensures w.OnTheWay(id) <==> x.OnTheWay(id) { SameWay(w, x, id); }
    if w.mirror.synchronised {
      if w.mirror.generation == r.sampled.value { FillKeepsListings(w, r); }
    }
    forall k | k in x.requests ensures ReadListedWell(x, x.requests[k]) { assert ReadListedWell(w, w.requests[k]); }
  }

  lemma OtherStepKeepsListings(w: World, e: Event)
    requires InOrder(w.micad) && Listings(w) && Enabled(w, e) && (e.Begin? || e.Sample? || e.Answer? || e.Abandon? || e.Break?)
    requires e.Sample? ==> w.requests[e.rid].reply.None?
    ensures Listings(Next(w, e))
  {
    var x := Next(w, e);
    forall id ensures w.OnTheWay(id) <==> x.OnTheWay(id) { SameWay(w, x, id); }
    if e.Answer? {
      AnswerIsListedWell(w, w.requests[e.rid]);
      ReplyStaysListedWell(w, x, ReplyTo(w.micad, w.requests[e.rid]));
    }
    forall k | k in x.requests ensures ReadListedWell(x, x.requests[k]) {
      if k in w.requests { assert ReadListedWell(w, w.requests[k]); }
    }
  }

  // ----- losses are known of what was heard

  /** A signal of the id reached this stream, and is queued or was the last heard of it. */
  ghost predicate Heard(w: World, id: nat) {
    w.Queued(id) || (id in w.mirror.tasks && id in w.sources && w.sources[id] == Signalled)
  }

  /** Of what was heard, losses since the stream was opened are all that count. */
  ghost predicate LossesKnown(w: World) {
    forall id :: Heard(w, id) && id in w.micad.lost ==> id in w.unheard
  }

  lemma SentIsQueued(w: World, s: Step, id: nat)
    requires CanStep(w.micad, s)
    ensures Next(w, Within(s)).Queued(id) ==> w.Queued(id) || (s.Signal? && w.micad.publishers[s.pid].copy.id == id)
  {
    var x := Next(w, Within(s));
    if x.Queued(id) {
      var i :| 0 <= i < |x.stream.Queue()| && x.stream.Queue()[i].id == id;
      if i < |w.stream.Queue()| { assert w.stream.Queue()[i].id == id; }
    }
  }

  lemma WithinKnowsLosses(w: World, s: Step)
    requires LossesKnown(w) && CanStep(w.micad, s)
    ensures LossesKnown(Next(w, Within(s)))
  {
    var x := Next(w, Within(s));
    forall id | Heard(x, id) && id in x.micad.lost ensures id in x.unheard {
      SentIsQueued(w, s, id);
      assert id in w.micad.lost ==> Heard(w, id);
    }
  }

  lemma DeliveredWasQueued(w: World, id: nat)
    requires Enabled(w, Deliver)
    ensures Next(w, Deliver).Queued(id) || id == w.stream.queue[0].id ==> w.Queued(id)
  {
    var x, q := Next(w, Deliver), w.stream.queue;
    assert w.stream.Queue()[0].id == q[0].id;
    if x.Queued(id) {
      var i :| 0 <= i < |x.stream.Queue()| && x.stream.Queue()[i].id == id;
      assert w.stream.Queue()[i + 1].id == id;
    }
  }

  lemma DeliverKnowsLosses(w: World)
    requires LossesKnown(w) && w.mirror.Matched() && Enabled(w, Deliver)
    ensures LossesKnown(Next(w, Deliver))
  {
    var x, t := Next(w, Deliver), w.stream.queue[0];
    InsertKeepsMatched(w.mirror.(generation := w.mirror.generation + 1, stale := w.mirror.stale - {t.id}), t);
    forall id | Heard(x, id) && id in x.micad.lost ensures id in x.unheard {
      DeliveredWasQueued(w, id);
      assert Heard(w, id);
    }
  }

  /** A fill adds nothing to what was heard by signals. */
  lemma FilledIsNotHeard(w: World, r: Read, id: nat)
    requires w.mirror.Matched() && r.sampled.Some? && r.reply.Some?
    requires w.mirror.synchronised && w.mirror.generation == r.sampled.value
    requires id in FilledBy(w.mirror, r).tasks && id in SourcesBy(w, r) && SourcesBy(w, r)[id] == Signalled
    ensures id in w.mirror.tasks && id in w.sources && w.sources[id] == Signalled
  {
    match r.reply.value {
      case Found(t) => InsertKeepsMatched(w.mirror.(stale := w.mirror.stale - {t.id}), t);
      case Missing =>
        if r.stale.Some? {
          var t := Interrupted(r.stale.value);
          InsertKeepsMatched(w.mirror.(stale := w.mirror.stale - {t.id}), t);
        }
      case Tasks(_, _) =>
    }
  }

  lemma FillKnowsLosses(w: World, rid: nat)
    requires LossesKnown(w) && w.mirror.Matched() && Enabled(w, Fill(rid))
    ensures LossesKnown(Next(w, Fill(rid)))
  {
    var x, r := Next(w, Fill(rid)), w.requests[rid];
    forall id | Heard(x, id) && id in x.micad.lost ensures id in x.unheard {
      if !x.Queued(id) && w.mirror.synchronised && w.mirror.generation == r.sampled.value {
        FilledIsNotHeard(w, r, id);
      }
      assert w.Queued(id) <==> x.Queued(id);
      assert Heard(w, id);
    }
  }

  lemma StillQueued(w: World, x: World, id: nat)
    requires x.stream.Queue() == [] || x.stream.Queue() == w.stream.Queue()
    ensures x.Queued(id) ==> w.Queued(id)
  {
  }

  lemma OtherStepKnowsLosses(w: World, e: Event)
    requires LossesKnown(w) && Enabled(w, e) && !(e.Within? || e.Deliver? || e.Fill?)
    requires e.Open? ==> w.mirror.tasks == map[]
    ensures LossesKnown(Next(w, e))
  {
    var x := Next(w, e);
    assert x.stream.Queue() == if e.Open? || e.Lapse? then [] else w.stream.Queue();
    forall id | Heard(x, id) && id in x.micad.lost ensures id in x.unheard {
      StillQueued(w, x, id);
      assert !e.Open? ==> Heard(w, id);
    }
  }

  /** A mirror that is not synchronised is empty. */
  ghost predicate EmptyWhenDeaf(w: World) {
    w.stream.Closed? ==> w.mirror.tasks == map[]
  }

  lemma StepKnowsLosses(w: World, e: Event)
    requires LossesKnown(w) && EmptyWhenDeaf(w) && w.mirror.Matched() && Enabled(w, e)
    ensures LossesKnown(Next(w, e))
  {
    match e {
      case Within(s) => WithinKnowsLosses(w, s);
      case Deliver => DeliverKnowsLosses(w);
      case Fill(rid) => FillKnowsLosses(w, rid);
      case _ => OtherStepKnowsLosses(w, e);
    }
  }

  lemma StepStaysDeaf(w: World, e: Event)
    requires EmptyWhenDeaf(w) && (w.mirror.synchronised ==> !w.stream.Closed?) && Enabled(w, e)
    ensures EmptyWhenDeaf(Next(w, e))
  {
  }

  // ----- runs

  ghost predicate OrderlyInvariant(w: World) {
    Invariant(w) && InOrder(w.micad) && Listings(w) && LossesKnown(w) && EmptyWhenDeaf(w)
  }

  lemma SampledBefore(w: World)
    requires ReadsSound(w)
    ensures forall rid :: rid in w.requests && w.requests[rid].sampled.Some? ==> w.requests[rid].sampled.value <= w.mirror.generation
  {
    forall rid | rid in w.requests ensures w.requests[rid].sampled.Some? ==> w.requests[rid].sampled.value <= w.mirror.generation {
      assert ReadSound(w, w.requests[rid]);
    }
  }

  lemma FillKeepsGeneration(w: World, rid: nat)
    requires w.mirror.Matched() && Enabled(w, Fill(rid))
    ensures Next(w, Fill(rid)).mirror.synchronised == w.mirror.synchronised
    ensures Next(w, Fill(rid)).mirror.generation == w.mirror.generation
  {
    var r, m := w.requests[rid], w.mirror;
    match r.reply.value {
      case Found(t) => InsertKeepsMatched(m.(stale := m.stale - {t.id}), t);
      case Missing =>
        if r.stale.Some? {
          InsertKeepsMatched(m.(stale := m.stale - {Interrupted(r.stale.value).id}), Interrupted(r.stale.value));
        }
      case Tasks(_, _) =>
    }
  }

  lemma DeliverMovesOn(w: World)
    requires w.mirror.Matched() && Enabled(w, Deliver)
    ensures Next(w, Deliver).mirror.generation == w.mirror.generation + 1
  {
    var t := w.stream.queue[0];
    InsertKeepsMatched(w.mirror.(generation := w.mirror.generation + 1, stale := w.mirror.stale - {t.id}), t);
  }

  lemma StepKeepsListings(w: World, e: Event)
    requires OrderlyInvariant(w) && Enabled(w, e)
    ensures Listings(Next(w, e))
  {
    var x := Next(w, e);
    SampledBefore(w);
    match e {
      case Within(s) => WithinKeepsListings(w, s);
      case Deliver =>
        DeliverKeepsListings(w);
        DeliverMovesOn(w);
        OutdatedListings(w, x);
      case Fill(rid) =>
        FillKeepsGeneration(w, rid);
        FillStepKeepsListings(w, rid);
      case Subscribe => OutdatedListings(w, x);
      case Lapse => OutdatedListings(w, x);
      case Open =>
        forall k | k in x.requests ensures ReadListedWell(x, x.requests[k]) { assert ReadListedWell(w, w.requests[k]); }
      case Sample(rid) =>
        assert ReadSound(w, w.requests[rid]);
        OtherStepKeepsListings(w, e);
      case _ => OtherStepKeepsListings(w, e);
    }
  }

  lemma OrderlyStep(w: World, e: Event)
    requires OrderlyInvariant(w) && Enabled(w, e) && OrderlyEvent(w, e)
    ensures OrderlyInvariant(Next(w, e))
  {
    StepKeepsInvariant(w, e);
    StepKeepsListings(w, e);
    StepKnowsLosses(w, e);
    StepStaysDeaf(w, e);
    if e.Within? { StepKeepsOrder(w.micad, e.step); }
  }

  ghost predicate OrderlyRun(w: World, events: seq<Event>)
    requires Run(w, events)
    decreases |events|
  {
    events != [] ==> OrderlyEvent(w, events[0]) && OrderlyRun(Next(w, events[0]), events[1..])
  }

  lemma {:induction false} OrderlyRunKeepsInvariant(w: World, events: seq<Event>)
    requires OrderlyInvariant(w) && Run(w, events) && OrderlyRun(w, events)
    ensures OrderlyInvariant(Final(w, events))
    decreases |events|
  {
    if events != [] {
      OrderlyStep(w, events[0]);
      OrderlyRunKeepsInvariant(Next(w, events[0]), events[1..]);
    }
  }

  /** With nothing of an id on its way, what was heard last of it is micad's last. */
  lemma OrderlyHearsLast(x: World, id: nat)
    requires OrderlyInvariant(x) && x.mirror.Got(id).Some? && !x.OnTheWay(id)
    ensures || (id in x.micad.last && x.mirror.Got(id) == Some(x.micad.last[id]))
            || Presumption(x.micad, x.mirror.Got(id).value)
  {
    assert Settling(x, x.mirror.tasks[id], x.sources[id]);
    assert ListedWell(x, id, x.sources[id]);
    assert Genuine(x.micad, x.mirror.tasks[id]);
    assert SignalsAsOf(x.micad, id);
    NewestIsHeld(x.micad, id);
  }

  lemma NewestIsHeld(m: Micad, id: nat)
    ensures NewestHeld(m, id) ==> m.Held(id)
  {
    if NewestHeld(m, id) {
      var pid :| NewestHolder(m, id, pid);
      assert pid in m.publishers && m.publishers[pid].copy.id == id;
    }
  }

  /**
   With publishers that keep order the registry converges: once no signal of an id is on
   its way, and the last one to leave since the stream was opened was not lost, the record
   served of it is the last one micad made of it, or, for an id micad has dropped, one
   presumed from an earlier record.
   */
  lemma OrderlyRegistryConverges(events: seq<Event>, id: nat)
    requires Run(INITIAL, events) && OrderlyRun(INITIAL, events)
    ensures var x := Final(INITIAL, events);
            x.mirror.Got(id).Some? && !x.OnTheWay(id) ==>
              || (id in x.micad.last && x.mirror.Got(id) == Some(x.micad.last[id]))
              || Presumption(x.micad, x.mirror.Got(id).value)
  {
    InitialInvariant();
    OrderlyRunKeepsInvariant(INITIAL, events);
    var x := Final(INITIAL, events);
    if x.mirror.Got(id).Some? && !x.OnTheWay(id) { OrderlyHearsLast(x, id); }
  }
}
