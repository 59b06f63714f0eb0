/**
 micad's reconcile queue: settings are on disk before their apply is queued, so
 the queue may fold, broaden and bound what it holds, but never lose an apply.
 */
module ApplyQueue {
  import opened Base
  import opened SettingsPath

  const MAX_TASKS: nat := 128

  datatype Status = Queued | Running | Finished

  datatype Record = Record(operation: string, dotPath: string, source: string, status: Status, foldedCount: nat)

  datatype Job = Job(id: nat, dotPath: string)

  // ----- containment of paths

  function Segments(path: string): Option<seq<string>> {
    if IsRoot(path) then Some([]) else SplitPath(path)
  }

  /** `child` lies in the subtree at `parent`. */
  predicate Subsumes(parent: string, child: string) {
    Segments(parent).Some? && Segments(child).Some? && Segments(parent).value <= Segments(child).value
  }

  lemma SubsumesTransitive(a: string, b: string, c: string)
    requires Subsumes(a, b) && Subsumes(b, c)
    ensures Subsumes(a, c)
  {
  }

  lemma RootSubsumes(path: string)
    requires Segments(path).Some?
    ensures Subsumes("", path) && Subsumes(path, path)
  {
  }

  // ----- the queue

  datatype Queue = Queue(nextId: nat, pending: seq<Job>, order: seq<nat>, records: map<nat, Record>) {
    /** Every pending job has a queued record with its path. */
    ghost predicate PendingValid() {
      && (forall i, j :: 0 <= i < j < |pending| ==> pending[i].id != pending[j].id)
      && (forall i :: 0 <= i < |pending| ==>
            && pending[i].id in records && records[pending[i].id].status == Queued
            && records[pending[i].id].dotPath == pending[i].dotPath)
    }

    /** The order lists exactly the ids of the records, each once. */
    ghost predicate OrderValid() {
      && (forall i, j :: 0 <= i < j < |order| ==> order[i] != order[j])
      && (forall id :: id in order <==> id in records)
    }

    ghost predicate Valid() {
      PendingValid() && OrderValid() && forall id :: id in records ==> id <= nextId
    }

    predicate IsPending(id: nat) {
      exists i :: 0 <= i < |pending| && pending[i].id == id
    }

    function Unfinished(): set<nat> {
      set id | id in records && records[id].status != Finished
    }

    /** Give the pending job at `i` a path, and count one more request in it. */
    function Folded(i: nat, path: string): Queue
      requires i < |pending| && pending[i].id in records
    {
      var job := pending[i];
      var r := records[job.id];
      this.(pending := pending[i := job.(dotPath := path)],
            records := records[job.id := r.(dotPath := path, foldedCount := r.foldedCount + 1)])
    }

    function Evicted(i: nat): Queue
      requires i < |order|
    {
      this.(order := order[..i] + order[i + 1..], records := records - {order[i]})
    }

    /** Record a new task; it joins the pending jobs unless its caller runs it. */
    function Added(r: Record, queued: bool): Queue {
      var id := nextId + 1;
      Queue(id, if queued then pending + [Job(id, r.dotPath)] else pending, order + [id], records[id := r])
    }
  }

  const EMPTY := Queue(0, [], [], map[])

  /** The first pending job whose subtree contains or is contained by `path`. */
  function FoldIndex(pending: seq<Job>, path: string): (i: nat)
    ensures i <= |pending|
    ensures i < |pending| ==> Subsumes(pending[i].dotPath, path) || Subsumes(path, pending[i].dotPath)
  {
    if pending == [] || Subsumes(pending[0].dotPath, path) || Subsumes(path, pending[0].dotPath) then 0
    else 1 + FoldIndex(pending[1..], path)
  }

  /** The oldest finished task. */
  function FinishedIndex(order: seq<nat>, records: map<nat, Record>): (i: nat)
    ensures i <= |order|
    ensures i < |order| ==> order[i] in records && records[order[i]].status == Finished
    ensures i == |order| ==> forall k :: 0 <= k < |order| && order[k] in records ==> records[order[k]].status != Finished
  {
    if order == [] || (order[0] in records && records[order[0]].status == Finished) then 0
    else 1 + FinishedIndex(order[1..], records)
  }

  function NewRecord(operation: string, path: string, source: string): Record {
    Record(operation, path, source, Queued, 0)
  }

  function Enqueued(q: Queue, operation: string, path: string, source: string): Queue
    requires q.Valid()
  {
    var i := FoldIndex(q.pending, path);
    if i < |q.pending| then
      q.Folded(i, if Subsumes(path, q.pending[i].dotPath) then path else q.pending[i].dotPath)
    else if |q.records| >= MAX_TASKS then
      var t := FinishedIndex(q.order, q.records);
      if t < |q.order| then q.Evicted(t).Added(NewRecord(operation, path, source), true)
      else if q.pending != [] then q.Folded(0, "")
      else q.Added(NewRecord(operation, path, source), true)
    else q.Added(NewRecord(operation, path, source), true)
  }

  function Opened(q: Queue, operation: string, path: string, source: string): Queue {
    var t := FinishedIndex(q.order, q.records);
    var room := if |q.records| >= MAX_TASKS && t < |q.order| then q.Evicted(t) else q;
    room.Added(NewRecord(operation, path, source), false)
  }

  function Popped(q: Queue): Queue
    requires q.pending != []
  {
    q.(pending := q.pending[1..])
  }

  function Marked(q: Queue, id: nat, status: Status): Queue {
    if id in q.records then q.(records := q.records[id := q.records[id].(status := status)]) else q
  }

  // ----- what every operation keeps

  lemma FoldedValid(q: Queue, i: nat, path: string)
    requires q.Valid() && i < |q.pending|
    ensures q.Folded(i, path).Valid()
    ensures q.Folded(i, path).records.Keys == q.records.Keys
    ensures q.Folded(i, path).Unfinished() == q.Unfinished()
  {
  }

  lemma EvictedOrder(q: Queue, i: nat)
    requires q.OrderValid() && i < |q.order|
    ensures q.Evicted(i).OrderValid()
  {
    forall id ensures id in q.Evicted(i).order <==> id in q.order && id != q.order[i] { WithoutOne(q.order, i, id); }
    StillDistinct(q.order, i);
  }

  lemma WithoutOne(order: seq<nat>, i: nat, id: nat)
    requires i < |order| && forall j, k :: 0 <= j < k < |order| ==> order[j] != order[k]
    ensures id in order[..i] + order[i + 1..] <==> id in order && id != order[i]
  {
    var rest := order[..i] + order[i + 1..];
    if id in order && id != order[i] {
      var k :| 0 <= k < |order| && order[k] == id;
      assert rest[if k < i then k else k - 1] == id;
    }
    if id in rest {
      var k :| 0 <= k < |rest| && rest[k] == id;
      assert id == order[if k < i then k else k + 1];
    }
  }

  lemma StillDistinct(order: seq<nat>, i: nat)
    requires i < |order| && forall j, k :: 0 <= j < k < |order| ==> order[j] != order[k]
    ensures var rest := order[..i] + order[i + 1..];
            forall j, k :: 0 <= j < k < |rest| ==> rest[j] != rest[k]
  {
    var rest := order[..i] + order[i + 1..];
    assert forall k :: 0 <= k < |rest| ==> rest[k] == order[if k < i then k else k + 1];
  }

  lemma EvictedValid(q: Queue, i: nat)
    requires q.Valid() && i < |q.order| && q.order[i] in q.records && q.records[q.order[i]].status == Finished
    ensures q.Evicted(i).Valid()
    ensures |q.Evicted(i).records| == |q.records| - 1
    ensures q.Evicted(i).Unfinished() == q.Unfinished()
  {
    EvictedOrder(q, i);
    assert q.Evicted(i).records.Keys == q.records.Keys - {q.order[i]};
  }

  lemma AddedOrder(q: Queue, r: Record, queued: bool)
    requires q.OrderValid() && q.nextId + 1 !in q.records
    ensures q.Added(r, queued).OrderValid()
  {
    var a := q.Added(r, queued);
    assert forall id :: id in a.order <==> id in q.order || id == q.nextId + 1;
  }

  lemma AddedCount(q: Queue, r: Record, queued: bool)
    requires q.nextId + 1 !in q.records
    ensures |q.Added(r, queued).records| == |q.records| + 1
  {
    assert q.Added(r, queued).records.Keys == q.records.Keys + {q.nextId + 1};
  }

  lemma AddedPending(q: Queue, r: Record, queued: bool)
    requires q.PendingValid() && q.nextId + 1 !in q.records && r.status == Queued
    ensures q.Added(r, queued).PendingValid()
    ensures q.Added(r, queued).Unfinished() == q.Unfinished() + {q.nextId + 1}
  {
  }

  lemma AddedValid(q: Queue, r: Record, queued: bool)
    requires q.Valid() && r.status == Queued
    ensures q.Added(r, queued).Valid()
    ensures |q.Added(r, queued).records| == |q.records| + 1
    ensures q.Added(r, queued).Unfinished() == q.Unfinished() + {q.nextId + 1}
    ensures q.nextId + 1 !in q.Unfinished()
  {
    AddedOrder(q, r, queued);
    AddedCount(q, r, queued);
    AddedPending(q, r, queued);
  }

  lemma EnqueuedValid(q: Queue, operation: string, path: string, source: string)
    requires q.Valid()
    ensures Enqueued(q, operation, path, source).Valid()
  {
    var i, t := FoldIndex(q.pending, path), FinishedIndex(q.order, q.records);
    var r := NewRecord(operation, path, source);
    if i < |q.pending| { FoldedValid(q, i, if Subsumes(path, q.pending[i].dotPath) then path else q.pending[i].dotPath); }
    else if |q.records| >= MAX_TASKS && t < |q.order| { EvictedValid(q, t); AddedValid(q.Evicted(t), r, true); }
    else if |q.records| >= MAX_TASKS && q.pending != [] { FoldedValid(q, 0, ""); }
    else { AddedValid(q, r, true); }
  }

  lemma OpenedValid(q: Queue, operation: string, path: string, source: string)
    requires q.Valid()
    ensures Opened(q, operation, path, source).Valid()
  {
    var t := FinishedIndex(q.order, q.records);
    var r := NewRecord(operation, path, source);
    if |q.records| >= MAX_TASKS && t < |q.order| { EvictedValid(q, t); AddedValid(q.Evicted(t), r, false); }
    else { AddedValid(q, r, false); }
  }

  lemma PoppedValid(q: Queue)
    requires q.Valid() && q.pending != []
    ensures Popped(q).Valid()
  {
  }

  lemma MarkedValid(q: Queue, id: nat, status: Status)
    requires q.Valid() && !q.IsPending(id)
    ensures Marked(q, id, status).Valid()
    ensures Marked(q, id, status).records.Keys == q.records.Keys
  {
  }

  // ----- no apply is lost

  /** A pending job will reconcile the subtree at `path`. */
  ghost predicate Covers(q: Queue, path: string) {
    exists i :: 0 <= i < |q.pending| && Subsumes(q.pending[i].dotPath, path)
  }

  lemma FoldedCovers(q: Queue, i: nat, path: string, p: string)
    requires i < |q.pending| && q.pending[i].id in q.records
    requires Subsumes(path, q.pending[i].dotPath) || path == q.pending[i].dotPath || path == ""
    requires Covers(q, p)
    ensures Covers(q.Folded(i, path), p)
  {
    var f := q.Folded(i, path);
    var k :| 0 <= k < |q.pending| && Subsumes(q.pending[k].dotPath, p);
    if k == i {
      if path == "" { RootSubsumes(p); }
      else if Subsumes(path, q.pending[i].dotPath) { SubsumesTransitive(path, q.pending[i].dotPath, p); }
      assert Subsumes(f.pending[i].dotPath, p);
    } else {
      assert f.pending[k] == q.pending[k];
    }
  }

  lemma AddedCovers(q: Queue, r: Record, p: string)
    requires Covers(q, p) || (p == r.dotPath && Segments(p).Some?)
    ensures Covers(q.Added(r, true), p)
  {
    var a := q.Added(r, true);
    if Covers(q, p) {
      var k :| 0 <= k < |q.pending| && Subsumes(q.pending[k].dotPath, p);
      assert a.pending[k] == q.pending[k];
    } else {
      RootSubsumes(p);
      assert a.pending[|q.pending|].dotPath == p;
    }
  }

  /** Enqueueing covers the path, and uncovers none, through folding, broadening
      and overflow. */
  lemma EnqueuedCovers(q: Queue, operation: string, path: string, source: string, p: string)
    requires q.Valid() && (Covers(q, p) || (p == path && Segments(p).Some?))
    ensures Covers(Enqueued(q, operation, path, source), p)
  {
    var i, t := FoldIndex(q.pending, path), FinishedIndex(q.order, q.records);
    var r := NewRecord(operation, path, source);
    if i < |q.pending| {
      var wide := if Subsumes(path, q.pending[i].dotPath) then path else q.pending[i].dotPath;
      if Covers(q, p) { FoldedCovers(q, i, wide, p); }
      else { RootSubsumes(p); assert Subsumes(q.Folded(i, wide).pending[i].dotPath, p); }
    } else if |q.records| >= MAX_TASKS && t < |q.order| {
      AddedCovers(q.Evicted(t), r, p);
    } else if |q.records| >= MAX_TASKS && q.pending != [] {
      if Covers(q, p) { FoldedCovers(q, 0, "", p); }
      else { RootSubsumes(p); assert Subsumes(q.Folded(0, "").pending[0].dotPath, p); }
    } else {
      AddedCovers(q, r, p);
    }
  }

  // ----- how far a job may widen

  /** One of two paths lies in the other's subtree: the segments of the one begin those of the other. */
  predicate Overlap(a: string, b: string) {
    var x, y := Segments(a), Segments(b);
    x.Some? && y.Some? && (x.value <= y.value || y.value <= x.value)
  }

  /** Of two paths that overlap, the one with the fewer segments; of equals the later one. */
  function Shorter(was: string, path: string): string
    requires Overlap(was, path)
  {
    if |Segments(path).value| <= |Segments(was).value| then path else was
  }

  /** Of `q`, exactly the pending job `i` and its record have changed: their path is `path`,
      and one more request is counted. */
  ghost predicate Widened(q: Queue, x: Queue, i: nat, path: string)
    requires i < |q.pending| && q.pending[i].id in q.records
  {
    var id := q.pending[i].id;
    && x.nextId == q.nextId && x.order == q.order && x.records.Keys == q.records.Keys
    && |x.pending| == |q.pending| && x.pending[i] == Job(id, path)
    && (forall k :: 0 <= k < |q.pending| && k != i ==> x.pending[k] == q.pending[k])
    && x.records[id] == q.records[id].(dotPath := path, foldedCount := q.records[id].foldedCount + 1)
    && (forall k :: k in q.records && k != id ==> x.records[k] == q.records[k])
  }

  /** Of `q`, exactly one task was added, with exactly that path and as a job if `queued`; of
      the others, those listed in `kept` are left, as they were. */
  ghost predicate Extended(
    q: Queue, x: Queue, operation: string, path: string, source: string, kept: seq<nat>, queued: bool)
  {
    var id := q.nextId + 1;
    && x.nextId == id && x.pending == q.pending + (if queued then [Job(id, path)] else []) && x.order == kept + [id]
    && id in x.records && x.records[id] == Record(operation, path, source, Queued, 0)
    && (forall k :: k != id ==> (k in x.records <==> k in kept))
    && (forall k :: k in kept ==> k in q.records && (k != id ==> x.records[k] == q.records[k]))
  }

  /** No job of the queue overlaps the path. */
  predicate Apart(q: Queue, path: string) {
    forall k :: 0 <= k < |q.pending| ==> !Overlap(q.pending[k].dotPath, path)
  }

  ghost predicate NothingFinished(q: Queue) {
    forall id :: id in q.records ==> q.records[id].status != Finished
  }

  /** The oldest finished task of the queue. */
  ghost predicate OldestFinished(q: Queue, t: nat) {
    && t < |q.order| && q.order[t] in q.records && q.records[q.order[t]].status == Finished
    && forall k :: 0 <= k < t && q.order[k] in q.records ==> q.records[q.order[k]].status != Finished
  }

  lemma SubsumesShorter(was: string, path: string)
    ensures Overlap(was, path) <==> Subsumes(was, path) || Subsumes(path, was)
    ensures Overlap(was, path) ==> Shorter(was, path) == if Subsumes(path, was) then path else was
  {
    if Overlap(was, path) {
      var x, y := Segments(was).value, Segments(path).value;
      if y <= x { assert |y| <= |x|; }
      if x <= y && |y| <= |x| { assert y == x; }
    }
  }

  /** The first pending job that overlaps the path. */
  ghost predicate FirstOverlap(q: Queue, path: string, i: nat) {
    && i < |q.pending| && Overlap(q.pending[i].dotPath, path)
    && forall k :: 0 <= k < i ==> !Overlap(q.pending[k].dotPath, path)
  }

  lemma FoldIndexIsFirst(q: Queue, path: string, i: nat)
    ensures FirstOverlap(q, path, i) ==> FoldIndex(q.pending, path) == i
    ensures Apart(q, path) ==> FoldIndex(q.pending, path) == |q.pending|
  {
    forall k | 0 <= k < |q.pending| { SubsumesShorter(q.pending[k].dotPath, path); }
    if FirstOverlap(q, path, i) {
      FoldIndexFrom(q.pending, path, i);
    } else if Apart(q, path) {
      FoldIndexFrom(q.pending, path, |q.pending|);
    }
  }

  lemma FinishedIndexIsOldest(q: Queue, t: nat)
    requires q.Valid()
    ensures OldestFinished(q, t) ==> FinishedIndex(q.order, q.records) == t
    ensures NothingFinished(q) <==> FinishedIndex(q.order, q.records) == |q.order|
  {
    if OldestFinished(q, t) { FinishedIndexFrom(q.order, q.records, t); }
    if FinishedIndex(q.order, q.records) == |q.order| { AllUnfinished(q); }
  }

  /** A path that overlaps a pending job widens the first such job to the shorter of the two
      paths, and nothing else. */
  lemma OverlapWidens(q: Queue, operation: string, path: string, source: string, i: nat)
    requires q.Valid() && FirstOverlap(q, path, i)
    ensures Widened(q, Enqueued(q, operation, path, source), i, Shorter(q.pending[i].dotPath, path))
  {
    FoldIndexIsFirst(q, path, i);
    SubsumesShorter(q.pending[i].dotPath, path);
  }

  /** Otherwise the path gets a job of its own, if there are fewer than 128 records. */
  lemma ApartExtends(q: Queue, operation: string, path: string, source: string)
    requires q.Valid() && Apart(q, path) && |q.records| < 128
    ensures Extended(q, Enqueued(q, operation, path, source), operation, path, source, q.order, true)
  {
    FoldIndexIsFirst(q, path, 0);
  }

  /** A full table drops its oldest finished task for the new one. */
  lemma FullEvictsOldest(q: Queue, operation: string, path: string, source: string, t: nat)
    requires q.Valid() && Apart(q, path) && |q.records| >= 128 && OldestFinished(q, t)
    ensures var kept := q.order[..t] + q.order[t + 1..];
            Extended(q, Enqueued(q, operation, path, source), operation, path, source, kept, true)
  {
    FoldIndexIsFirst(q, path, 0);
    FinishedIndexIsOldest(q, t);
    EvictedExtends(q, NewRecord(operation, path, source), t, true);
  }

  lemma EvictedExtends(q: Queue, r: Record, t: nat, queued: bool)
    requires q.Valid() && t < |q.order| && r.status == Queued && r.foldedCount == 0
    ensures var kept := q.order[..t] + q.order[t + 1..];
            Extended(q, q.Evicted(t).Added(r, queued), r.operation, r.dotPath, r.source, kept, queued)
  {
    var kept := q.order[..t] + q.order[t + 1..];
    forall id ensures id in kept <==> id in q.Evicted(t).records { WithoutOne(q.order, t, id); }
    AddedExtends(q, q.Evicted(t), r, kept, queued);
  }

  lemma AddedExtends(q: Queue, room: Queue, r: Record, kept: seq<nat>, queued: bool)
    requires r.status == Queued && r.foldedCount == 0 && room == q.(order := kept, records := room.records)
    requires forall id :: id in kept <==> id in room.records
    requires forall id :: id in room.records ==> id in q.records && room.records[id] == q.records[id]
    ensures Extended(q, room.Added(r, queued), r.operation, r.dotPath, r.source, kept, queued)
  {
  }

  /** A task its caller runs itself gets a record and no job; a full table drops its oldest
      finished task for it, and grows if it has none. */
  lemma OpenedExactly(q: Queue, operation: string, path: string, source: string, t: nat)
    requires q.Valid() && (|q.records| >= 128 ==> OldestFinished(q, t) || NothingFinished(q))
    ensures var evicts := |q.records| >= 128 && !NothingFinished(q);
            var kept := if evicts then q.order[..t] + q.order[t + 1..] else q.order;
            Extended(q, Opened(q, operation, path, source), operation, path, source, kept, false)
  {
    FinishedIndexIsOldest(q, t);
    var r := NewRecord(operation, path, source);
    if |q.records| >= 128 && !NothingFinished(q) {
      EvictedExtends(q, r, t, false);
    } else {
      AddedExtends(q, q, r, q.order, false);
    }
  }

  lemma NewIdIsFree(q: Queue)
    requires q.Valid()
    ensures q.nextId + 1 !in q.records && !q.IsPending(q.nextId + 1)
  {
  }

  /** Only a full table with nothing finished makes its oldest job one of the whole tree. */
  lemma FullBroadensOldest(q: Queue, operation: string, path: string, source: string)
    requires q.Valid() && Apart(q, path) && |q.records| >= 128 && NothingFinished(q)
    ensures var x := Enqueued(q, operation, path, source);
            if q.pending != [] then Widened(q, x, 0, "") else Extended(q, x, operation, path, source, q.order, true)
  {
    FoldIndexIsFirst(q, path, 0);
    FinishedIndexIsOldest(q, 0);
  }

  // ----- runs

  /** The queue, the well-formed paths enqueued whose covering job is not popped
      yet, and the most tasks that were unfinished at once. */
  datatype World = World(q: Queue, owed: set<string>, peak: nat)

  datatype Event =
    | Enqueue(operation: string, path: string, source: string)
    | Open(operation: string, path: string, source: string)
    | Pop
    | Start(id: nat)
    | Finish(id: nat)

  /** Only a task that was popped or opened is started or finished. */
  predicate Enabled(w: World, e: Event) {
    match e
    case Enqueue(_, _, _) => true
    case Open(_, _, _) => true
    case Pop => w.q.pending != []
    case Start(id) => !w.q.IsPending(id)
    case Finish(id) => !w.q.IsPending(id)
  }

  function NextQueue(w: World, e: Event): Queue
    requires w.q.Valid() && Enabled(w, e)
  {
    match e
    case Enqueue(operation, path, source) => Enqueued(w.q, operation, path, source)
    case Open(operation, path, source) => Opened(w.q, operation, path, source)
    case Pop => Popped(w.q)
    case Start(id) => Marked(w.q, id, Running)
    case Finish(id) => Marked(w.q, id, Finished)
  }

  function NextOwed(w: World, e: Event): set<string>
    requires Enabled(w, e)
  {
    match e
    case Enqueue(_, path, _) => if Segments(path).Some? then w.owed + {path} else w.owed
    case Pop => set p | p in w.owed && !Subsumes(w.q.pending[0].dotPath, p)
    case _ => w.owed
  }

  function Max(a: nat, b: nat): nat { if a < b then b else a }

  function Next(w: World, e: Event): World
    requires w.q.Valid() && Enabled(w, e)
  {
    var q := NextQueue(w, e);
    World(q, NextOwed(w, e), Max(w.peak, |q.Unfinished()|))
  }

  const INITIAL := World(EMPTY, {}, 0)

  ghost predicate Invariant(w: World) {
    && w.q.Valid()
    && (forall p :: p in w.owed ==> Covers(w.q, p))
    && Bounded(w.q, w.peak)
  }

  /** One step of the queue; what follows a broken queue is anything. */
  ghost predicate Stepped(w: World, e: Event, x: World) {
    Enabled(w, e) && (w.q.Valid() ==> x == Next(w, e))
  }

  /** `ws` are the worlds the events lead through from an empty queue. */
  ghost predicate Run(ws: seq<World>, events: seq<Event>) {
    && |ws| == |events| + 1
    && ws[0] == INITIAL
    && forall i :: 0 <= i < |events| ==> Stepped(ws[i], events[i], ws[i + 1])
  }

  lemma NextIsValid(w: World, e: Event)
    requires w.q.Valid() && Enabled(w, e)
    ensures NextQueue(w, e).Valid()
  {
    match e {
      case Enqueue(operation, path, source) => EnqueuedValid(w.q, operation, path, source);
      case Open(operation, path, source) => OpenedValid(w.q, operation, path, source);
      case Pop => PoppedValid(w.q);
      case Start(id) => MarkedValid(w.q, id, Running);
      case Finish(id) => MarkedValid(w.q, id, Finished);
    }
  }

  lemma NextCovers(w: World, e: Event, p: string)
    requires w.q.Valid() && (forall o :: o in w.owed ==> Covers(w.q, o)) && Enabled(w, e)
    requires p in NextOwed(w, e)
    ensures Covers(NextQueue(w, e), p)
  {
    match e {
      case Enqueue(operation, path, source) => EnqueuedCovers(w.q, operation, path, source, p);
      case Pop =>
        var k :| 0 <= k < |w.q.pending| && Subsumes(w.q.pending[k].dotPath, p);
        assert Popped(w.q).pending[k - 1] == w.q.pending[k];
      case _ =>
        var k :| 0 <= k < |w.q.pending| && Subsumes(w.q.pending[k].dotPath, p);
        assert NextQueue(w, e).pending[k] == w.q.pending[k];
    }
  }

  /** Without a finished task to make room by, every record is unfinished. */
  lemma AllUnfinished(q: Queue)
    requires q.Valid() && FinishedIndex(q.order, q.records) == |q.order|
    ensures q.Unfinished() == q.records.Keys && |q.Unfinished()| == |q.records|
  {
    forall id | id in q.records ensures q.records[id].status != Finished {
      var k :| 0 <= k < |q.order| && q.order[k] == id;
    }
    assert q.Unfinished() == q.records.Keys;
  }

  lemma AddedBound(q: Queue, r: Record, queued: bool, peak: nat)
    requires q.Valid() && r.status == Queued && |q.Unfinished()| <= peak && |q.records| <= Max(MAX_TASKS, peak)
    requires |q.records| < Max(MAX_TASKS, peak) || FinishedIndex(q.order, q.records) == |q.order|
    ensures var a := q.Added(r, queued);
            |a.records| <= Max(MAX_TASKS, Max(peak, |a.Unfinished()|))
  {
    AddedValid(q, r, queued);
    if FinishedIndex(q.order, q.records) == |q.order| { AllUnfinished(q); }
  }

  /** The record bound: 128, or the most tasks unfinished at once. */
  ghost predicate Bounded(q: Queue, peak: nat) {
    |q.Unfinished()| <= peak && |q.records| <= Max(MAX_TASKS, peak)
  }

  lemma FoldedBound(q: Queue, i: nat, path: string, peak: nat)
    requires q.Valid() && i < |q.pending| && Bounded(q, peak)
    ensures Bounded(q.Folded(i, path), peak)
  {
    var f := q.Folded(i, path);
    FoldedValid(q, i, path);
    assert |f.records| == |f.records.Keys| && |q.records| == |q.records.Keys|;
  }

  lemma RoomBound(q: Queue, r: Record, queued: bool, peak: nat)
    requires q.Valid() && r.status == Queued && Bounded(q, peak)
    ensures var t := FinishedIndex(q.order, q.records);
            var room := if |q.records| >= MAX_TASKS && t < |q.order| then q.Evicted(t) else q;
            Bounded(room.Added(r, queued), Max(peak, |room.Added(r, queued).Unfinished()|))
  {
    var t := FinishedIndex(q.order, q.records);
    if |q.records| >= MAX_TASKS && t < |q.order| {
      EvictedValid(q, t);
      AddedBound(q.Evicted(t), r, queued, peak);
    } else {
      AddedBound(q, r, queued, peak);
    }
  }

  lemma EnqueuedBound(q: Queue, operation: string, path: string, source: string, peak: nat)
    requires q.Valid() && Bounded(q, peak)
    ensures var e := Enqueued(q, operation, path, source);
            Bounded(e, Max(peak, |e.Unfinished()|))
  {
    var i := FoldIndex(q.pending, path);
    if i < |q.pending| {
      FoldedBound(q, i, if Subsumes(path, q.pending[i].dotPath) then path else q.pending[i].dotPath, peak);
    } else if |q.records| >= MAX_TASKS && FinishedIndex(q.order, q.records) == |q.order| && q.pending != [] {
      FoldedBound(q, 0, "", peak);
    } else {
      RoomBound(q, NewRecord(operation, path, source), true, peak);
    }
  }

  lemma MarkedBound(q: Queue, id: nat, status: Status, peak: nat)
    requires q.Valid() && Bounded(q, peak)
    ensures Bounded(Marked(q, id, status), Max(peak, |Marked(q, id, status).Unfinished()|))
  {
    var m := Marked(q, id, status);
    assert m.records.Keys == q.records.Keys;
    assert |m.records| == |m.records.Keys| && |q.records| == |q.records.Keys|;
  }

  lemma NextIsBounded(w: World, e: Event)
    requires w.q.Valid() && Bounded(w.q, w.peak) && Enabled(w, e)
    ensures Bounded(NextQueue(w, e), Next(w, e).peak)
  {
    match e {
      case Enqueue(operation, path, source) => EnqueuedBound(w.q, operation, path, source, w.peak);
      case Open(operation, path, source) => RoomBound(w.q, NewRecord(operation, path, source), false, w.peak);
      case Pop => assert Popped(w.q).Unfinished() == w.q.Unfinished();
      case Start(id) => MarkedBound(w.q, id, Running, w.peak);
      case Finish(id) => MarkedBound(w.q, id, Finished, w.peak);
    }
  }

  lemma StepKeepsInvariant(w: World, e: Event, x: World)
    requires Invariant(w) && Stepped(w, e, x)
    ensures Invariant(x)
  {
    NextIsValid(w, e);
    NextIsBounded(w, e);
    forall p | p in x.owed ensures Covers(x.q, p) { NextCovers(w, e, p); }
  }

  /** In every world of every run each pending job has its record, the order lists
      exactly the records, every owed path is covered and the table is bounded. */
  lemma {:induction false} RunKeepsInvariant(ws: seq<World>, events: seq<Event>, i: nat)
    requires Run(ws, events) && i < |ws|
    ensures Invariant(ws[i])
  {
    if i > 0 {
      RunKeepsInvariant(ws, events, i - 1);
      StepKeepsInvariant(ws[i - 1], events[i - 1], ws[i]);
    }
  }

  predicate Takes(w: World, e: Event, p: string) {
    e == Pop && w.q.pending != [] && Subsumes(w.q.pending[0].dotPath, p)
  }

  lemma StepOwes(w: World, e: Event, x: World, p: string)
    requires w.q.Valid() && Stepped(w, e, x)
    requires (p in w.owed && !Takes(w, e, p)) || (e.Enqueue? && e.path == p && Segments(p).Some?)
    ensures p in x.owed
  {
  }

  lemma OwedIsPending(w: World, p: string)
    requires Invariant(w) && p in w.owed
    ensures w.q.pending != []
  {
    assert Covers(w.q, p);
  }

  lemma {:induction false} OwedIsTaken(ws: seq<World>, events: seq<Event>, i: nat, p: string) returns (j: nat)
    requires Run(ws, events) && i < |ws| && p in ws[i].owed && ws[|events|].q.pending == []
    ensures i <= j < |events| && Takes(ws[j], events[j], p)
    decreases |ws| - i
  {
    RunKeepsInvariant(ws, events, i);
    OwedIsPending(ws[i], p);
    if Takes(ws[i], events[i], p) {
      j := i;
    } else {
      StepOwes(ws[i], events[i], ws[i + 1], p);
      j := OwedIsTaken(ws, events, i + 1, p);
    }
  }

  /**
   No apply is lost: once the queue has drained, every well-formed path enqueued
   in a run was subsumed by a job popped after it was enqueued -- folded,
   broadened and overflowed as it may have been.
   */
  lemma NoLostApply(ws: seq<World>, events: seq<Event>, i: nat) returns (j: nat)
    requires Run(ws, events) && ws[|events|].q.pending == []
    requires i < |events| && events[i].Enqueue? && Segments(events[i].path).Some?
    ensures i < j < |events| && Takes(ws[j], events[j], events[i].path)
  {
    RunKeepsInvariant(ws, events, i);
    StepOwes(ws[i], events[i], ws[i + 1], events[i].path);
    j := OwedIsTaken(ws, events, i + 1, events[i].path);
  }

  // ----- nothing wider than asked

  /** The table is full, nothing in it has finished, and no pending job overlaps the path. */
  ghost predicate Overflows(w: World, e: Event) {
    e.Enqueue? && |w.q.records| >= 128 && NothingFinished(w.q) && Apart(w.q, e.path)
  }

  /** A path was enqueued by one of the events, or is the root's and an event overflowed. */
  ghost predicate AskedFor(ws: seq<World>, events: seq<Event>, i: nat, path: string)
    requires i <= |events| <= |ws|
  {
    || (exists j :: 0 <= j < i && events[j].Enqueue? && events[j].path == path)
    || (path == "" && exists j :: 0 <= j < i && Overflows(ws[j], events[j]))
  }

  lemma StepAsks(w: World, e: Event, k: nat)
    requires w.q.Valid() && Enabled(w, e) && k < |NextQueue(w, e).pending|
    ensures var path := NextQueue(w, e).pending[k].dotPath;
            || (exists j :: 0 <= j < |w.q.pending| && w.q.pending[j].dotPath == path)
            || (e.Enqueue? && e.path == path)
            || (path == "" && Overflows(w, e))
  {
    match e {
      case Enqueue(operation, path, source) => EnqueuedAsks(w, e, k);
      case _ =>
    }
  }

  lemma EnqueuedAsks(w: World, e: Event, k: nat)
    requires w.q.Valid() && e.Enqueue? && k < |Enqueued(w.q, e.operation, e.path, e.source).pending|
    ensures var path := Enqueued(w.q, e.operation, e.path, e.source).pending[k].dotPath;
            || (exists j :: 0 <= j < |w.q.pending| && w.q.pending[j].dotPath == path)
            || e.path == path
            || (path == "" && Overflows(w, e))
  {
    var q, i := w.q, FoldIndex(w.q.pending, e.path);
    if i == |q.pending| {
      forall n | 0 <= n < |q.pending| ensures !Overlap(q.pending[n].dotPath, e.path) {
        NoneFolds(q.pending, e.path, n);
        SubsumesShorter(q.pending[n].dotPath, e.path);
      }
      FinishedIndexIsOldest(q, 0);
    }
  }

  lemma {:induction false} NoneFolds(pending: seq<Job>, path: string, n: nat)
    requires n < |pending| && FoldIndex(pending, path) == |pending|
    ensures !Subsumes(pending[n].dotPath, path) && !Subsumes(path, pending[n].dotPath)
  {
    if n > 0 { NoneFolds(pending[1..], path, n - 1); }
  }

  /**
   In every run, each pending job has a path that was enqueued, character for character; a
   job of the whole tree that nobody asked for comes only of an overflow.
   */
  lemma {:induction false} JobsAreAskedFor(ws: seq<World>, events: seq<Event>, i: nat, k: nat)
    requires Run(ws, events) && i < |ws| && k < |ws[i].q.pending|
    ensures AskedFor(ws, events, i, ws[i].q.pending[k].dotPath)
  {
    if i > 0 {
      RunKeepsInvariant(ws, events, i - 1);
      var w, e, path := ws[i - 1], events[i - 1], ws[i].q.pending[k].dotPath;
      StepAsks(w, e, k);
      if j :| 0 <= j < |w.q.pending| && w.q.pending[j].dotPath == path {
        JobsAreAskedFor(ws, events, i - 1, j);
      }
    }
  }

  // ----- one worker

  /** Without tasks of its callers' own, and with a worker that finishes one job
      before it takes the next. */
  ghost predicate OneWorker(w: World, e: Event) {
    match e
    case Open(_, _, _) => false
    case Pop => forall id :: id in w.q.Unfinished() ==> w.q.IsPending(id)
    case Start(id) => id in w.q.Unfinished()
    case _ => true
  }

  /** At most one unfinished task is not pending, and the table is bounded. */
  ghost predicate Alone(q: Queue) {
    && (forall a, b :: a in q.Unfinished() && b in q.Unfinished() && !q.IsPending(a) && !q.IsPending(b) ==> a == b)
    && |q.records| <= MAX_TASKS
  }

  lemma FoldedAlone(q: Queue, i: nat, path: string)
    requires q.Valid() && Alone(q) && i < |q.pending|
    ensures Alone(q.Folded(i, path))
  {
    var f := q.Folded(i, path);
    FoldedValid(q, i, path);
    assert |f.records| == |f.records.Keys| && |q.records| == |q.records.Keys|;
    forall id | q.IsPending(id) ensures f.IsPending(id) {
      var k :| 0 <= k < |q.pending| && q.pending[k].id == id;
      assert f.pending[k].id == id;
    }
  }

  lemma AddedAlone(q: Queue, r: Record)
    requires q.Valid() && Alone(q) && r.status == Queued && |q.records| < MAX_TASKS
    ensures Alone(q.Added(r, true))
  {
    var a := q.Added(r, true);
    AddedValid(q, r, true);
    assert a.pending[|q.pending|].id == q.nextId + 1;
    forall id | q.IsPending(id) ensures a.IsPending(id) {
      var k :| 0 <= k < |q.pending| && q.pending[k].id == id;
      assert a.pending[k].id == id;
    }
  }

  lemma AtMostOne(s: set<nat>)
    requires forall a, b :: a in s && b in s ==> a == b
    ensures |s| <= 1
  {
    if a :| a in s { assert s == {a}; }
  }

  /** A full table with no finished task has a pending job to broaden. */
  lemma FullHasPending(q: Queue)
    requires q.Valid() && Alone(q) && |q.records| >= MAX_TASKS && FinishedIndex(q.order, q.records) == |q.order|
    ensures q.pending != []
  {
    AllUnfinished(q);
    if q.pending == [] { AtMostOne(q.Unfinished()); }
  }

  lemma EvictedAlone(q: Queue, i: nat)
    requires q.Valid() && Alone(q) && i < |q.order| && q.order[i] in q.records && q.records[q.order[i]].status == Finished
    ensures Alone(q.Evicted(i))
  {
    EvictedValid(q, i);
    assert forall id :: q.IsPending(id) <==> q.Evicted(i).IsPending(id);
  }

  lemma EnqueuedAlone(q: Queue, operation: string, path: string, source: string)
    requires q.Valid() && Alone(q)
    ensures Alone(Enqueued(q, operation, path, source))
  {
    var i, t := FoldIndex(q.pending, path), FinishedIndex(q.order, q.records);
    if i < |q.pending| {
      FoldedAlone(q, i, if Subsumes(path, q.pending[i].dotPath) then path else q.pending[i].dotPath);
    } else if |q.records| >= MAX_TASKS && t < |q.order| {
      EvictedValid(q, t);
      EvictedAlone(q, t);
      AddedAlone(q.Evicted(t), NewRecord(operation, path, source));
    } else if |q.records| >= MAX_TASKS {
      FullHasPending(q);
      FoldedAlone(q, 0, "");
    } else {
      AddedAlone(q, NewRecord(operation, path, source));
    }
  }

  lemma PoppedPending(q: Queue, id: nat)
    requires q.IsPending(id)
    ensures id == q.pending[0].id || Popped(q).IsPending(id)
  {
    var k :| 0 <= k < |q.pending| && q.pending[k].id == id;
    assert k == 0 || Popped(q).pending[k - 1].id == id;
  }

  lemma PoppedAlone(q: Queue)
    requires q.Valid() && Alone(q) && q.pending != [] && forall id :: id in q.Unfinished() ==> q.IsPending(id)
    ensures Alone(Popped(q))
  {
    var p := Popped(q);
    forall id | id in p.Unfinished() && !p.IsPending(id) ensures id == q.pending[0].id {
      assert id in q.Unfinished();
      PoppedPending(q, id);
    }
  }

  lemma MarkedAlone(q: Queue, id: nat, status: Status)
    requires q.Valid() && Alone(q) && (status == Finished || id in q.Unfinished())
    ensures Alone(Marked(q, id, status))
  {
    var m := Marked(q, id, status);
    assert m.records.Keys == q.records.Keys;
    assert |m.records| == |m.records.Keys| && |q.records| == |q.records.Keys|;
    assert forall x :: m.IsPending(x) <==> q.IsPending(x);
  }

  lemma StepKeepsAlone(w: World, e: Event, x: World)
    requires w.q.Valid() && Alone(w.q) && Stepped(w, e, x) && OneWorker(w, e)
    ensures Alone(x.q)
  {
    match e {
      case Enqueue(operation, path, source) => EnqueuedAlone(w.q, operation, path, source);
      case Pop => PoppedAlone(w.q);
      case Start(id) => MarkedAlone(w.q, id, Running);
      case Finish(id) => MarkedAlone(w.q, id, Finished);
    }
  }

  /** With one worker and no tasks of its callers' own, the table never exceeds 128 records. */
  lemma {:induction false} OneWorkerIsBounded(ws: seq<World>, events: seq<Event>, i: nat)
    requires Run(ws, events) && i < |ws| && forall k :: 0 <= k < |events| ==> OneWorker(ws[k], events[k])
    ensures Alone(ws[i].q) && |ws[i].q.records| <= MAX_TASKS
  {
    if i > 0 {
      RunKeepsInvariant(ws, events, i - 1);
      OneWorkerIsBounded(ws, events, i - 1);
      StepKeepsAlone(ws[i - 1], events[i - 1], ws[i]);
    }
  }

  // ----- the queue object

  lemma {:induction false} FoldIndexFrom(pending: seq<Job>, path: string, i: nat)
    requires i <= |pending|
    requires forall k :: 0 <= k < i ==> !Subsumes(pending[k].dotPath, path) && !Subsumes(path, pending[k].dotPath)
    ensures FoldIndex(pending, path) == i + FoldIndex(pending[i..], path)
  {
    if i > 0 {
      FoldIndexFrom(pending, path, i - 1);
      assert pending[i - 1..][1..] == pending[i..];
    } else {
      assert pending[0..] == pending;
    }
  }

  lemma {:induction false} FinishedIndexFrom(order: seq<nat>, records: map<nat, Record>, i: nat)
    requires i <= |order|
    requires forall k :: 0 <= k < i && order[k] in records ==> records[order[k]].status != Finished
    ensures FinishedIndex(order, records) == i + FinishedIndex(order[i..], records)
  {
    if i > 0 {
      FinishedIndexFrom(order, records, i - 1);
      assert order[i - 1..][1..] == order[i..];
    } else {
      assert order[0..] == order;
    }
  }

  class Tasks {
    var nextId: nat
    var pending: seq<Job>
    var order: seq<nat>
    var records: map<nat, Record>

    ghost function View(): Queue
      reads this
    {
      Queue(nextId, pending, order, records)
    }

    constructor ()
      ensures View() == EMPTY
    {
      nextId, pending, order, records := 0, [], [], map[];
    }

    method FindFold(path: string) returns (i: nat)
      ensures i == FoldIndex(pending, path)
    {
      i := 0;
      while i < |pending| && !Subsumes(pending[i].dotPath, path) && !Subsumes(path, pending[i].dotPath)
        invariant i <= |pending|
        invariant forall k :: 0 <= k < i ==> !Subsumes(pending[k].dotPath, path) && !Subsumes(path, pending[k].dotPath)
      {
        i := i + 1;
      }
      FoldIndexFrom(pending, path, i);
    }

    method FindFinished() returns (i: nat)
      ensures i == FinishedIndex(order, records)
    {
      i := 0;
      while i < |order| && !(order[i] in records && records[order[i]].status == Finished)
        invariant i <= |order|
        invariant forall k :: 0 <= k < i && order[k] in records ==> records[order[k]].status != Finished
      {
        i := i + 1;
      }
      FinishedIndexFrom(order, records, i);
    }

    method Append(operation: string, path: string, source: string) returns (id: nat)
      modifies this
      ensures View() == old(View()).Added(NewRecord(operation, path, source), false)
      ensures id == nextId
    {
      nextId := nextId + 1;
      id := nextId;
      order := order + [id];
      records := records[id := NewRecord(operation, path, source)];
    }

    method Push(operation: string, path: string, source: string) returns (id: nat)
      modifies this
      ensures View() == old(View()).Added(NewRecord(operation, path, source), true)
      ensures id == nextId && View().IsPending(id) && records[id].dotPath == path
    {
      id := Append(operation, path, source);
      pending := pending + [Job(id, path)];
      assert pending[|pending| - 1].id == id;
    }

    method Evict(index: nat)
      requires index < |order|
      modifies this
      ensures View() == old(View()).Evicted(index)
    {
      var id := order[index];
      order := order[..index] + order[index + 1..];
      records := records - {id};
    }

    method Fold(index: nat, path: string) returns (id: nat)
      requires index < |pending| && pending[index].id in records
      modifies this
      ensures View() == old(View()).Folded(index, path)
      ensures id == pending[index].id && View().IsPending(id) && id in records && records[id].dotPath == path
    {
      var job := pending[index];
      id := job.id;
      var r := records[id];
      pending := pending[index := job.(dotPath := path)];
      records := records[id := r.(dotPath := path, foldedCount := r.foldedCount + 1)];
    }

    /** `id` is the task that will apply the path, and `created` says it is new. */
    method Enqueue(operation: string, path: string, source: string) returns (id: nat, created: bool)
      requires View().Valid()
      modifies this
      ensures View() == Enqueued(old(View()), operation, path, source) && View().Valid()
      ensures View().IsPending(id) && id in records
      ensures created <==> id !in old(records)
      ensures if created then id == nextId == old(nextId) + 1
              else nextId == old(nextId) && records[id].foldedCount == old(records)[id].foldedCount + 1
      ensures Segments(path).Some? ==> Subsumes(records[id].dotPath, path)
    {
      EnqueuedValid(View(), operation, path, source);
      if Segments(path).Some? { RootSubsumes(path); }
      var index := FindFold(path);
      if index < |pending| {
        id := Fold(index, if Subsumes(path, pending[index].dotPath) then path else pending[index].dotPath);
        return id, false;
      }
      if |records| >= MAX_TASKS {
        var terminal := FindFinished();
        if terminal < |order| {
          EvictedValid(View(), terminal);
          Evict(terminal);
        } else if pending != [] {
          id := Fold(0, "");
          return id, false;
        }
      }
      id := Push(operation, path, source);
      created := true;
    }

    /** Record a task its caller runs itself. */
    method Open(operation: string, path: string, source: string) returns (id: nat)
      requires View().Valid()
      modifies this
      ensures View() == Opened(old(View()), operation, path, source) && View().Valid()
      ensures id in records && id !in old(records) && !View().IsPending(id)
    {
      OpenedValid(View(), operation, path, source);
      NewIdIsFree(View());
      if |records| >= MAX_TASKS {
        var terminal := FindFinished();
        if terminal < |order| {
          EvictedValid(View(), terminal);
          Evict(terminal);
        }
      }
      id := Append(operation, path, source);
    }

    method TakeNext() returns (job: Option<Job>)
      requires View().Valid()
      modifies this
      ensures View().Valid()
      ensures job == None <==> old(pending) == []
      ensures job == None ==> View() == old(View())
      ensures job.Some? ==> View() == Popped(old(View())) && job.value == old(pending)[0]
      ensures job.Some? ==> !View().IsPending(job.value.id) && records[job.value.id].dotPath == job.value.dotPath
    {
      if pending == [] { return None; }
      PoppedValid(View());
      job := Some(pending[0]);
      pending := pending[1..];
    }

    method Mark(id: nat, status: Status) returns (known: bool)
      requires View().Valid() && !View().IsPending(id)
      modifies this
      ensures View() == Marked(old(View()), id, status) && View().Valid()
      ensures known <==> id in records
      ensures pending == old(pending) && order == old(order) && nextId == old(nextId)
      ensures records == if known then old(records)[id := old(records)[id].(status := status)] else old(records)
    {
      MarkedValid(View(), id, status);
      known := id in records;
      if known { records := records[id := records[id].(status := status)]; }
    }

    /** The records in the order their tasks were made: none is missing. */
    method Snapshot() returns (list: seq<Record>)
      requires View().Valid()
      ensures |list| == |order|
      ensures forall k :: 0 <= k < |order| ==> order[k] in records && list[k] == records[order[k]]
    {
      list := [];
      for k := 0 to |order|
        invariant |list| == k
        invariant forall n :: 0 <= n < k ==> order[n] in records && list[n] == records[order[n]]
      {
        assert order[k] in order;
        if order[k] in records { list := list + [records[order[k]]]; }
      }
    }
  }
}
