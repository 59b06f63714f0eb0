/**
 apid's mirror of micad's apply-task records, fed by signals and by direct reads
 that may overtake them.
 */
module TaskRegistry {
  import opened Base

  const MAX_TASKS: nat := 128

  /** A task record. Ids and times stand for micad's strings, in their order. */
  datatype Task = Task(id: nat, enqueuedAt: nat, status: string, outcome: string)

  /** What a record of an id micad no longer knows is taken to have come to. */
  function Interrupted(t: Task): Task {
    if t.status == "finished" then t else t.(status := "finished", outcome := "interrupted")
  }

  // ----- the mirror

  function Ids(ts: seq<Task>): seq<nat> {
    seq(|ts|, i requires 0 <= i < |ts| => ts[i].id)
  }

  function ById(ts: seq<Task>): map<nat, Task> {
    if ts == [] then map[] else ById(ts[..|ts| - 1])[ts[|ts| - 1].id := ts[|ts| - 1]]
  }

  function Newest(ts: seq<Task>): seq<Task> {
    if |ts| > MAX_TASKS then ts[|ts| - MAX_TASKS..] else ts
  }

  predicate Unique<T(==)>(s: seq<T>) {
    forall i, j :: 0 <= i < j < |s| ==> s[i] != s[j]
  }

  /** The ids of a list, each with the record of that id. */
  predicate Keyed(m: map<nat, Task>) {
    forall id :: id in m ==> m[id].id == id
  }

  predicate IsOldest(m: map<nat, Task>, a: nat) {
    a in m && forall b :: b in m ==>
      m[a].enqueuedAt < m[b].enqueuedAt || (m[a].enqueuedAt == m[b].enqueuedAt && a <= b)
  }

  lemma {:induction false} OldestExists(m: map<nat, Task>)
    requires m != map[]
    ensures exists a :: IsOldest(m, a)
    decreases |m|
  {
    var x :| x in m;
    var rest := m - {x};
    assert forall b :: b in m ==> b == x || b in rest;
    if rest == map[] {
      assert IsOldest(m, x);
    } else {
      assert rest.Keys == m.Keys - {x};
      OldestExists(rest);
      var y :| IsOldest(rest, y);
      if m[x].enqueuedAt < m[y].enqueuedAt || (m[x].enqueuedAt == m[y].enqueuedAt && x <= y) {
        assert IsOldest(m, x);
      } else {
        assert IsOldest(m, y);
      }
    }
  }

  /** The records kept of a lapsed subscription: the oldest go first. */
  function Trimmed(m: map<nat, Task>): (t: map<nat, Task>)
    ensures |t| <= MAX_TASKS && forall id :: id in t ==> id in m && t[id] == m[id]
    decreases |m|
  {
    if |m| <= MAX_TASKS then m
    else
      OldestExists(m);
      var a :| IsOldest(m, a);
      assert (m - {a}).Keys == m.Keys - {a};
      Trimmed(m - {a})
  }

  lemma TrimStep(m: map<nat, Task>, a: nat)
    requires |m| > MAX_TASKS && IsOldest(m, a)
    ensures Trimmed(m) == Trimmed(m - {a}) && |m - {a}| < |m|
  {
    assert (m - {a}).Keys == m.Keys - {a};
  }

  datatype Mirror = Mirror(
    synchronised: bool,
    snapshotLoaded: bool,
    generation: nat,
    tasks: map<nat, Task>,
    order: seq<nat>,
    stale: map<nat, Task>)
  {
    function Evicted(): Mirror
      decreases |order|
    {
      if |tasks| > MAX_TASKS && order != [] then
        this.(tasks := tasks - {order[0]}, order := order[1..]).Evicted()
      else this
    }

    function Inserted(t: Task): Mirror {
      this.(order := if t.id in tasks then order else order + [t.id], tasks := tasks[t.id := t]).Evicted()
    }

    function Filled(sampled: nat, t: Task): Mirror {
      if synchronised && generation == sampled then this.(stale := stale - {t.id}).Inserted(t) else this
    }

    function FilledList(sampled: nat, ts: seq<Task>): Mirror {
      if synchronised && generation == sampled then
        var kept := Newest(ts);
        this.(stale := stale - (set id | id in Ids(kept)), order := Ids(kept), tasks := ById(kept), snapshotLoaded := true)
      else this
    }

    function Updated(t: Task): Mirror {
      if synchronised then this.(generation := generation + 1, stale := stale - {t.id}).Inserted(t) else this
    }

    function Subscribed(): Mirror {
      Mirror(true, false, generation + 1, map[], [], stale)
    }

    function Lapsed(): Mirror {
      Mirror(false, false, generation + 1, map[], [], Trimmed(stale + tasks))
    }

    function Got(id: nat): Option<Task> {
      if synchronised && id in tasks then Some(tasks[id]) else None
    }

    /** The order lists the ids of the records, each once, within the bound. */
    ghost predicate Matched() {
      && Unique(order) && Keyed(tasks) && |order| <= 128
      && forall id :: id in order <==> id in tasks
    }
  }

  lemma {:induction false} OrderCounts(m: map<nat, Task>, order: seq<nat>)
    requires Unique(order) && forall id :: id in order <==> id in m
    ensures |m| == |order|
    decreases |order|
  {
    if order == [] {
      assert m.Keys == {};
      assert |m| == |m.Keys|;
    } else {
      var last := order[|order| - 1];
      var rest := order[..|order| - 1];
      assert order == rest + [last] && last !in rest;
      assert (m - {last}).Keys == m.Keys - {last};
      OrderCounts(m - {last}, rest);
    }
  }

  /** A mirror one record over its bound loses its oldest. */
  lemma EvictOne(n: Mirror)
    requires Unique(n.order) && Keyed(n.tasks) && |n.order| == MAX_TASKS + 1
    requires forall id :: id in n.order <==> id in n.tasks
    ensures n.Evicted() == n.(tasks := n.tasks - {n.order[0]}, order := n.order[1..])
    ensures n.Evicted().Matched()
  {
    var k := n.(tasks := n.tasks - {n.order[0]}, order := n.order[1..]);
    assert n.order == [n.order[0]] + k.order;
    assert forall id :: id in k.order <==> id in k.tasks;
    OrderCounts(n.tasks, n.order);
    OrderCounts(k.tasks, k.order);
    assert k.Evicted() == k;
  }

  /** The records and the order after an insertion, spelled out. */
  function AfterInsert(m: Mirror, t: Task): Mirror
    requires m.Matched()
  {
    if t.id in m.tasks then m.(tasks := m.tasks[t.id := t])
    else if |m.order| < 128 then m.(tasks := m.tasks[t.id := t], order := m.order + [t.id])
    else m.(tasks := m.tasks[t.id := t] - {m.order[0]}, order := m.order[1..] + [t.id])
  }

  lemma ReplaceInPlace(m: Mirror, t: Task)
    requires m.Matched() && t.id in m.tasks
    ensures m.Inserted(t) == AfterInsert(m, t) && m.Inserted(t).Matched()
  {
    var n := m.(tasks := m.tasks[t.id := t]);
    assert forall id :: id in n.order <==> id in n.tasks;
    OrderCounts(n.tasks, n.order);
    assert n.Evicted() == n;
  }

  lemma AppendBelowBound(m: Mirror, t: Task)
    requires m.Matched() && t.id !in m.tasks && |m.order| < MAX_TASKS
    ensures m.Inserted(t) == AfterInsert(m, t) && m.Inserted(t).Matched()
  {
    var n := m.(tasks := m.tasks[t.id := t], order := m.order + [t.id]);
    AppendMatches(m, t);
    OrderCounts(n.tasks, n.order);
    assert n.Evicted() == n;
  }

  lemma AppendAtBound(m: Mirror, t: Task)
    requires m.Matched() && t.id !in m.tasks && |m.order| == MAX_TASKS
    ensures m.Inserted(t) == AfterInsert(m, t) && m.Inserted(t).Matched()
  {
    var n := m.(tasks := m.tasks[t.id := t], order := m.order + [t.id]);
    AppendMatches(m, t);
    EvictOne(n);
    assert n.order[1..] == m.order[1..] + [t.id] && n.order[0] == m.order[0];
    assert n.Evicted() == AfterInsert(m, t);
  }

  /** An insertion evicts at most the oldest record. */
  lemma InsertEvictsOldest(m: Mirror, t: Task)
    requires m.Matched()
    ensures m.Inserted(t) == AfterInsert(m, t) && m.Inserted(t).Matched()
  {
    if t.id in m.tasks { ReplaceInPlace(m, t); }
    else if |m.order| < MAX_TASKS { AppendBelowBound(m, t); }
    else { AppendAtBound(m, t); }
  }

  /** Inserting keeps the order and the records matched; the inserted record is
      there, the others are as they were. */
  lemma InsertKeepsMatched(m: Mirror, t: Task)
    requires m.Matched()
    ensures var n := m.Inserted(t);
            && n.Matched()
            && n == m.(tasks := n.tasks, order := n.order)
            && t.id in n.tasks && n.tasks[t.id] == t
            && (forall id :: id in n.tasks && id != t.id ==> id in m.tasks && n.tasks[id] == m.tasks[id])
  {
    InsertEvictsOldest(m, t);
    if t.id !in m.tasks && |m.order| == MAX_TASKS {
      assert m.order[0] in m.order;
    }
  }

  lemma AppendMatches(m: Mirror, t: Task)
    requires m.Matched() && t.id !in m.tasks
    ensures Unique(m.order + [t.id]) && Keyed(m.tasks[t.id := t])
    ensures forall id :: id in m.order + [t.id] <==> id in m.tasks[t.id := t]
  {
  }

  lemma {:induction false} ByIdOf(ts: seq<Task>)
    ensures Keyed(ById(ts))
    ensures forall id :: id in Ids(ts) <==> id in ById(ts)
    ensures forall id :: id in ById(ts) ==> ById(ts)[id] in ts
  {
    if ts != [] {
      var init, last := ts[..|ts| - 1], ts[|ts| - 1];
      ByIdOf(init);
      assert Ids(ts) == Ids(init) + [last.id];
      assert ts == init + [last];
    }
  }

  /** A snapshot's mirror is matched exactly when the ids it keeps are distinct. */
  lemma SnapshotMatched(m: Mirror, ts: seq<Task>)
    requires m.synchronised
    ensures m.FilledList(m.generation, ts).Matched() <==> Unique(Ids(Newest(ts)))
  {
    ByIdOf(Newest(ts));
  }

  lemma {:induction false} ByIdLast(ts: seq<Task>, i: nat)
    requires i < |ts| && forall j :: i < j < |ts| ==> ts[j].id != ts[i].id
    ensures ts[i].id in ById(ts) && ById(ts)[ts[i].id] == ts[i]
  {
    if i < |ts| - 1 { ByIdLast(ts[..|ts| - 1], i); }
  }

  /** A snapshot leaves the newest 128 of its tasks, in their order and the last of each id,
      and what was kept of those ids before is forgotten. */
  lemma SnapshotKeepsNewest(m: Mirror, ts: seq<Task>, i: nat)
    requires m.synchronised
    ensures var n, kept := m.FilledList(m.generation, ts), if |ts| > 128 then ts[|ts| - 128..] else ts;
            && n.snapshotLoaded && |n.order| == |kept|
            && (i < |kept| ==> n.order[i] == kept[i].id && kept[i].id !in n.stale)
            && (i < |kept| && (forall j :: i < j < |kept| ==> kept[j].id != kept[i].id) ==>
                  kept[i].id in n.tasks && n.tasks[kept[i].id] == kept[i])
            && (forall id :: id in n.stale <==> id in m.stale && id !in n.order)
  {
    var n, kept := m.FilledList(m.generation, ts), if |ts| > 128 then ts[|ts| - 128..] else ts;
    assert Newest(ts) == kept && n.order == Ids(kept);
    if i < |kept| {
      assert Ids(kept)[i] == kept[i].id && kept[i].id in Ids(kept);
      if forall j :: i < j < |kept| ==> kept[j].id != kept[i].id { ByIdLast(kept, i); }
    }
  }

  // ----- what outlives a subscription

  predicate Older(m: map<nat, Task>, a: nat, b: nat)
    requires a in m && b in m
  {
    m[a].enqueuedAt < m[b].enqueuedAt || (m[a].enqueuedAt == m[b].enqueuedAt && a < b)
  }

  lemma {:induction false} TrimmedExactly(m: map<nat, Task>)
    ensures |Trimmed(m)| == if |m| <= 128 then |m| else 128
    ensures forall a, b :: a in m && a !in Trimmed(m) && b in Trimmed(m) ==> Older(m, a, b)
    decreases |m|
  {
    if |m| > 128 {
      OldestExists(m);
      var a :| IsOldest(m, a);
      var rest := m - {a};
      TrimStep(m, a);
      assert rest.Keys == m.Keys - {a};
      TrimmedExactly(rest);
      forall c, b | c in m && c !in Trimmed(m) && b in Trimmed(m) ensures Older(m, c, b) {
        if c != a { assert c in rest && Older(rest, c, b); }
      }
    }
  }

  /** A lapse keeps what was last seen of every task, mirrored or from before, and of more
      than 128 only the newest. */
  lemma LapseKeepsLastSeen(m: Mirror, id: nat)
    ensures var seen, n := m.stale.Keys + m.tasks.Keys, m.Lapsed();
            && n.Got(id) == None && n.generation > m.generation
            && |n.stale| == (if |seen| <= 128 then |seen| else 128)
            && (id in n.stale ==> id in seen && n.stale[id] == if id in m.tasks then m.tasks[id] else m.stale[id])
            && (forall a, b :: a in seen && a !in n.stale && b in n.stale ==> Older(m.stale + m.tasks, a, b))
  {
    var all := m.stale + m.tasks;
    assert all.Keys == m.stale.Keys + m.tasks.Keys;
    assert |all| == |all.Keys|;
    TrimmedExactly(all);
  }

  /** A task seen again is no longer one that is only remembered; a new subscription
      remembers what the old one did. */
  lemma SeenIsNotStale(m: Mirror, t: Task)
    ensures m.Subscribed().stale == m.stale
    ensures m.synchronised ==> m.Updated(t).stale == m.stale - {t.id} == m.Filled(m.generation, t).stale
    ensures !m.synchronised ==> m.Updated(t) == m == m.Filled(m.generation, t)
  {
    EvictKeepsStale(m.(generation := m.generation + 1, stale := m.stale - {t.id}), t);
    EvictKeepsStale(m.(stale := m.stale - {t.id}), t);
  }

  lemma EvictKeepsStale(m: Mirror, t: Task)
    ensures m.Inserted(t).stale == m.stale
  {
    EvictedStale(m.(order := if t.id in m.tasks then m.order else m.order + [t.id], tasks := m.tasks[t.id := t]));
  }

  lemma {:induction false} EvictedStale(m: Mirror)
    ensures m.Evicted().stale == m.stale
    decreases |m.order|
  {
    if |m.tasks| > MAX_TASKS && m.order != [] {
      EvictedStale(m.(tasks := m.tasks - {m.order[0]}, order := m.order[1..]));
    }
  }

  // ----- the registry, updated in place

  class Registry {
    var synchronised: bool
    var snapshotLoaded: bool
    var generation: nat
    var tasks: map<nat, Task>
    var order: seq<nat>
    var stale: map<nat, Task>

    ghost function State(): Mirror
      reads this
    {
      Mirror(synchronised, snapshotLoaded, generation, tasks, order, stale)
    }

    constructor ()
      ensures State() == Mirror(false, false, 0, map[], [], map[])
    {
      synchronised, snapshotLoaded, generation := false, false, 0;
      tasks, order, stale := map[], [], map[];
    }

    method Insert(t: Task)
      modifies this
      ensures State() == old(State()).Inserted(t)
    {
      if t.id !in tasks {
        order := order + [t.id];
      }
      tasks := tasks[t.id := t];
      while |tasks| > MAX_TASKS && order != []
        invariant State().Evicted() == old(State()).Inserted(t)
        decreases |order|
      {
        tasks := tasks - {order[0]};
        order := order[1..];
      }
    }

    method Get(id: nat) returns (t: Option<Task>)
      ensures t == State().Got(id)
    {
      t := if synchronised && id in tasks then Some(tasks[id]) else None;
    }

    /** The records in micad's order, once a snapshot was loaded. */
    method List() returns (ts: Option<seq<Task>>)
      ensures ts.Some? <==> synchronised && snapshotLoaded
      ensures ts.Some? && State().Matched() ==> Ids(ts.value) == order && ById(ts.value) == tasks
    {
      if !(synchronised && snapshotLoaded) {
        return None;
      }
      var found: seq<Task> := [];
      var i := 0;
      while i < |order|
        invariant 0 <= i <= |order|
        invariant State().Matched() ==>
                    Ids(found) == order[..i] && forall t :: t in found ==> t.id in tasks && tasks[t.id] == t
      {
        if order[i] in tasks {
          found := found + [tasks[order[i]]];
        }
        i := i + 1;
      }
      ByIdOf(found);
      assert order[..i] == order;
      ts := Some(found);
    }

    method Fill(sampled: nat, t: Task)
      modifies this
      ensures State() == old(State()).Filled(sampled, t)
    {
      if synchronised && generation == sampled {
        stale := stale - {t.id};
        Insert(t);
      }
    }

    method FillList(sampled: nat, ts: seq<Task>)
      modifies this
      ensures State() == old(State()).FilledList(sampled, ts)
    {
      if synchronised && generation == sampled {
        var kept := Newest(ts);
        var ids, byId: map<nat, Task>, left := [], map[], stale;
        var i := 0;
        while i < |kept|
          invariant 0 <= i <= |kept|
          invariant ids == Ids(kept[..i]) && byId == ById(kept[..i])
          invariant left == stale - (set id | id in Ids(kept[..i]))
        {
          assert kept[..i + 1][..i] == kept[..i];
          assert Ids(kept[..i + 1]) == Ids(kept[..i]) + [kept[i].id];
          ids, byId, left := ids + [kept[i].id], byId[kept[i].id := kept[i]], left - {kept[i].id};
          i := i + 1;
        }
        assert kept[..i] == kept;
        stale, order, tasks, snapshotLoaded := left, ids, byId, true;
      }
    }

    method Update(t: Task)
      modifies this
      ensures State() == old(State()).Updated(t)
    {
      if synchronised {
        generation := generation + 1;
        stale := stale - {t.id};
        Insert(t);
      }
    }

    method Subscribed()
      modifies this
      ensures State() == old(State()).Subscribed()
    {
      synchronised, snapshotLoaded, generation := true, false, generation + 1;
      tasks, order := map[], [];
    }

    method Lapsed()
      modifies this
      ensures State() == old(State()).Lapsed()
    {
      synchronised, snapshotLoaded, generation := false, false, generation + 1;
      stale := TrimOldest(stale + tasks);
      tasks, order := map[], [];
    }
  }

  /** Drop the oldest records down to the bound. */
  method TrimOldest(m: map<nat, Task>) returns (kept: map<nat, Task>)
    ensures kept == Trimmed(m)
  {
    kept := m;
    while |kept| > MAX_TASKS
      invariant Trimmed(kept) == Trimmed(m)
      decreases |kept|
    {
      OldestExists(kept);
      var oldest :| IsOldest(kept, oldest);
      TrimStep(kept, oldest);
      kept := kept - {oldest};
    }
  }
}
