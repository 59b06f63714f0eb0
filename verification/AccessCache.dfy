/**
 What apid's gate remembers of the `access` settings: a value is served only as long
 as every change of it would be heard of.
 */
module AccessCache {
  import opened Base
  import opened Runs
  import opened Signals
  import opened SettingsPath

  // ----- the cache

  datatype Inner = Inner(synchronised: bool, generation: nat, value: Option<Json>) {
    function Served(): Option<Json> {
      if synchronised then value else None
    }

    /** Keep what a read returned if nothing was heard since the generation was sampled. */
    function Filled(sampled: nat, read: Json): Inner {
      if synchronised && generation == sampled then this.(value := Some(read)) else this
    }

    function Invalidated(): Inner {
      this.(generation := generation + 1, value := None)
    }

    function Subscribed(): Inner {
      Inner(true, generation + 1, None)
    }

    function Lapsed(): Inner {
      Inner(false, generation + 1, None)
    }
  }

  class Cache {
    var synchronised: bool
    var generation: nat
    var value: Option<Json>

    ghost function State(): Inner
      reads this
    {
      Inner(synchronised, generation, value)
    }

    constructor ()
      ensures State() == Inner(false, 0, None)
    {
      synchronised, generation, value := false, 0, None;
    }

    method Get() returns (served: Option<Json>)
      ensures served == State().Served()
    {
      served := if synchronised then value else None;
    }

    method Fill(sampled: nat, read: Json)
      modifies this
      ensures State() == old(State()).Filled(sampled, read)
    {
      if synchronised && generation == sampled {
        value := Some(read);
      }
    }

    method Invalidate()
      modifies this
      ensures State() == old(State()).Invalidated()
    {
      generation := generation + 1;
      value := None;
    }

    method Subscribed()
      modifies this
      ensures State() == old(State()).Subscribed()
    {
      synchronised := true;
      generation := generation + 1;
      value := None;
    }

    method Lapsed()
      modifies this
      ensures State() == old(State()).Lapsed()
    {
      synchronised := false;
      generation := generation + 1;
      value := None;
    }
  }

  // ----- the world around it

  /** A value micad answered a direct read with, and when. */
  datatype Reply = Reply(value: Json, at: nat)

  /** A direct read in flight: the generation sampled before it, and its reply. */
  datatype Read = Read(sampled: nat, reply: Option<Reply>)

  /**
   micad's settings, the changes whose signal is not out yet, the stream, the cache
   and the direct reads in flight. Since the cache was last emptied, `lost` are the
   changes whose signal failed and `quoted` says that `access` was written in quotes.
   `now` counts steps; `barrier` is when the cache was last emptied and `readAt` when
   its value was read.
   */
  datatype World = World(
    settings: Json,
    outbox: seq<string>,
    lost: set<string>,
    quoted: bool,
    stream: Stream<string>,
    cache: Inner,
    inFlight: map<nat, Read>,
    now: nat,
    barrier: nat,
    readAt: nat)
  {
    function Access(): Option<Json> { GetAt(settings, [ACCESS_PATH]) }

    function Undelivered(): seq<string> { stream.Queue() + outbox }

    /** A change of `access` is on its way to the live subscription. */
    predicate ChangePending() {
      exists p :: p in Undelivered() && TouchesAccess(p)
    }

    /** Since the cache was last emptied, the signal of a change of `access` was never
        sent, or is one the filter does not take for it. */
    predicate ChangeMissed() {
      quoted || exists p :: p in lost && TouchesAccess(p)
    }

    function Emptied(c: Inner): World {
      this.(cache := c, barrier := now, lost := {}, quoted := false)
    }
  }

  datatype Event =
    | Write(path: string, value: Json)   // micad commits one path
    | ReplaceAll(tree: Json)             // micad commits a whole tree
    | Emit(index: nat)                   // a change's signal goes out
    | Lose(index: nat)                   // or fails
    | Open                               // a stream is established
    | Subscribe                          // and the cache is told
    | Deliver                            // the oldest signal arrives
    | Break                              // the stream dies
    | Lapse                              // and the cache is told
    | Forget                             // apid drops the value itself
    | Begin(id: nat)                     // a request samples the generation
    | Answer(id: nat)                    // micad reads `access` for it
    | Abandon(id: nat)                   // the read fails
    | Fill(id: nat)                      // its reply reaches the cache

  /** A path micad is written at. */
  predicate WritePath(path: string) {
    !IsRoot(path) && SplitPath(path).Some?
  }

  predicate Enabled(w: World, e: Event) {
    match e
    case Write(path, value) => WritePath(path) && SetAt(w.settings, SplitPath(path).value, value).Ok?
    case ReplaceAll(_) => true
    case Emit(i) => i < |w.outbox|
    case Lose(i) => i < |w.outbox|
    case Open => w.stream.Closed?
    case Subscribe => !w.stream.Closed? && !w.cache.synchronised
    case Deliver => w.stream.Live? && w.stream.queue != [] && w.cache.synchronised
    case Break => w.stream.Live?
    case Lapse => true
    case Forget => true
    case Begin(id) => id !in w.inFlight
    case Answer(id) => id in w.inFlight && w.inFlight[id].reply.None? && w.Access().Some?
    case Abandon(id) => id in w.inFlight
    case Fill(id) => id in w.inFlight && w.inFlight[id].reply.Some?
  }

  function Effect(w: World, e: Event): World
    requires Enabled(w, e)
  {
    match e
    case Write(path, value) =>
      w.(settings := SetAt(w.settings, SplitPath(path).value, value).value, outbox := w.outbox + [path],
         quoted := w.quoted || QuotesAccess(path))
    case ReplaceAll(tree) => w.(settings := tree, outbox := w.outbox + [""])
    case Emit(i) => w.(outbox := w.outbox[..i] + w.outbox[i + 1..], stream := w.stream.Sent(w.outbox[i]))
    case Lose(i) => w.(outbox := w.outbox[..i] + w.outbox[i + 1..], lost := w.lost + {w.outbox[i]})
    case Open => w.(stream := Live([]))
    case Subscribe => w.Emptied(w.cache.Subscribed())
    case Deliver =>
      var after := w.(stream := Live(w.stream.queue[1..]));
      if TouchesAccess(w.stream.queue[0]) then after.Emptied(w.cache.Invalidated()) else after
    case Break => w.(stream := Broken(w.stream.queue))
    case Lapse => w.(stream := Closed).Emptied(w.cache.Lapsed())
    case Forget => w.Emptied(w.cache.Invalidated())
    case Begin(id) => w.(inFlight := w.inFlight[id := Read(w.cache.generation, None)])
    case Answer(id) =>
      w.(inFlight := w.inFlight[id := w.inFlight[id].(reply := Some(Reply(w.Access().value, w.now)))])
    case Abandon(id) => w.(inFlight := w.inFlight - {id})
    case Fill(id) =>
      var r := w.inFlight[id];
      var stored := w.cache.synchronised && w.cache.generation == r.sampled;
      w.(inFlight := w.inFlight - {id},
         cache := w.cache.Filled(r.sampled, r.reply.value.value),
         readAt := if stored then r.reply.value.at else w.readAt)
  }

  function Next(w: World, e: Event): World
    requires Enabled(w, e)
  {
    Effect(w, e).(now := w.now + 1)
  }

  predicate Initial(w: World) {
    && w.outbox == [] && w.lost == {} && !w.quoted && w.stream == Closed && w.cache == Inner(false, 0, None)
    && w.inFlight == map[] && w.now == 1 && w.barrier == 0
  }

  function Step(w: World, e: Event): World { if Enabled(w, e) then Next(w, e) else w }

  const PROTOCOL := Machine(Enabled, Step)

  predicate Run(w: World, events: seq<Event>) { IsRun(PROTOCOL, w, events) }

  function Final(w: World, events: seq<Event>): World { End(PROTOCOL, w, events) }

  // ----- coherence

  ghost predicate Fresh(w: World, value: Json, at: nat) {
    (Some(value) == w.Access() || w.ChangePending() || w.ChangeMissed()) && w.barrier < at <= w.now
  }

  ghost predicate ReadSound(w: World, r: Read) {
    && r.sampled <= w.cache.generation
    && (r.reply.Some? && w.cache.synchronised && r.sampled == w.cache.generation ==>
          Fresh(w, r.reply.value.value, r.reply.value.at))
  }

  /** Every value that is cached, or still could be, is current or has a change
      on its way, and was read since the cache was last emptied. */
  ghost predicate Invariant(w: World) {
    && w.barrier < w.now
    && (w.cache.synchronised ==> !w.stream.Closed?)
    && (w.cache.value.Some? ==> w.cache.synchronised && Fresh(w, w.cache.value.value, w.readAt))
    && (forall id :: id in w.inFlight ==> ReadSound(w, w.inFlight[id]))
  }

  /** Taking one change out of the outbox leaves the others there. */
  lemma OthersStay(outbox: seq<string>, i: nat, p: string)
    requires i < |outbox| && p in outbox && p != outbox[i]
    ensures p in outbox[..i] + outbox[i + 1..]
  {
    var k :| 0 <= k < |outbox| && outbox[k] == p;
    assert (outbox[..i] + outbox[i + 1..])[if k < i then k else k - 1] == p;
  }

  /** A change on its way stays on its way, or is missed. */
  lemma PendingStays(w: World, e: Event)
    requires Enabled(w, e) && (e.Emit? || e.Lose?) && !w.stream.Closed?
    ensures w.ChangePending() ==> Next(w, e).ChangePending() || Next(w, e).ChangeMissed()
  {
    var x := Next(w, e);
    if w.ChangePending() {
      var p :| p in w.Undelivered() && TouchesAccess(p);
      if p in w.stream.Queue() {
        assert p in x.Undelivered();
      } else if p == w.outbox[e.index] {
        assert if e.Emit? then p in x.Undelivered() else p in x.lost;
      } else {
        OthersStay(w.outbox, e.index, p);
        assert p in x.Undelivered();
      }
    }
  }

  /** A write of `access` puts a change on its way. */
  lemma PendingGrows(w: World, e: Event)
    requires Enabled(w, e) && (e.Write? || e.ReplaceAll?) && !w.stream.Closed?
    ensures w.ChangePending() ==> Next(w, e).ChangePending()
    ensures Next(w, e).Access() != w.Access() ==> Next(w, e).ChangePending() || (e.Write? && QuotesAccess(e.path))
  {
    var x := Next(w, e);
    assert forall p :: p in w.Undelivered() ==> p in x.Undelivered();
    match e {
      case Write(path, value) =>
        assert path in x.Undelivered();
        if !TouchesAccess(path) && !QuotesAccess(path) { UntouchedAccess(w.settings, path, value); }
      case ReplaceAll(tree) =>
        assert "" in x.Undelivered() && TouchesAccess("");
    }
  }

  lemma DeliveredUnseen(w: World)
    requires Enabled(w, Deliver) && !TouchesAccess(w.stream.queue[0])
    ensures w.ChangePending() ==> Next(w, Deliver).ChangePending()
  {
    var x := Next(w, Deliver);
    assert w.Undelivered() == [w.stream.queue[0]] + x.Undelivered();
  }

  lemma StepKeepsInvariant(w: World, e: Event)
    requires Invariant(w) && Enabled(w, e)
    ensures Invariant(Next(w, e))
  {
    var x := Next(w, e);
    match e {
      case Write(_, _) => if w.cache.synchronised { PendingGrows(w, e); }
      case ReplaceAll(_) => if w.cache.synchronised { PendingGrows(w, e); }
      case Emit(_) => if w.cache.synchronised { PendingStays(w, e); }
      case Lose(_) => if w.cache.synchronised { PendingStays(w, e); }
      case Break => assert x.Undelivered() == w.Undelivered();
      case Deliver => if !TouchesAccess(w.stream.queue[0]) { DeliveredUnseen(w); }
      case Begin(_) => assert x.Undelivered() == w.Undelivered();
      case Answer(_) => assert x.Undelivered() == w.Undelivered();
      case Abandon(_) => assert x.Undelivered() == w.Undelivered();
      case Fill(_) => assert x.Undelivered() == w.Undelivered();
      case _ =>
    }
  }

  lemma {:induction false} RunKeepsInvariant(w: World, events: seq<Event>)
    requires Invariant(w) && Run(w, events)
    ensures Invariant(Final(w, events)) && w.barrier <= Final(w, events).barrier
    decreases |events|
  {
    if events != [] {
      StepKeepsInvariant(w, events[0]);
      RunKeepsInvariant(Next(w, events[0]), events[1..]);
    }
  }

  /**
   Over every interleaving of writes, signals, reads, lapses and
   resubscriptions: a served value that is not micad's current one has a change of
   `access` still on its way to the live subscription, unless one was missed since the
   cache was last emptied.
   */
  lemma CacheCoherence(w: World, events: seq<Event>)
    requires Initial(w) && Run(w, events)
    ensures var x := Final(w, events);
            x.cache.Served().Some? && x.cache.Served() != x.Access() ==>
              !x.stream.Closed? && (x.ChangePending() || x.ChangeMissed())
  {
    RunKeepsInvariant(w, events);
  }

  /** An event that empties the cache: a lapse, a new subscription, an
      invalidation by apid or by a delivered change of `access`. */
  predicate Empties(w: World, e: Event) {
    || e.Lapse? || e.Subscribe? || e.Forget?
    || (e.Deliver? && Enabled(w, e) && TouchesAccess(w.stream.queue[0]))
  }

  /** Nothing read before the cache was emptied is served at any time after. */
  lemma NothingOlderIsServed(w: World, first: seq<Event>, e: Event, second: seq<Event>)
    requires Initial(w) && Run(w, first + ([e] + second))
    requires Run(w, first) && Empties(Final(w, first), e)
    ensures var x := Final(w, first + ([e] + second));
            x.cache.Served().Some? ==> Final(w, first).now < x.readAt
  {
    Parts(PROTOCOL, w, first, [e] + second);
    RunKeepsInvariant(w, first);
    var m := Final(w, first);
    OneFirst(PROTOCOL, m, e, second);
    StepKeepsInvariant(m, e);
    RunKeepsInvariant(Next(m, e), second);
  }

  // ----- a change that is missed

  /**
   Exactly when a change of `access` is heard of, from every world that serves the current
   value: the old value is served until then, and its change is on its way if and only if
   its signal is sent and the path does not quote `access`.
   */
  lemma ChangeIsHeardExactly(w: World, e: Event, sent: bool)
    requires Invariant(w) && w.cache.Served().Some? && w.cache.Served() == w.Access() && !w.ChangePending()
    requires (e.Write? || e.ReplaceAll?) && Enabled(w, e) && Next(w, e).Access() != w.Access()
    ensures var f := if sent then Emit(|w.outbox|) else Lose(|w.outbox|);
            && Enabled(Next(w, e), f)
            && var x := Next(Next(w, e), f);
               && x.cache.Served() == w.Access() != x.Access()
               && (x.ChangePending() <==> sent && !(e.Write? && QuotesAccess(e.path)))
  {
    var y, path := Next(w, e), if e.Write? then e.path else "";
    var x := Next(y, if sent then Emit(|w.outbox|) else Lose(|w.outbox|));
    assert y.outbox == w.outbox + [path];
    assert y.outbox[..|w.outbox|] + y.outbox[|w.outbox| + 1..] == w.outbox;
    SentJoins(w, path, x, sent);
    if e.Write? {
      SplitIsPlain(path);
      TouchesAccessExactly(path);
      if !TouchesAccess(path) && !QuotesAccess(path) { UntouchedAccess(w.settings, path, e.value); }
    }
  }

  /** With nothing pending, a change is pending exactly if its signal was sent and matches. */
  lemma SentJoins(w: World, path: string, x: World, sent: bool)
    requires !w.ChangePending() && !w.stream.Closed? && x.outbox == w.outbox
    requires x.stream.Queue() == if sent then w.stream.Queue() + [path] else w.stream.Queue()
    ensures x.ChangePending() <==> sent && TouchesAccess(path)
  {
    if sent { assert path in x.Undelivered(); }
    forall p | p in x.Undelivered() && p != path ensures p in w.Undelivered() {
    }
    if !sent { assert x.Undelivered() == w.Undelivered(); }
  }

  /** From every world, whatever was missed, a new subscription and one read through it
      serve the current value with nothing missed. */
  lemma ResubscribingHeals(w: World, id: nat)
    requires Invariant(w) && id !in w.inFlight && w.Access().Some?
    ensures var events := [Lapse, Open, Subscribe, Begin(id), Answer(id), Fill(id)];
            && Run(w, events)
            && var x := Final(w, events);
               x.cache.Served() == w.Access() == x.Access() && !x.ChangeMissed() && x.stream == Live([]) && x.outbox == w.outbox
  {
    var first: seq<Event>, second: seq<Event> := [Lapse, Open, Subscribe], [Begin(id), Answer(id), Fill(id)];
    Resubscribes(w);
    ReadHeals(Final(w, first), id);
    Parts(PROTOCOL, w, first, second);
    assert first + second == [Lapse, Open, Subscribe, Begin(id), Answer(id), Fill(id)];
  }

  lemma Resubscribes(w: World)
    ensures var events := [Lapse, Open, Subscribe];
            && Run(w, events)
            && var x := Final(w, events);
               && x.cache.synchronised && x.inFlight == w.inFlight && x.settings == w.settings && !x.ChangeMissed()
               && x.stream == Live([]) && x.outbox == w.outbox
  {
    var a := Next(w, Lapse);
    var b := Next(a, Open);
    assert Run(Next(b, Subscribe), []);
    OneFirst(PROTOCOL, b, Subscribe, []);
    OneFirst(PROTOCOL, a, Open, [Subscribe] + []);
    OneFirst(PROTOCOL, w, Lapse, [Open] + ([Subscribe] + []));
    assert [Lapse] + ([Open] + ([Subscribe] + [])) == [Lapse, Open, Subscribe];
  }

  lemma ReadHeals(a: World, id: nat)
    requires a.cache.synchronised && id !in a.inFlight && a.Access().Some?
    ensures var events := [Begin(id), Answer(id), Fill(id)];
            && Run(a, events)
            && var x := Final(a, events);
               x.cache.Served() == a.Access() == x.Access() && x.lost == a.lost && x.quoted == a.quoted
               && x.stream == a.stream && x.outbox == a.outbox
  {
    var b := Next(a, Begin(id));
    var c := Next(b, Answer(id));
    assert Run(Next(c, Fill(id)), []);
    OneFirst(PROTOCOL, c, Fill(id), []);
    OneFirst(PROTOCOL, b, Answer(id), [Fill(id)] + []);
    OneFirst(PROTOCOL, a, Begin(id), [Answer(id)] + ([Fill(id)] + []));
    assert [Begin(id)] + ([Answer(id)] + ([Fill(id)] + [])) == [Begin(id), Answer(id), Fill(id)];
  }

  function Start(access: Json): World {
    World(Object(map[ACCESS_PATH := access]), [], {}, false, Closed, Inner(false, 0, None), map[], 1, 0, 0)
  }

  lemma AccessOf(value: Json)
    ensures GetAt(Object(map[ACCESS_PATH := value]), [ACCESS_PATH]) == Some(value)
  {
    assert [ACCESS_PATH][1..] == [];
  }

  /** A value is read and cached; then it is replaced and the signal fails: the old value
      is served with nothing on its way. */
  lemma LostSignalServesOld(was: Json, now: Json) returns (events: seq<Event>)
    requires was != now
    ensures Run(Start(was), events)
    ensures var x := Final(Start(was), events);
            x.cache.Served() == Some(was) && x.Access() == Some(now) && !x.ChangePending()
  {
    var w, replaced := Start(was), Object(map[ACCESS_PATH := now]);
    AccessOf(was);
    AccessOf(now);
    events := CachesAccess(w);
    var x := Final(w, events);
    RunKeepsInvariant(w, events);
    ChangeIsHeardExactly(x, ReplaceAll(replaced), false);
    var y := Next(x, ReplaceAll(replaced));
    assert Run(Next(y, Lose(0)), []);
    OneFirst(PROTOCOL, y, Lose(0), []);
    OneFirst(PROTOCOL, x, ReplaceAll(replaced), [Lose(0)] + []);
    Parts(PROTOCOL, w, events, [ReplaceAll(replaced)] + ([Lose(0)] + []));
    events := events + ([ReplaceAll(replaced)] + ([Lose(0)] + []));
  }

  lemma CachesAccess(w: World) returns (events: seq<Event>)
    requires Initial(w) && w.Access().Some?
    ensures Run(w, events)
    ensures var x := Final(w, events);
            x.cache.Served() == w.Access() == x.Access() && x.outbox == [] && x.stream == Live([]) && !x.ChangePending()
  {
    ResubscribingHeals(w, 0);
    events := [Lapse, Open, Subscribe, Begin(0), Answer(0), Fill(0)];
    assert Final(w, events).Undelivered() == [];
  }
}
