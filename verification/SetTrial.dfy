/**
 Core sets on trial. A boot counts against the trial before the new set is composed,
 so one that breaks the device uses its boots up.
 */
module SetTrial {
  import opened Base

  const TRIAL_ATTEMPTS: nat := 3

  type Id = string

  datatype Kind = Core

  datatype Trial = Trial(kind: Kind, id: Id, attemptsLeft: nat)

  /** The sets a device holds. */
  datatype Sets = Sets(current: Option<Id>, pending: Option<Id>, pair: Option<Id>, bound: map<Id, Id>) {
    /** Whose boot composes the pending set, if a deployment came with it. */
    function Paired(): Option<Id> { if pending.Some? then pair else None }
  }

  /** How replacing the trial file ends: done, reported as failed with either content
      left, or cut by a power loss with either content left. */
  datatype Write = Done | Failed(kept: bool) | Cut(kept: bool)

  function Replaced(was: Option<Trial>, now: Option<Trial>, w: Write): Option<Trial> {
    match w
    case Done => now
    case Failed(kept) => if kept then was else now
    case Cut(kept) => if kept then was else now
  }

  predicate Applies(trial: Option<Trial>, kind: Kind, pending: Id) {
    trial.Some? && trial.value.kind == kind && trial.value.id == pending && trial.value.attemptsLeft > 0
  }

  function Spent(trial: Option<Trial>, kind: Kind, pending: Id, w: Write): Option<Trial> {
    if Applies(trial, kind, pending) then
      Replaced(trial, Some(trial.value.(attemptsLeft := trial.value.attemptsLeft - 1)), w)
    else trial
  }

  // ----- what a boot composes

  datatype Composition = Composition(id: Id, pending: bool, paired: bool)

  /** What a boot of `deployment` composes; nothing when power is lost. */
  datatype Outcome = Composed(c: Composition) | Refused | Lost

  function Must(id: Id, usable: set<Id>, pending: bool, paired: bool): Outcome {
    if id in usable then Composed(Composition(id, pending, paired)) else Refused
  }

  /** A boot asks for a boot of the trial when the pending set stands alone and
      nothing is bound to the deployment. */
  predicate Tries(sets: Sets, deployment: Id) {
    sets.pending.Some? && sets.Paired() == None && deployment !in sets.bound
  }

  function Boots(sets: Sets, trial: Option<Trial>, deployment: Id, usable: set<Id>, w: Write): Outcome {
    if sets.pending.Some? && sets.Paired() == Some(deployment) then Must(sets.pending.value, usable, true, true)
    else if deployment in sets.bound then Must(sets.bound[deployment], usable, false, false)
    else if Tries(sets, deployment) && Applies(trial, Core, sets.pending.value) && w.Cut? then Lost
    else if Tries(sets, deployment) && Applies(trial, Core, sets.pending.value) && w == Done && sets.pending.value in usable then
      Composed(Composition(sets.pending.value, true, false))
    else if sets.current.Some? then Must(sets.current.value, usable, false, false)
    else Refused
  }

  /** The pending set was composed on its own trial. */
  predicate OnTrial(o: Outcome) { o.Composed? && o.c.pending && !o.c.paired }

  /** The trial file. */
  class TrialFile {
    var trial: Option<Trial>

    constructor ()
      ensures trial == None
    {
      trial := None;
    }

    method Replace(now: Option<Trial>, w: Write) returns (ok: bool)
      modifies this
      ensures trial == Replaced(old(trial), now, w)
      ensures ok <==> w == Done
    {
      if w == Done || !w.kept { trial := now; }
      ok := w == Done;
    }

    method StartTrial(kind: Kind, id: Id, w: Write) returns (ok: bool)
      modifies this
      ensures trial == Replaced(old(trial), Some(Trial(kind, id, TRIAL_ATTEMPTS)), w)
      ensures ok <==> w == Done
    {
      ok := Replace(Some(Trial(kind, id, TRIAL_ATTEMPTS)), w);
    }

    method EndTrial(w: Write) returns (ok: bool)
      modifies this
      ensures trial == Replaced(old(trial), None, w)
    {
      if trial == None { return true; }
      ok := Replace(None, w);
    }

    /** Spend one boot, durably: only then is the set to be tried. */
    method SpendAttempt(kind: Kind, pending: Id, w: Write) returns (try: bool)
      modifies this
      ensures trial == Spent(old(trial), kind, pending, w)
      ensures try <==> Applies(old(trial), kind, pending) && w == Done
      ensures try ==> trial.Some? && trial.value.attemptsLeft == old(trial).value.attemptsLeft - 1
    {
      if trial == None { return false; }
      if trial.value.kind != kind || trial.value.id != pending || trial.value.attemptsLeft == 0 { return false; }
      try := Replace(Some(trial.value.(attemptsLeft := trial.value.attemptsLeft - 1)), w);
    }

    /** Over exactly when a boot would be refused though its count could be written. */
    method TrialIsOver(kind: Kind, pending: Id) returns (over: bool)
      ensures over <==> !Applies(trial, kind, pending)
    {
      over := trial == None || trial.value.kind != kind || trial.value.id != pending || trial.value.attemptsLeft == 0;
    }

    /** Decide what to compose, before anything of a component is mapped. */
    method Compose(sets: Sets, deployment: Id, usable: set<Id>, w: Write) returns (o: Outcome)
      modifies this
      ensures o == Boots(sets, old(trial), deployment, usable, w)
      ensures trial == if Tries(sets, deployment) then Spent(old(trial), Core, sets.pending.value, w) else old(trial)
    {
      if sets.pending.Some? && sets.Paired() == Some(deployment) {
        return Must(sets.pending.value, usable, true, true);
      }
      if deployment in sets.bound { return Must(sets.bound[deployment], usable, false, false); }
      if sets.pending.Some? && sets.Paired() == None {
        var applies := Applies(trial, Core, sets.pending.value);
        var try := SpendAttempt(Core, sets.pending.value, w);
        if applies && w.Cut? { return Lost; }
        if try && sets.pending.value in usable { return Composed(Composition(sets.pending.value, true, false)); }
      }
      if sets.current == None { return Refused; }
      o := Must(sets.current.value, usable, false, false);
    }
  }

  /** A trial is over exactly when spending a boot is refused given a working write. */
  lemma OverIsRefused(trial: Option<Trial>, sets: Sets, deployment: Id, usable: set<Id>)
    requires Tries(sets, deployment) && sets.pending.value in usable
    ensures Applies(trial, Core, sets.pending.value) <==> OnTrial(Boots(sets, trial, deployment, usable, Done))
    ensures !Applies(trial, Core, sets.pending.value) ==> Spent(trial, Core, sets.pending.value, Done) == trial
  {
  }

  /** A trial never costs the device its current set: whatever the pending one is and
      however the count is written, a boot that is not lost composes something. */
  lemma CurrentStandsIn(sets: Sets, trial: Option<Trial>, deployment: Id, usable: set<Id>, w: Write)
    requires sets.current.Some? && sets.current.value in usable
    requires sets.Paired() != Some(deployment) && deployment !in sets.bound
    ensures var o := Boots(sets, trial, deployment, usable, w);
            o == Composed(Composition(sets.current.value, false, false)) || OnTrial(o) || o == Lost
    ensures Boots(sets, trial, deployment, usable, w) == Lost ==> w.Cut?
  {
  }

  /**
   Which set a boot composes, and as what. A deployment paired with the pending set
   composes that; another takes the set bound to it; only without either is the pending set
   on trial, or the current one composed. What is refused is never replaced by another set,
   except a set on trial by the current one.
   */
  lemma ComposedExactly(sets: Sets, trial: Option<Trial>, deployment: Id, usable: set<Id>, w: Write, c: Composition)
    ensures var paired := sets.pending.Some? && sets.pair == Some(deployment);
            var alone := !paired && deployment !in sets.bound;
            var tried := alone && sets.pending.Some? && sets.pair == None && trial.Some?
              && trial.value.id == sets.pending.value && trial.value.attemptsLeft >= 1;
            Boots(sets, trial, deployment, usable, w) == Composed(c) <==>
              && c.id in usable
              && if c.paired then c.pending && paired && sets.pending == Some(c.id)
                 else if c.pending then tried && w == Done && sets.pending == Some(c.id)
                 else if deployment in sets.bound then !paired && sets.bound[deployment] == c.id
                 else
                   && !paired && sets.current == Some(c.id)
                   && (tried ==> w.Failed? || (w == Done && sets.pending.value !in usable))
  {
  }

  /** A boot counts against the trial exactly when it is the pending set's own; it is one
      boot less if the count was written, and the trial of another set is left alone. */
  lemma SpentExactly(sets: Sets, trial: Option<Trial>, deployment: Id, usable: set<Id>, w: Write)
    ensures var after := Next(trial, Boot(sets, deployment, usable, w));
            var counts := sets.pending.Some? && sets.pair == None && deployment !in sets.bound && trial.Some?
              && trial.value.id == sets.pending.value && trial.value.attemptsLeft > 0;
            && (!counts ==> after == trial)
            && (counts && w == Done ==> after == Some(trial.value.(attemptsLeft := trial.value.attemptsLeft - 1)))
            && (counts ==> after == trial || after == Some(trial.value.(attemptsLeft := trial.value.attemptsLeft - 1)))
  {
  }

  // ----- runs

  datatype Event =
    | Start(kind: Kind, id: Id, w: Write)
    | End(w: Write)
    | Boot(sets: Sets, deployment: Id, usable: set<Id>, w: Write)

  function Next(trial: Option<Trial>, e: Event): Option<Trial> {
    match e
    case Start(kind, id, w) => Replaced(trial, Some(Trial(kind, id, TRIAL_ATTEMPTS)), w)
    case End(w) => Replaced(trial, None, w)
    case Boot(sets, deployment, _, w) => if Tries(sets, deployment) then Spent(trial, Core, sets.pending.value, w) else trial
  }

  predicate TriedIn(trial: Option<Trial>, e: Event) {
    e.Boot? && OnTrial(Boots(e.sets, trial, e.deployment, e.usable, e.w))
  }

  /** The trial file before each event and after the last, from a device without one. */
  ghost predicate Run(ts: seq<Option<Trial>>, events: seq<Event>) {
    |ts| == |events| + 1 && ts[0] == None && forall i :: 0 <= i < |events| ==> ts[i + 1] == Next(ts[i], events[i])
  }

  ghost function Tried(ts: seq<Option<Trial>>, events: seq<Event>, i: nat, j: nat): nat
    requires i <= j <= |events| && |ts| == |events| + 1
  {
    if i == j then 0 else Tried(ts, events, i, j - 1) + if TriedIn(ts[j - 1], events[j - 1]) then 1 else 0
  }

  function Left(trial: Option<Trial>): nat { if trial.Some? then trial.value.attemptsLeft else 0 }

  lemma {:induction false} LeftIsBounded(ts: seq<Option<Trial>>, events: seq<Event>, i: nat)
    requires Run(ts, events) && i < |ts|
    ensures Left(ts[i]) <= TRIAL_ATTEMPTS
  {
    if i > 0 { LeftIsBounded(ts, events, i - 1); }
  }

  /** Every boot on trial is paid for. */
  lemma {:induction false} BootsArePaidFor(ts: seq<Option<Trial>>, events: seq<Event>, i: nat, j: nat)
    requires Run(ts, events) && i <= j <= |events| && forall k :: i <= k < j ==> !events[k].Start?
    ensures Tried(ts, events, i, j) + Left(ts[j]) <= Left(ts[i])
    decreases j
  {
    if i < j { BootsArePaidFor(ts, events, i, j - 1); }
  }

  /** Between two starts of a trial, pending sets are composed on at most three boots
      without a pair, whatever boots are cut, writes fail or sets change in between. */
  lemma TrialsAreBounded(ts: seq<Option<Trial>>, events: seq<Event>, i: nat, j: nat)
    requires Run(ts, events) && i <= j <= |events| && forall k :: i <= k < j ==> !events[k].Start?
    ensures Tried(ts, events, i, j) <= 3
  {
    BootsArePaidFor(ts, events, i, j);
    LeftIsBounded(ts, events, i);
  }

  /** The pending set stands alone, can be composed, and its count can be written. */
  predicate OwnBoot(e: Event, id: Id) {
    && e.Boot? && e.w == Done && e.sets.pending == Some(id) && e.sets.pair == None
    && e.deployment !in e.sets.bound && id in e.usable
  }

  /** A trial that is started gets all its boots: of boots that could each try the set, the
      first three do and no other does. */
  lemma {:induction false} ThreeBootsAreGiven(ts: seq<Option<Trial>>, events: seq<Event>, i: nat, id: Id, k: nat)
    requires Run(ts, events) && i + k < |events| && k > 0 && events[i] == Start(Core, id, Done)
    requires forall n :: i < n <= i + k ==> OwnBoot(events[n], id)
    ensures TriedIn(ts[i + k], events[i + k]) <==> k <= 3
    ensures ts[i + k] == Some(Trial(Core, id, if k <= 3 then 4 - k else 0))
  {
    if k > 1 { ThreeBootsAreGiven(ts, events, i, id, k - 1); }
    assert ts[i + k] == Next(ts[i + k - 1], events[i + k - 1]);
  }
}
