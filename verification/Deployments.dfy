/**
 Deployments: the boot entries the firmware reads, and DATA's own account of them,
 which is written later and reconciled with the entries after a crash.
 */
module Deployments {
  import opened Base
  import opened BootRecords
  import opened FitEnvironment

  type Id = Bytes

  datatype Entry = Entry(id: Id, generation: nat, triesLeft: Option<nat>)

  datatype State = State(
    highestGeneration: nat, current: Option<Id>, fallback: Option<Id>, candidate: Option<Id>, failed: seq<Id>)

  // ----- the entries

  ghost predicate Distinct(es: seq<Entry>) {
    forall i, j :: 0 <= i < j < |es| ==> es[i].id != es[j].id
  }

  /** What a listing of the entries is: at most two, of distinct ids, the newest first. */
  ghost predicate Listing(es: seq<Entry>) {
    |es| <= 2 && Distinct(es) && forall i, j :: 0 <= i < j < |es| ==> es[i].generation >= es[j].generation
  }

  function EntriesOf(rs: seq<Record>): seq<Entry> {
    seq(|rs|, i requires 0 <= i < |rs| => Entry(rs[i].id, rs[i].generation, rs[i].triesLeft))
  }

  /** The records of a FIT board are a listing as they are read. */
  lemma RecordsAreAListing(rs: seq<Record>)
    requires ValidRecords(rs)
    ensures Listing(EntriesOf(rs))
  {
    if |rs| == 2 { assert Follows(rs[..1], rs[1]) && rs[..1][0] == rs[0]; }
  }

  /** The entries of a UEFI board, from a directory that lists them in any order. */
  method ListEntries(files: seq<Entry>) returns (r: Result<seq<Entry>>)
    ensures r.Ok? <==> |files| <= 2 && Distinct(files)
    ensures r.Ok? ==> Listing(r.value) && multiset(r.value) == multiset(files)
  {
    var entries: seq<Entry> := [];
    for n := 0 to |files|
      invariant entries == files[..n] && |entries| <= 2 && Distinct(entries)
    {
      var k := FindEntry(entries, files[n].id);
      if k < |entries| {
        assert files[k].id == files[n].id;
        return Err;
      }
      entries := entries + [files[n]];
      if |entries| > 2 { return Err; }
    }
    assert files[..|files|] == files;
    if |entries| == 2 && entries[1].generation > entries[0].generation {
      assert entries == [entries[0], entries[1]];
      entries := [entries[1], entries[0]];
    }
    r := Ok(entries);
  }

  /** The first entry of an id. */
  function IndexOfId(es: seq<Entry>, id: Id): (i: nat)
    ensures i <= |es|
    ensures i < |es| ==> es[i].id == id
    ensures forall k :: 0 <= k < i ==> es[k].id != id
  {
    if es == [] || es[0].id == id then 0 else 1 + IndexOfId(es[1..], id)
  }

  method FindEntry(es: seq<Entry>, id: Id) returns (i: nat)
    ensures i == IndexOfId(es, id)
  {
    i := 0;
    while i < |es| && es[i].id != id
      invariant i <= |es| && forall k :: 0 <= k < i ==> es[k].id != id
    {
      i := i + 1;
    }
  }

  // ----- DATA's state, reconciled

  predicate Confirmed(e: Entry, failed: seq<Id>) { e.triesLeft == None && e.id !in failed }

  function FirstConfirmed(es: seq<Entry>, failed: seq<Id>): (i: nat)
    ensures i <= |es|
    ensures i < |es| ==> Confirmed(es[i], failed)
    ensures forall k :: 0 <= k < i ==> !Confirmed(es[k], failed)
  {
    if es == [] || Confirmed(es[0], failed) then 0 else 1 + FirstConfirmed(es[1..], failed)
  }

  function HighestOf(es: seq<Entry>, floor: nat): (g: nat)
    ensures g >= floor && forall k :: 0 <= k < |es| ==> g >= es[k].generation
    ensures g == floor || exists k :: 0 <= k < |es| && g == es[k].generation
  {
    if es == [] then floor
    else
      var n := |es| - 1;
      var rest := HighestOf(es[..n], floor);
      if rest < es[n].generation then es[n].generation else rest
  }

  /** An id other than the confirmed one whose entry can still be booted. */
  predicate Usable(es: seq<Entry>, failed: seq<Id>, confirmed: Id, id: Option<Id>) {
    && id.Some? && id.value != confirmed && id.value !in failed
    && exists k :: 0 <= k < |es| && es[k].id == id.value && es[k].triesLeft != Some(0)
  }

  /** A newer entry that still has boots of its trial. */
  predicate Pending(e: Entry, generation: nat, s: State) {
    && e.generation > generation && e.triesLeft.Some? && e.triesLeft.value > 0
    && e.id !in s.failed && s.fallback != Some(e.id)
  }

  function PendingOf(es: seq<Entry>, generation: nat, s: State): seq<Entry> {
    if es == [] then []
    else
      var n := |es| - 1;
      PendingOf(es[..n], generation, s) + if Pending(es[n], generation, s) then [es[n]] else []
  }

  /** The newest confirmed entry becomes current, and the old current its fallback. */
  function Promoted(s: State, es: seq<Entry>): State {
    var c := FirstConfirmed(es, s.failed);
    if c < |es| && s.current != Some(es[c].id) then
      s.(fallback := if Usable(es, s.failed, es[c].id, s.current) then s.current
                     else if Usable(es, s.failed, es[c].id, s.fallback) then s.fallback else None,
         current := Some(es[c].id))
    else s
  }

  function Present(es: seq<Entry>, id: Option<Id>): Option<Id> {
    if id.Some? && IndexOfId(es, id.value) < |es| then id else None
  }

  function Effective(state: State, es: seq<Entry>): Result<State> {
    var p := Promoted(state.(highestGeneration := HighestOf(es, state.highestGeneration)), es);
    var s := p.(fallback := Present(es, p.fallback));
    if s.current == None then Ok(s)
    else
      var k := IndexOfId(es, s.current.value);
      if k == |es| then Err
      else
        var pending := PendingOf(es, es[k].generation, s);
        if |pending| > 1 then Err else Ok(s.(candidate := if pending == [] then None else Some(pending[0].id)))
  }

  method FindConfirmed(es: seq<Entry>, failed: seq<Id>) returns (i: nat)
    ensures i == FirstConfirmed(es, failed)
  {
    i := 0;
    while i < |es| && !Confirmed(es[i], failed)
      invariant i <= |es| && forall k :: 0 <= k < i ==> !Confirmed(es[k], failed)
    {
      i := i + 1;
    }
  }

  method CollectPending(es: seq<Entry>, generation: nat, s: State) returns (pending: seq<Entry>)
    ensures pending == PendingOf(es, generation, s)
  {
    pending := [];
    for n := 0 to |es|
      invariant pending == PendingOf(es[..n], generation, s)
    {
      assert es[..n + 1][..n] == es[..n];
      if Pending(es[n], generation, s) { pending := pending + [es[n]]; }
    }
    assert es[..|es|] == es;
  }

  method HighestGeneration(es: seq<Entry>, floor: nat) returns (g: nat)
    ensures g == HighestOf(es, floor)
  {
    g := floor;
    for n := 0 to |es|
      invariant g == HighestOf(es[..n], floor)
    {
      assert es[..n + 1][..n] == es[..n];
      if g < es[n].generation { g := es[n].generation; }
    }
    assert es[..|es|] == es;
  }

  /** Reconcile the state field by field with what the firmware will read. */
  method EffectiveState(stored: State, es: seq<Entry>) returns (r: Result<State>)
    ensures r == Effective(stored, es)
  {
    var state := stored;
    var highest := HighestGeneration(es, state.highestGeneration);
    state := state.(highestGeneration := highest);
    var c := FindConfirmed(es, state.failed);
    if c < |es| && state.current != Some(es[c].id) {
      var fallback := None;
      if Usable(es, state.failed, es[c].id, state.current) {
        fallback := state.current;
      } else if Usable(es, state.failed, es[c].id, state.fallback) {
        fallback := state.fallback;
      }
      state := state.(fallback := fallback, current := Some(es[c].id));
    }
    if state.fallback.Some? {
      var k := FindEntry(es, state.fallback.value);
      if k == |es| { state := state.(fallback := None); }
    }
    if state.current.Some? {
      var k := FindEntry(es, state.current.value);
      if k == |es| { return Err; }
      var pending := CollectPending(es, es[k].generation, state);
      if |pending| > 1 { return Err; }
      state := state.(candidate := if pending == [] then None else Some(pending[0].id));
    }
    r := Ok(state);
  }

  // ----- what reconciling promises

  lemma {:induction false} PendingAre(es: seq<Entry>, generation: nat, s: State, k: nat)
    requires k < |es| && es[k].generation <= generation
    ensures |PendingOf(es, generation, s)| < |es|
    ensures forall e :: e in PendingOf(es, generation, s) <==> e in es && Pending(e, generation, s)
  {
    PendingMembers(es, generation, s);
    var n := |es| - 1;
    if k < n {
      PendingAre(es[..n], generation, s, k);
    } else {
      PendingMembers(es[..n], generation, s);
    }
  }

  lemma {:induction false} PendingMembers(es: seq<Entry>, generation: nat, s: State)
    ensures |PendingOf(es, generation, s)| <= |es|
    ensures forall e :: e in PendingOf(es, generation, s) <==> e in es && Pending(e, generation, s)
  {
    if es != [] {
      var n := |es| - 1;
      PendingMembers(es[..n], generation, s);
      assert es == es[..n] + [es[n]];
    }
  }

  /** Of two entries at most one is newer than the current one, so the pending
      deployment is never ambiguous: the one refusal left is that the current
      entry is missing and no confirmed one can take its place. */
  lemma RefusedExactlyWhenLost(state: State, es: seq<Entry>)
    requires Listing(es)
    ensures Effective(state, es).Err? <==>
              && state.current.Some? && IndexOfId(es, state.current.value) == |es|
              && FirstConfirmed(es, state.failed) == |es|
  {
    var p := Promoted(state.(highestGeneration := HighestOf(es, state.highestGeneration)), es);
    var s := p.(fallback := Present(es, p.fallback));
    if s.current.Some? {
      var k := IndexOfId(es, s.current.value);
      if k < |es| { PendingAre(es, es[k].generation, s, k); }
    }
  }

  /** The highest generation seen never falls, and covers every entry. */
  lemma GenerationNeverFalls(state: State, es: seq<Entry>)
    requires Effective(state, es).Ok?
    ensures var s := Effective(state, es).value;
            && s.highestGeneration >= state.highestGeneration
            && (forall k :: 0 <= k < |es| ==> s.highestGeneration >= es[k].generation)
            && s.failed == state.failed
  {
  }

  /** When a confirmed entry that has not failed exists, the newest such is current. */
  lemma CurrentIsNewestConfirmed(state: State, es: seq<Entry>, k: nat)
    requires Listing(es) && k < |es| && Confirmed(es[k], state.failed)
    ensures Effective(state, es).Ok?
    ensures exists c :: 0 <= c < |es| && Effective(state, es).value.current == Some(es[c].id)
              && Confirmed(es[c], state.failed) && es[c].generation >= es[k].generation
  {
    RefusedExactlyWhenLost(state, es);
    var c := FirstConfirmed(es, state.failed);
    assert c <= k;
    assert Effective(state, es).value.current == Some(es[c].id);
  }

  /** Across the crash window of an activation -- the new entry is confirmed, DATA
      still names the old one -- a usable old current becomes the fallback. */
  lemma OldCurrentIsFallback(state: State, es: seq<Entry>)
    requires Listing(es) && FirstConfirmed(es, state.failed) < |es|
    requires Usable(es, state.failed, es[FirstConfirmed(es, state.failed)].id, state.current)
    ensures Effective(state, es).Ok? && Effective(state, es).value.fallback == state.current
  {
    RefusedExactlyWhenLost(state, es);
    var k :| 0 <= k < |es| && es[k].id == state.current.value;
    assert IndexOfId(es, state.current.value) <= k;
  }

  /** An id has an entry. */
  predicate Listed(es: seq<Entry>, id: Option<Id>) {
    id.Some? && exists k :: 0 <= k < |es| && es[k].id == id.value
  }

  /** An id has an entry with boots left, and has not failed. */
  predicate Boots(es: seq<Entry>, failed: seq<Id>, id: Option<Id>) {
    id.Some? && id.value !in failed && exists k :: 0 <= k < |es| && es[k].id == id.value && es[k].triesLeft != Some(0)
  }

  /**
   The fallback exactly. One whose entry is gone is never kept. While the current id stays,
   the stored fallback stays if it has an entry; when another takes its place, the old
   current is the fallback if it still boots, or else the stored fallback if that does and
   is not the new current itself.
   */
  lemma FallbackExactly(state: State, es: seq<Entry>)
    requires Effective(state, es).Ok?
    ensures var s := Effective(state, es).value;
            && (s.fallback.Some? ==> Listed(es, s.fallback))
            && s.fallback ==
                 if s.current == state.current then
                   if Listed(es, state.fallback) then state.fallback else None
                 else if Boots(es, state.failed, state.current) then state.current
                 else if Boots(es, state.failed, state.fallback) && state.fallback != s.current then state.fallback
                 else None
  {
    ListedHasIndex(es, state.fallback);
    ListedHasIndex(es, state.current);
  }

  lemma ListedHasIndex(es: seq<Entry>, id: Option<Id>)
    ensures id.Some? ==> (Listed(es, id) <==> IndexOfId(es, id.value) < |es|)
  {
  }

  /** An entry without a trial counter whose id has not failed. */
  predicate Proved(e: Entry, failed: seq<Id>) { e.triesLeft.None? && forall k :: 0 <= k < |failed| ==> failed[k] != e.id }

  ghost predicate FirstProved(es: seq<Entry>, failed: seq<Id>, k: nat)
    requires k < |es|
  {
    Proved(es[k], failed) && forall j :: 0 <= j < k ==> !Proved(es[j], failed)
  }

  /** What is current exactly: the first proved entry of the listing, or without one what
      was current. With nothing current the candidate is left alone. */
  lemma CurrentExactly(state: State, es: seq<Entry>)
    requires Effective(state, es).Ok?
    ensures var s := Effective(state, es).value;
            && (forall k :: 0 <= k < |es| && FirstProved(es, state.failed, k) ==> s.current == Some(es[k].id))
            && ((forall k :: 0 <= k < |es| ==> !Proved(es[k], state.failed)) ==> s.current == state.current)
            && (s.current == None ==> s.candidate == state.candidate)
            && s.failed == state.failed
  {
    forall k | 0 <= k < |es| ensures Proved(es[k], state.failed) <==> Confirmed(es[k], state.failed) {}
    var c := FirstConfirmed(es, state.failed);
    forall k | 0 <= k < |es| && FirstProved(es, state.failed, k)
      ensures Effective(state, es).value.current == Some(es[k].id)
    {
      assert c == k;
    }
  }

  /** The highest generation is the stored one or an entry's. */
  lemma HighestIsSeen(state: State, es: seq<Entry>)
    requires Effective(state, es).Ok?
    ensures var g := Effective(state, es).value.highestGeneration;
            g == state.highestGeneration || exists k :: 0 <= k < |es| && g == es[k].generation
  {
  }

  /**
   The candidate exactly: with a current entry it is the entry that is newer, still has boots
   of its trial, has not failed and is not the fallback; there is none if no entry is so.
   */
  lemma CandidateExactly(state: State, es: seq<Entry>, e: Entry, c: Entry)
    requires Listing(es) && Effective(state, es).Ok? && e in es && c in es
    requires Effective(state, es).value.current == Some(c.id)
    ensures var s := Effective(state, es).value;
            s.candidate == Some(e.id) <==>
              && e.generation > c.generation && e.triesLeft.Some? && e.triesLeft.value != 0
              && e.id !in state.failed && s.fallback != Some(e.id)
  {
    var s := Effective(state, es).value;
    CandidateIsPending(state, es, e);
    SameEntry(es, c, es[IndexOfId(es, s.current.value)]);
  }

  /** The candidate is the one newer entry with boots left, if there is one. */
  lemma CandidateIsPending(state: State, es: seq<Entry>, e: Entry)
    requires Listing(es) && Effective(state, es).Ok? && Effective(state, es).value.current.Some?
    ensures var s := Effective(state, es).value;
            var k := IndexOfId(es, s.current.value);
            && k < |es|
            && (e in es ==> (s.candidate == Some(e.id) <==> Pending(e, es[k].generation, s)))
            && (s.candidate == None || exists x :: x in es && s.candidate == Some(x.id))
  {
    var s := Effective(state, es).value;
    var k := IndexOfId(es, s.current.value);
    var was := s.(candidate := state.candidate);
    PendingAre(es, es[k].generation, was, k);
    assert Pending(e, es[k].generation, s) <==> Pending(e, es[k].generation, was);
    FirstOfOne(es, PendingOf(es, es[k].generation, was), e);
  }

  /** Of a list of at most one of the entries, its first is an entry exactly when it is in it. */
  lemma FirstOfOne(es: seq<Entry>, pending: seq<Entry>, e: Entry)
    requires Distinct(es) && |pending| <= 1 && forall x :: x in pending ==> x in es
    ensures var first := if pending == [] then None else Some(pending[0].id);
            && (e in es ==> (first == Some(e.id) <==> e in pending))
            && (first == None || exists x :: x in es && first == Some(x.id))
  {
    if pending != [] {
      assert pending[0] in es;
      if e in es && e.id == pending[0].id { SameEntry(es, e, pending[0]); }
    }
  }

  lemma SameEntry(es: seq<Entry>, a: Entry, b: Entry)
    requires Distinct(es) && a in es && b in es && a.id == b.id
    ensures a == b
  {
    var i :| 0 <= i < |es| && es[i] == a;
    var j :| 0 <= j < |es| && es[j] == b;
    assert i == j;
  }

  /** Reconciling what was reconciled changes nothing. */
  lemma ReconcilingIsIdempotent(state: State, es: seq<Entry>)
    requires Effective(state, es).Ok?
    ensures Effective(Effective(state, es).value, es) == Effective(state, es)
  {
    var s := Effective(state, es).value;
    HighestAgain(es, state.highestGeneration);
    assert Promoted(s, es) == s;
    assert s.(fallback := Present(es, s.fallback)) == s;
    if s.current.Some? {
      var generation := es[IndexOfId(es, s.current.value)].generation;
      SamePending(es, generation, s, s.(candidate := state.candidate));
    }
  }

  lemma HighestAgain(es: seq<Entry>, floor: nat)
    ensures HighestOf(es, HighestOf(es, floor)) == HighestOf(es, floor)
  {
  }

  lemma {:induction false} SamePending(es: seq<Entry>, generation: nat, s: State, t: State)
    requires s.failed == t.failed && s.fallback == t.fallback
    ensures PendingOf(es, generation, s) == PendingOf(es, generation, t)
  {
    if es != [] { SamePending(es[..|es| - 1], generation, s, t); }
  }

  // ----- retirement

  predicate Bootable(rs: seq<Record>) {
    exists i :: 0 <= i < |rs| && rs[i].triesLeft != Some(0)
  }

  function IndexOfRecord(rs: seq<Record>, id: Id): (i: nat)
    ensures i <= |rs|
    ensures i < |rs| ==> rs[i].id == id
    ensures forall k :: 0 <= k < i ==> rs[k].id != id
  {
    if rs == [] || rs[0].id == id then 0 else 1 + IndexOfRecord(rs[1..], id)
  }

  /** A record other than `id` that the firmware would still boot. */
  predicate Fallback(rs: seq<Record>, id: Id) {
    exists i :: 0 <= i < |rs| && rs[i].id != id && rs[i].triesLeft != Some(0)
  }

  function RetiredRecords(rs: seq<Record>, i: nat): seq<Record>
    requires i < |rs|
  {
    rs[i := rs[i].(triesLeft := Some(0))]
  }

  lemma RetiredAreValid(rs: seq<Record>, i: nat)
    requires ValidRecords(rs) && i < |rs|
    ensures ValidRecords(RetiredRecords(rs, i))
    ensures Fallback(rs, rs[i].id) ==> Bootable(RetiredRecords(rs, i))
  {
    var after := RetiredRecords(rs, i);
    assert rs[..0] == [] && after[..0] == [];
    if |rs| == 2 {
      assert Follows(rs[..1], rs[1]) && rs[..1][0] == rs[0];
      assert after[..1][0] == after[0];
    }
    if k :| 0 <= k < |rs| && rs[k].id != rs[i].id && rs[k].triesLeft != Some(0) {
      assert after[k] == rs[k];
    }
  }

  lemma LoadedAreValid(copies: seq<Bytes>)
    requires |copies| == 2 && Load(copies).Ok?
    ensures ValidRecords(Load(copies).value.records) && Current(copies, Load(copies).value)
  {
    var env := Load(copies).value;
    ChosenSlot(ViewOf(copies[0]), ViewOf(copies[1]));
    CopyReads(copies[env.slot], env.flag, env.records);
  }

  lemma ValidIsPlain(rs: seq<Record>)
    requires ValidRecords(rs)
    ensures PlainIds(rs)
  {
    assert forall i :: 0 <= i < |rs| ==> ValidRecord(rs[i]);
  }

  datatype Retirement = Missing | OnTrial | NoFallback | Retired | Unsaved

  /**
   Retire a confirmed deployment that failed. However it ends -- refused, saved or
   cut while the copy was written -- a board that had a bootable record has one, and
   no attempt is refilled.
   */
  method RetireFailedConfirmed(region: Region, id: Id) returns (o: Retirement)
    requires |region.copies| == 2
    modifies region
    ensures |region.copies| == 2
    ensures o == Missing || o == OnTrial || o == NoFallback ==> region.copies == old(region.copies)
    ensures Load(old(region.copies)).Ok? ==> Load(region.copies).Ok?
    ensures Load(old(region.copies)).Ok? ==>
              var before, after := Load(old(region.copies)).value.records, Load(region.copies).value.records;
              var i := IndexOfRecord(before, id);
              && (Bootable(before) ==> Bootable(after))
              && (after == before || (i < |before| && after == before[i := before[i].(triesLeft := Some(0))]))
              && (o == Retired ==>
                    i < |before| && before[i].triesLeft == None && after == before[i := before[i].(triesLeft := Some(0))])
              && (o == Missing <==> i == |before|)
              && (o == NoFallback <==> i < |before| && before[i].triesLeft == None && !Fallback(before, id))
  {
    var env := region.LoadEnvironment();
    if env.Err? { return Missing; }
    LoadedAreValid(region.copies);
    var rs := env.value.records;
    var i := 0;
    while i < |rs| && rs[i].id != id
      invariant i <= |rs| && forall k :: 0 <= k < i ==> rs[k].id != id
    {
      i := i + 1;
    }
    if i == |rs| { return Missing; }
    if rs[i].triesLeft.Some? { return OnTrial; }
    if !Fallback(rs, id) { return NoFallback; }
    RetiredAreValid(rs, i);
    ValidIsPlain(RetiredRecords(rs, i));
    var saved := region.SaveEnvironment(env.value.(records := RetiredRecords(rs, i)));
    o := if saved == Saved then Retired else Unsaved;
  }

  /** However many deployments are retired in a row, one stays bootable. */
  method RetireAll(region: Region, ids: seq<Id>)
    requires |region.copies| == 2 && Load(region.copies).Ok? && Bootable(Load(region.copies).value.records)
    modifies region
    ensures |region.copies| == 2 && Load(region.copies).Ok? && Bootable(Load(region.copies).value.records)
  {
    for n := 0 to |ids|
      invariant |region.copies| == 2 && Load(region.copies).Ok? && Bootable(Load(region.copies).value.records)
    {
      var _ := RetireFailedConfirmed(region, ids[n]);
    }
  }
}
