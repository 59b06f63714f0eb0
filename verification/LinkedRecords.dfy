/**
 Records read one after another, where the place of each follows from the ones
 before it. A reader says which values the record at a place can be of, and
 whether it is the last.
 */
module LinkedRecords {
  datatype Reader<!P, !T> = Reader(start: P, step: (P, T) -> P, accepts: (P, T, bool) -> bool)

  /** The place of record `k`. */
  function PlaceOf<P, T>(start: P, step: (P, T) -> P, ts: seq<T>, k: nat): P
    requires k <= |ts|
  {
    if k == 0 then start else step(PlaceOf(start, step, ts, k - 1), ts[k - 1])
  }

  /** No record can be of two values. */
  ghost predicate Decides<P(!new), T(!new)>(r: Reader<P, T>) {
    forall p, t, u, last :: r.accepts(p, t, last) && r.accepts(p, u, last) ==> t == u
  }

  predicate Accepted<P, T>(r: Reader<P, T>, n: nat, ts: seq<T>, i: nat)
    requires i < |ts|
  {
    r.accepts(PlaceOf(r.start, r.step, ts, i), ts[i], i + 1 == n)
  }

  /** The first `k` of `n` records are those of `ts`. */
  ghost predicate SpellsFirst<P, T>(r: Reader<P, T>, n: nat, ts: seq<T>, k: nat) {
    k <= |ts| && forall i {:trigger Accepted(r, n, ts, i)} :: 0 <= i < k ==> Accepted(r, n, ts, i)
  }

  ghost predicate Spells<P, T>(r: Reader<P, T>, n: nat, ts: seq<T>) {
    |ts| == n && SpellsFirst(r, n, ts, n)
  }

  lemma {:induction false} PlaceOfPrefix<P, T>(start: P, step: (P, T) -> P, ts: seq<T>, us: seq<T>, k: nat)
    requires k <= |ts| && k <= |us| && ts[..k] == us[..k]
    ensures PlaceOf(start, step, ts, k) == PlaceOf(start, step, us, k)
  {
    if k > 0 {
      assert ts[k - 1] == ts[..k][k - 1] == us[..k][k - 1] == us[k - 1];
      assert ts[..k - 1] == ts[..k][..k - 1] == us[..k][..k - 1] == us[..k - 1];
      PlaceOfPrefix(start, step, ts, us, k - 1);
    }
  }

  lemma {:induction false} SpelledIsUnique<P(!new), T(!new)>(r: Reader<P, T>, n: nat, ts: seq<T>, us: seq<T>, k: nat)
    requires Decides(r) && SpellsFirst(r, n, ts, k) && SpellsFirst(r, n, us, k)
    ensures ts[..k] == us[..k]
  {
    if k > 0 {
      SpelledIsUnique(r, n, ts, us, k - 1);
      PlaceOfPrefix(r.start, r.step, ts, us, k - 1);
      assert Accepted(r, n, ts, k - 1) && Accepted(r, n, us, k - 1);
      assert ts[..k] == ts[..k - 1] + [ts[k - 1]];
      assert us[..k] == us[..k - 1] + [us[k - 1]];
    }
  }

  lemma SpellsOneMore<P, T>(r: Reader<P, T>, n: nat, ts: seq<T>, t: T)
    requires SpellsFirst(r, n, ts, |ts|) && r.accepts(PlaceOf(r.start, r.step, ts, |ts|), t, |ts| + 1 == n)
    ensures SpellsFirst(r, n, ts + [t], |ts| + 1)
    ensures PlaceOf(r.start, r.step, ts + [t], |ts| + 1) == r.step(PlaceOf(r.start, r.step, ts, |ts|), t)
  {
    var us := ts + [t];
    forall i | 0 <= i <= |ts| ensures Accepted(r, n, us, i) {
      SamePlace(r, ts, t, i);
      assert i < |ts| ==> Accepted(r, n, ts, i);
    }
    SamePlace(r, ts, t, |ts|);
  }

  lemma SamePlace<P, T>(r: Reader<P, T>, ts: seq<T>, t: T, i: nat)
    requires i <= |ts|
    ensures PlaceOf(r.start, r.step, ts + [t], i) == PlaceOf(r.start, r.step, ts, i)
  {
    assert ts[..i] == (ts + [t])[..i];
    PlaceOfPrefix(r.start, r.step, ts, ts + [t], i);
  }

  ghost predicate AcceptsNone<P, T(!new)>(r: Reader<P, T>, p: P, last: bool) {
    forall t :: !r.accepts(p, t, last)
  }

  /** A record that is of no value leaves the list without a reading. */
  lemma SpellsNothing<P(!new), T(!new)>(r: Reader<P, T>, n: nat, ts: seq<T>, us: seq<T>)
    requires Decides(r) && |ts| < n && SpellsFirst(r, n, ts, |ts|)
    requires AcceptsNone(r, PlaceOf(r.start, r.step, ts, |ts|), |ts| + 1 == n)
    ensures !Spells(r, n, us)
  {
    if Spells(r, n, us) {
      SpelledIsUnique(r, n, ts, us, |ts|);
      PlaceOfPrefix(r.start, r.step, ts, us, |ts|);
      Refused(r, n, us, |ts|);
    }
  }

  lemma Refused<P, T(!new)>(r: Reader<P, T>, n: nat, us: seq<T>, i: nat)
    requires i < |us| == n && AcceptsNone(r, PlaceOf(r.start, r.step, us, i), i + 1 == n)
    ensures !SpellsFirst(r, n, us, n)
  {
    assert !Accepted(r, n, us, i);
  }

  lemma SpelledIsAll<P(!new), T(!new)>(r: Reader<P, T>, n: nat, ts: seq<T>, us: seq<T>)
    requires Decides(r) && Spells(r, n, ts) && Spells(r, n, us)
    ensures ts == us
  {
    SpelledIsUnique(r, n, ts, us, n);
    assert ts[..n] == ts && us[..n] == us;
  }
}
