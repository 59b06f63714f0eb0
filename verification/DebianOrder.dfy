/**
 The rules of dpkg's order, as its documentation gives them: what two versions have in common
 at their start does not matter, text is ordered character by character, numbers by value.
 Each is stated of the comparison without reference to how it weighs characters.
 */
module DebianOrder {
  import opened Base
  import opened Integers
  import opened Strings
  import opened DebianVersion

  // ----- the rules for one part

  predicate StartsDigit(s: string) { s != "" && '0' <= s[0] <= '9' }

  /** Where a text run's next character stands: first `~`, then the end of the run, then
      letters, and last the others. */
  function Class(s: string): nat {
    if s == "" || StartsDigit(s) then 1
    else if s[0] == '~' then 0
    else if 'a' <= s[0] <= 'z' || 'A' <= s[0] <= 'Z' then 2
    else 3
  }

  /** The text at the start of `a` comes before that of `b`, by its first character. */
  predicate Precedes(a: string, b: string) {
    Class(a) < Class(b) || (Class(a) == Class(b) >= 2 && a[0] < b[0])
  }

  /** No number runs across the end of `p` into `a` or `b`. */
  predicate CutsNoNumber(p: string, a: string, b: string) {
    p == "" || !IsDigit(p[|p| - 1]) || (!StartsDigit(a) && !StartsDigit(b))
  }

  function ComparedParts(a: string, b: string): Ordering { Lex(Key(a), Key(b)) }

  lemma TextDecides(a: string, b: string)
    requires Precedes(a, b)
    ensures ComparedParts(a, b) == Less
  {
    RunKeyCompares(a, b);
    HeadOfRun(a);
    HeadOfRun(b);
  }

  lemma HeadOfRun(s: string)
    ensures RunKey(s) != []
    ensures Head(RunKey(s)) == if s == "" || StartsDigit(s) then 0 else Weight(s[0])
  {
  }

  lemma LexAfter(k: seq<int>, x: seq<int>, y: seq<int>)
    ensures Lex(k + x, k + y) == Lex(x, y)
    decreases |k|
  {
    if k == [] {
      assert k + x == x && k + y == y;
    } else {
      assert Tail(k + x) == k[1..] + x && Tail(k + y) == k[1..] + y;
      LexAfter(k[1..], x, y);
    }
  }

  /** Numbers decide by their value, and equal ones leave it to what follows. */
  lemma NumbersDecide(x: string, a: string, y: string, b: string)
    requires AllDigits(x) && AllDigits(y) && x != "" && y != "" && !StartsDigit(a) && !StartsDigit(b)
    ensures ComparedParts(x + a, y + b) == Order(Value(x), Value(y)).Then(ComparedParts(a, b))
  {
    KeyOfDigits(x, a);
    KeyOfDigits(y, b);
    LexOfNumbers(Value(x), Key(a), Value(y), Key(b));
  }

  lemma LexOfNumbers(m: nat, x: seq<int>, n: nat, y: seq<int>)
    ensures Lex([0, m] + x, [0, n] + y) == Order(m, n).Then(Lex(x, y))
  {
    var u, v := [0, m] + x, [0, n] + y;
    assert Tail(u) == [m] + x && Tail(v) == [n] + y;
    assert Tail(Tail(u)) == x && Tail(Tail(v)) == y;
  }

  /** What both start with does not matter. */
  lemma {:induction false} PrefixCancels(p: string, a: string, b: string)
    requires CutsNoNumber(p, a, b)
    ensures ComparedParts(p + a, p + b) == ComparedParts(a, b)
    decreases |p|
  {
    if p == "" {
      assert p + a == a && p + b == b;
    } else if !IsDigit(p[0]) {
      TextCancels(p, a, b);
      PrefixCancels(p[1..], a, b);
    } else {
      NumberCancels(p, a, b);
      PrefixCancels(p[DigitRun(p)..], a, b);
    }
  }

  lemma TextCancels(p: string, a: string, b: string)
    requires p != "" && !IsDigit(p[0])
    ensures ComparedParts(p + a, p + b) == ComparedParts(p[1..] + a, p[1..] + b)
  {
    RunKeyCompares(p + a, p + b);
    assert (p + a)[1..] == p[1..] + a && (p + b)[1..] == p[1..] + b;
    LexAfter([Weight(p[0])], RunKey(p[1..] + a), RunKey(p[1..] + b));
    RunKeyCompares(p[1..] + a, p[1..] + b);
  }

  lemma NumberCancels(p: string, a: string, b: string)
    requires p != "" && IsDigit(p[0]) && CutsNoNumber(p, a, b)
    ensures ComparedParts(p + a, p + b) == ComparedParts(p[DigitRun(p)..] + a, p[DigitRun(p)..] + b)
  {
    var n := DigitRun(p);
    var x, rest := p[..n], p[n..];
    RestOfNumber(p, n, a);
    RestOfNumber(p, n, b);
    Resplit(p, n, a);
    Resplit(p, n, b);
    NumbersDecide(x, rest + a, x, rest + b);
  }

  lemma Resplit(p: string, n: nat, a: string)
    requires n <= |p|
    ensures p + a == p[..n] + (p[n..] + a)
  {
  }

  lemma RestOfNumber(p: string, n: nat, a: string)
    requires n == DigitRun(p) && p != "" && (!IsDigit(p[|p| - 1]) || !StartsDigit(a))
    ensures !StartsDigit(p[n..] + a)
  {
    if n == |p| {
      assert p[..n] == p;
      assert p[n..] + a == a;
    }
  }

  // ----- the rules for versions

  /** The part of a version a difference is in. */
  datatype Place = Upstream | Revision

  function PartAt(v: Parts, place: Place): string { if place == Upstream then v.upstream else v.revision }

  /** Two valid versions that agree in the parts before this one. */
  ghost predicate SameUpTo(v: string, w: string, place: Place) {
    && Valid(v) && Valid(w)
    && var x, y := ParseParts(v).value, ParseParts(w).value;
       x.epoch == y.epoch && (place == Revision ==> x.upstream == y.upstream)
  }

  /** The epoch decides before anything else. */
  lemma EpochDecides(v: string, w: string)
    requires Valid(v) && Valid(w) && ParseParts(v).value.epoch < ParseParts(w).value.epoch
    ensures Compare(v, w) == Some(Less) && Compare(w, v) == Some(Greater)
  {
  }

  /**
   At the first difference of the upstream versions, or with equal ones of the revisions, text
   decides by the order of its characters, whatever follows.
   */
  lemma FirstTextDecides(v: string, w: string, place: Place, p: string, a: string, b: string)
    requires SameUpTo(v, w, place) && CutsNoNumber(p, a, b) && Precedes(a, b)
    requires PartAt(ParseParts(v).value, place) == p + a && PartAt(ParseParts(w).value, place) == p + b
    ensures Compare(v, w) == Some(Less) && Compare(w, v) == Some(Greater)
  {
    PrefixCancels(p, a, b);
    TextDecides(a, b);
    LexReflexive(Key(ParseParts(v).value.upstream));
    CompareReverses(v, w);
  }

  /** At the first number that differs, the smaller decides, whatever follows. */
  lemma FirstNumberDecides(v: string, w: string, place: Place, p: string, x: string, a: string, y: string, b: string)
    requires SameUpTo(v, w, place) && (p == "" || !IsDigit(p[|p| - 1]))
    requires AllDigits(x) && AllDigits(y) && x != "" && y != "" && !StartsDigit(a) && !StartsDigit(b)
    requires PartAt(ParseParts(v).value, place) == p + (x + a) && PartAt(ParseParts(w).value, place) == p + (y + b)
    requires Value(x) < Value(y)
    ensures Compare(v, w) == Some(Less) && Compare(w, v) == Some(Greater)
  {
    PrefixCancels(p, x + a, y + b);
    NumbersDecide(x, a, y, b);
    LexReflexive(Key(ParseParts(v).value.upstream));
    CompareReverses(v, w);
  }

  /** A part followed by `~` and anything is earlier than the part alone; followed by any other
      text it is later. */
  lemma AppendedText(v: string, w: string, place: Place, t: string)
    requires SameUpTo(v, w, place) && t != "" && !StartsDigit(t)
    requires PartAt(ParseParts(w).value, place) == PartAt(ParseParts(v).value, place) + t
    ensures Compare(w, v) == Some(if t[0] == '~' then Less else Greater)
  {
    var p := PartAt(ParseParts(v).value, place);
    assert p + "" == p;
    if t[0] == '~' { FirstTextDecides(w, v, place, p, t, ""); }
    else { FirstTextDecides(v, w, place, p, "", t); }
  }

  // ----- what a version is

  predicate PartText(s: string, dash: bool) {
    forall i :: 0 <= i < |s| ==>
      || '0' <= s[i] <= '9' || 'a' <= s[i] <= 'z' || 'A' <= s[i] <= 'Z'
      || s[i] == '.' || s[i] == '+' || s[i] == '~' || (dash && s[i] == '-')
  }

  /** An upstream version and what follows its last dash. */
  function RestText(upstream: string, revision: Option<string>): string {
    upstream + if revision.Some? then "-" + revision.value else ""
  }

  ghost predicate RestWellFormed(upstream: string, revision: Option<string>) {
    && StartsDigit(upstream) && PartText(upstream, revision.Some?)
    && (revision.Some? ==> revision.value != "" && PartText(revision.value, false))
  }

  function Spelt(revision: Option<string>): string { if revision.Some? then revision.value else "" }

  /** A version as it is spelled: `[epoch:]upstream[-revision]`. */
  datatype Spelling = Spelling(epoch: Option<string>, upstream: string, revision: Option<string>) {
    function Text(): string {
      (if epoch.Some? then epoch.value + ":" else "") + RestText(upstream, revision)
    }

    ghost predicate WellFormed() {
      && (epoch.Some? ==> 1 <= |epoch.value| <= 9 && AllDigits(epoch.value))
      && RestWellFormed(upstream, revision)
      && |Text()| <= 64
    }
  }

  lemma LastIndexIs(s: string, c: char, i: nat)
    requires i < |s| && s[i] == c && c !in s[i + 1..]
    ensures LastIndexOf(s, c) == i
  {
    var k := LastIndexOf(s, c);
    assert forall j :: i < j < |s| ==> s[j] == s[i + 1..][j - i - 1];
    assert forall j :: k < j < |s| ==> s[j] == s[k + 1..][j - k - 1];
  }

  lemma FirstIndexIs(s: string, c: char, i: nat)
    requires i < |s| && s[i] == c && c !in s[..i]
    ensures IndexOf(s, c) == i
  {
    var k := IndexOf(s, c);
    assert forall j :: 0 <= j < i ==> s[j] == s[..i][j];
    assert forall j :: 0 <= j < k ==> s[j] == s[..k][j];
  }

  lemma NoDash(s: string)
    requires PartText(s, false)
    ensures '-' !in s
  {
  }

  lemma RestSplits(upstream: string, revision: Option<string>)
    requires RestWellFormed(upstream, revision)
    ensures SplitRevision(RestText(upstream, revision)) == (upstream, Spelt(revision))
    ensures '-' in RestText(upstream, revision) <==> revision.Some?
  {
    var rest := RestText(upstream, revision);
    if revision.Some? {
      var n := |upstream|;
      NoDash(revision.value);
      assert rest[n] == '-' && rest[n + 1..] == revision.value && rest[..n] == upstream;
      LastIndexIs(rest, '-', n);
    } else {
      NoDash(upstream);
      assert rest == upstream;
    }
  }

  lemma RestReads(epoch: nat, upstream: string, revision: Option<string>)
    requires RestWellFormed(upstream, revision)
    ensures ParseRest(epoch, RestText(upstream, revision)) == Some(Parts(epoch, upstream, Spelt(revision)))
    ensures ':' !in RestText(upstream, revision)
  {
    RestSplits(upstream, revision);
    SamePartText(upstream);
    if revision.Some? { SamePartText(revision.value); }
  }

  lemma SamePartText(s: string)
    ensures PartText(s, true) == PartChars(s, true) && PartText(s, false) == PartChars(s, false)
    ensures PartText(s, false) ==> PartText(s, true)
  {
  }

  /** Every version spelled so is read as its parts. */
  lemma SpelledVersionReads(s: Spelling)
    requires s.WellFormed()
    ensures ParseParts(s.Text()) ==
              Some(Parts(if s.epoch.Some? then Value(s.epoch.value) else 0, s.upstream, Spelt(s.revision)))
  {
    var rest := RestText(s.upstream, s.revision);
    if s.epoch.Some? {
      RestReads(Value(s.epoch.value), s.upstream, s.revision);
      EpochReads(s.epoch.value, rest);
    } else {
      RestReads(0, s.upstream, s.revision);
      assert s.Text() == rest;
      NoEpochReads(rest);
    }
  }

  lemma NoEpochReads(rest: string)
    requires 0 < |rest| <= 64 && ':' !in rest
    ensures ParseParts(rest) == ParseRest(0, rest)
  {
    assert IndexOf(rest, ':') == |rest|;
  }

  lemma EpochReads(epoch: string, rest: string)
    requires 1 <= |epoch| <= 9 && AllDigits(epoch) && |epoch + ":" + rest| <= 64
    ensures ParseParts(epoch + ":" + rest) == ParseRest(Value(epoch), rest)
  {
    var v, n := epoch + ":" + rest, |epoch|;
    assert v[n] == ':' && v[..n] == epoch && v[n + 1..] == rest;
    FirstIndexIs(v, ':', n);
  }

  lemma RestIsSpelled(epoch: nat, rest: string) returns (upstream: string, revision: Option<string>)
    requires ParseRest(epoch, rest).Some?
    ensures RestWellFormed(upstream, revision) && RestText(upstream, revision) == rest
  {
    var k := LastIndexOf(rest, '-');
    if k < |rest| {
      upstream, revision := rest[..k], Some(rest[k + 1..]);
      assert rest == rest[..k] + ("-" + rest[k + 1..]);
      SamePartText(rest[k + 1..]);
    } else {
      upstream, revision := rest, None;
      assert RestText(upstream, revision) == rest;
      WithoutDash(rest);
    }
    SamePartText(upstream);
  }

  lemma WithoutDash(s: string)
    requires PartChars(s, true) && '-' !in s
    ensures PartText(s, false)
  {
  }

  /** And nothing else is a version. */
  lemma ValidIsSpelled(v: string) returns (s: Spelling)
    requires Valid(v)
    ensures s.WellFormed() && s.Text() == v
  {
    var i := IndexOf(v, ':');
    var rest := if i < |v| then v[i + 1..] else v;
    var upstream, revision := RestIsSpelled(if i < |v| then Value(v[..i]) else 0, rest);
    s := Spelling(if i < |v| then Some(v[..i]) else None, upstream, revision);
    TextIs(v, i, s);
  }

  lemma TextIs(v: string, i: nat, s: Spelling)
    requires i <= |v| && (i < |v| ==> v[i] == ':')
    requires s.epoch == (if i < |v| then Some(v[..i]) else None)
    requires RestText(s.upstream, s.revision) == if i < |v| then v[i + 1..] else v
    ensures s.Text() == v
  {
    if i < |v| { assert v == v[..i] + ":" + v[i + 1..]; }
    else { assert s.Text() == RestText(s.upstream, s.revision); }
  }

  // ----- the range of a requirement

  lemma BoundIs(v: string, bound: string)
    ensures AtLeast(v, bound) <==> Valid(v) && Valid(bound) && Compare(bound, v) != Some(Greater)
    ensures AtMost(v, bound) <==> Valid(v) && Valid(bound) && Compare(bound, v) != Some(Less)
  {
    if Valid(v) && Valid(bound) { CompareReverses(v, bound); }
  }

  /** A requirement accepts exactly the versions from its lower bound to its upper, both
      included, and a root without the package. */
  lemma BoundsAreInclusive(r: RootRequirement, v: string)
    ensures Holds(r, None)
    ensures Holds(r, Some(v)) <==>
              && (r.min.Some? ==> Valid(v) && Valid(r.min.value) && Compare(r.min.value, v) != Some(Greater))
              && (r.max.Some? ==> Valid(v) && Valid(r.max.value) && Compare(r.max.value, v) != Some(Less))
  {
    if r.min.Some? { BoundIs(v, r.min.value); }
    if r.max.Some? { BoundIs(v, r.max.value); }
  }
}
