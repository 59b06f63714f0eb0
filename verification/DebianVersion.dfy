/**
 How two Debian versions compare: by epoch, then upstream version, then revision.

 `ComparePart` walks both parts with two cursors. Its specification maps a
 part to one sequence of integers, `Key`: for each alternation of a non-digit
 and a digit run, the weights of the non-digit run, a 0 that ends it, and the
 value of the digit run. Two parts compare as their keys do when both are
 continued with zeros for ever, which makes the order a total preorder.
 */
module DebianVersion {
  import opened Base
  import opened Integers
  import opened Strings

  datatype Ordering = Less | Equal | Greater {
    function Reverse(): Ordering {
      match this
      case Less => Greater
      case Equal => Equal
      case Greater => Less
    }

    function Then(next: Ordering): Ordering {
      if this == Equal then next else this
    }
  }

  function Order(x: int, y: int): Ordering {
    if x < y then Less else if x == y then Equal else Greater
  }

  // ----- characters and runs

  predicate IsDigit(c: char) { '0' <= c <= '9' }

  predicate IsLetter(c: char) { 'a' <= c <= 'z' || 'A' <= c <= 'Z' }

  predicate AllDigits(s: string) { forall i :: 0 <= i < |s| ==> IsDigit(s[i]) }

  /** dpkg's weight of a character of a non-digit run; the run's end weighs 0. */
  function Weight(c: char): (w: int)
    ensures w != 0
  {
    if c == '~' then -1 else if IsLetter(c) then c as int else c as int + 256
  }

  predicate StartsText(s: string) { s != "" && !IsDigit(s[0]) }

  function DigitRun(s: string): (n: nat)
    ensures n <= |s| && AllDigits(s[..n])
    ensures s != "" && IsDigit(s[0]) ==> n > 0
    ensures n < |s| ==> !IsDigit(s[n])
  {
    if s == "" || !IsDigit(s[0]) then 0 else 1 + DigitRun(s[1..])
  }

  function Digit(c: char): (d: nat)
    requires IsDigit(c)
    ensures d < 10
  {
    c as int - '0' as int
  }

  /** The number a digit run spells, of any length. */
  function Value(d: string): nat
    requires AllDigits(d)
  {
    if d == "" then 0 else Digit(d[0]) * Pow10(|d| - 1) + Value(d[1..])
  }

  // ----- the order's keys

  function Key(s: string): seq<int>
    decreases |s|, 0
  {
    if s == "" then [] else RunKey(s)
  }

  /** `Key` from inside or before a non-digit run, where an empty rest still
      closes its run. */
  function RunKey(s: string): seq<int>
    decreases |s|, if s == "" then 0 else -1
  {
    if StartsText(s) then [Weight(s[0])] + RunKey(s[1..])
    else
      var n := DigitRun(s);
      [0, Value(s[..n])] + if s == "" then [] else Key(s[n..])
  }

  function Weights(t: string): seq<int> { seq(|t|, i requires 0 <= i < |t| => Weight(t[i])) }

  /** The key read run by run: a text run's weights, the 0 that ends it, the
      value of the digit run after it, and then the rest. */
  lemma {:induction false} KeySpellsRuns(text: string, digits: string, rest: string)
    requires forall i :: 0 <= i < |text| ==> !IsDigit(text[i])
    requires AllDigits(digits) && text + digits != ""
    requires rest == "" || (digits != "" && !IsDigit(rest[0]))
    ensures Key(text + digits + rest) == Weights(text) + [0, Value(digits)] + Key(rest)
  {
    if text != "" {
      var tail := text[1..];
      if tail + digits == "" {
        EmptyRun(tail, digits, rest);
      } else {
        KeySpellsRuns(tail, digits, rest);
        Regroup(Weights(tail), [0, Value(digits)], Key(rest));
        assert tail + digits + rest == tail + (digits + rest);
        KeyIsRunKey(tail + (digits + rest));
      }
      TextStep(text, digits + rest, [0, Value(digits)] + Key(rest));
      assert text + digits + rest == text + (digits + rest);
      Regroup(Weights(text), [0, Value(digits)], Key(rest));
    } else {
      assert text + digits + rest == digits + rest;
      KeyOfDigits(digits, rest);
      Regroup(Weights(text), [0, Value(digits)], Key(rest));
      assert Weights(text) + ([0, Value(digits)] + Key(rest)) == [0, Value(digits)] + Key(rest);
    }
  }

  lemma Regroup(a: seq<int>, b: seq<int>, c: seq<int>)
    ensures a + b + c == a + (b + c)
  {
  }

  lemma EmptyRun(tail: string, digits: string, rest: string)
    requires tail == "" && digits == "" && rest == ""
    ensures RunKey(tail + (digits + rest)) == Weights(tail) + ([0, Value(digits)] + Key(rest))
  {
    assert tail + (digits + rest) == "" && Weights(tail) == [];
    assert ""[..0] == "";
  }

  lemma KeyIsRunKey(s: string)
    requires s != ""
    ensures Key(s) == RunKey(s)
  {
  }

  lemma TextStep(text: string, after: string, key: seq<int>)
    requires text != "" && !IsDigit(text[0]) && RunKey(text[1..] + after) == Weights(text[1..]) + key
    ensures Key(text + after) == Weights(text) + key
  {
    assert (text + after)[1..] == text[1..] + after;
    assert Weights(text) == [Weight(text[0])] + Weights(text[1..]);
  }

  lemma KeyOfDigits(digits: string, rest: string)
    requires AllDigits(digits) && digits != "" && (rest == "" || !IsDigit(rest[0]))
    ensures Key(digits + rest) == [0, Value(digits)] + Key(rest)
  {
    var s := digits + rest;
    DigitRunSpans(digits, rest);
    assert s[..|digits|] == digits && s[|digits|..] == rest;
  }

  lemma {:induction false} DigitRunSpans(digits: string, rest: string)
    requires AllDigits(digits) && (rest == "" || !IsDigit(rest[0]))
    ensures DigitRun(digits + rest) == |digits|
  {
    if digits != "" {
      assert (digits + rest)[1..] == digits[1..] + rest;
      DigitRunSpans(digits[1..], rest);
    }
  }

  function Head(x: seq<int>): int { if x == [] then 0 else x[0] }

  function Tail(x: seq<int>): (t: seq<int>)
    ensures x != [] ==> |t| == |x| - 1
  {
    if x == [] then [] else x[1..]
  }

  /** Lexicographic order of two sequences continued with zeros. */
  function Lex(x: seq<int>, y: seq<int>): Ordering
    decreases |x| + |y|
  {
    if x == [] && y == [] then Equal
    else Order(Head(x), Head(y)).Then(Lex(Tail(x), Tail(y)))
  }

  lemma {:induction false} LexReverse(x: seq<int>, y: seq<int>)
    ensures Lex(y, x) == Lex(x, y).Reverse()
    decreases |x| + |y|
  {
    if x != [] || y != [] {
      LexReverse(Tail(x), Tail(y));
    }
  }

  lemma {:induction false} LexTransitive(x: seq<int>, y: seq<int>, z: seq<int>)
    requires Lex(x, y) != Greater && Lex(y, z) != Greater
    ensures Lex(x, z) != Greater
    ensures Lex(x, z) == Equal <==> Lex(x, y) == Equal && Lex(y, z) == Equal
    decreases |x| + |y| + |z|
  {
    if x != [] || y != [] || z != [] {
      if Order(Head(x), Head(y)) == Equal && Order(Head(y), Head(z)) == Equal {
        LexTransitive(Tail(x), Tail(y), Tail(z));
      }
    }
  }

  lemma {:induction false} LexReflexive(x: seq<int>)
    ensures Lex(x, x) == Equal
    decreases |x|
  {
    if x != [] { LexReflexive(Tail(x)); }
  }

  /** A closing 0 and the number 0 are what the continuation supplies anyway. */
  lemma LexPadding(y: seq<int>)
    ensures Lex([], y) == Lex([0, 0], y)
    ensures Lex(y, []) == Lex(y, [0, 0])
  {
    var x: seq<int> := [0, 0];
    assert Tail(x) == [0] && Tail(Tail(x)) == [];
    LexReverse([], y);
    LexReverse(x, y);
  }

  lemma RunKeyCompares(a: string, b: string)
    ensures Lex(Key(a), Key(b)) == Lex(RunKey(a), RunKey(b))
  {
    LexPadding(Key(b));
    LexPadding(RunKey(a));
    LexPadding([0, 0]);
  }

  // ----- digit runs of any length in numeric order

  lemma Scale(m: nat, n: nat, p: nat)
    requires m <= n
    ensures m * p <= n * p
  {
  }

  lemma {:induction false} ValueBound(d: string)
    requires AllDigits(d)
    ensures Value(d) < Pow10(|d|)
  {
    if d != "" {
      ValueBound(d[1..]);
      Scale(Digit(d[0]), 9, Pow10(|d| - 1));
    }
  }

  lemma {:induction false} Pow10Monotone(m: nat, n: nat)
    requires m <= n
    ensures Pow10(m) <= Pow10(n)
  {
    if m < n { Pow10Monotone(m, n - 1); }
  }

  /** The longer of two digit runs without leading zeros is the larger. */
  lemma LongerIsLarger(x: string, y: string)
    requires AllDigits(x) && AllDigits(y)
    requires |x| < |y| && y[0] != '0'
    ensures Value(x) < Value(y)
  {
    ValueBound(x);
    Pow10Monotone(|x|, |y| - 1);
    Scale(1, Digit(y[0]), Pow10(|y| - 1));
  }

  lemma LeadingOrder(i: nat, a: nat, j: nat, b: nat, p: nat)
    requires a < p && b < p
    ensures Order(i * p + a, j * p + b) == Order(i, j).Then(Order(a, b))
  {
    if i < j {
      assert i * p + p <= j * p by { Scale(i + 1, j, p); assert (i + 1) * p == i * p + p; }
    } else if j < i {
      assert j * p + p <= i * p by { Scale(j + 1, i, p); assert (j + 1) * p == j * p + p; }
    }
  }

  function StringOrder(x: string, y: string): Ordering {
    if x == "" || y == "" then Order(|x|, |y|)
    else Order(x[0] as int, y[0] as int).Then(StringOrder(x[1..], y[1..]))
  }

  lemma {:induction false} EqualLengthOrder(x: string, y: string)
    requires AllDigits(x) && AllDigits(y) && |x| == |y|
    ensures StringOrder(x, y) == Order(Value(x), Value(y))
  {
    if x != "" {
      EqualLengthOrder(x[1..], y[1..]);
      ValueBound(x[1..]);
      ValueBound(y[1..]);
      LeadingOrder(Digit(x[0]), Value(x[1..]), Digit(y[0]), Value(y[1..]), Pow10(|x| - 1));
    }
  }

  function Trim(d: string): (t: string)
    requires AllDigits(d)
    ensures AllDigits(t) && (t == "" || t[0] != '0')
    ensures Value(t) == Value(d)
  {
    if d != "" && d[0] == '0' then Trim(d[1..]) else d
  }

  lemma TrimmedOrder(x: string, y: string)
    requires AllDigits(x) && AllDigits(y)
    ensures Order(|Trim(x)|, |Trim(y)|).Then(StringOrder(Trim(x), Trim(y)))
         == Order(Value(x), Value(y))
  {
    var a, b := Trim(x), Trim(y);
    if |a| < |b| { LongerIsLarger(a, b); }
    else if |b| < |a| { LongerIsLarger(b, a); }
    else { EqualLengthOrder(a, b); }
  }

  // ----- the loop

  /** Run by run, on two cursors: text by weights, then digits by length and text. */
  method ComparePart(left: string, right: string) returns (order: Ordering)
    ensures order == Lex(Key(left), Key(right))
  {
    var a, b := left, right;
    while a != "" || b != ""
      invariant Lex(Key(left), Key(right)) == Lex(Key(a), Key(b))
      decreases |a| + |b|
    {
      ghost var a0, b0 := a, b;
      RunKeyCompares(a, b);
      while StartsText(a) || StartsText(b)
        invariant Lex(Key(left), Key(right)) == Lex(RunKey(a), RunKey(b))
        invariant |a| + |b| < |a0| + |b0| || (a == a0 && b == b0)
        decreases |a| + |b|
      {
        var x := if StartsText(a) then Weight(a[0]) else 0;
        var y := if StartsText(b) then Weight(b[0]) else 0;
        assert x == Head(RunKey(a)) && y == Head(RunKey(b));
        if x != y {
          return Order(x, y);
        }
        assert Tail(RunKey(a)) == RunKey(a[1..]) && Tail(RunKey(b)) == RunKey(b[1..]);
        a, b := a[1..], b[1..];
      }
      var i, j := DigitRun(a), DigitRun(b);
      var da, db := Trim(a[..i]), Trim(b[..j]);
      order := Order(|da|, |db|).Then(StringOrder(da, db));
      TrimmedOrder(a[..i], b[..j]);
      PastDigits(a, i);
      PastDigits(b, j);
      if order != Equal {
        return;
      }
      a, b := a[i..], b[j..];
    }
    order := Equal;
  }

  /** Once the text of a run is consumed, its key is the closing 0, the number
      and the key of what follows. */
  lemma PastDigits(s: string, n: nat)
    requires !StartsText(s) && n == DigitRun(s)
    ensures Head(RunKey(s)) == 0
    ensures Head(Tail(RunKey(s))) == Value(s[..n])
    ensures Tail(Tail(RunKey(s))) == Key(s[n..])
    ensures |RunKey(s)| >= 2
  {
    var k := RunKey(s);
    assert k == [0, Value(s[..n])] + Key(s[n..]);
    assert Tail(k) == [Value(s[..n])] + Key(s[n..]);
  }

  // ----- whole versions

  const MAX_LEN: nat := 64

  datatype Parts = Parts(epoch: nat, upstream: string, revision: string)

  function LastIndexOf(s: string, c: char): (i: nat)
    ensures i <= |s|
    ensures i < |s| ==> s[i] == c && c !in s[i + 1..]
    ensures i == |s| <==> c !in s
  {
    if s == "" then 0
    else if s[|s| - 1] == c then |s| - 1
    else
      var i := LastIndexOf(s[..|s| - 1], c);
      if i == |s| - 1 then |s| else i
  }

  predicate PartChars(s: string, dash: bool) {
    forall i :: 0 <= i < |s| ==>
      IsDigit(s[i]) || IsLetter(s[i]) || s[i] in ".+~" || (dash && s[i] == '-')
  }

  function SplitRevision(rest: string): (string, string) {
    var i := LastIndexOf(rest, '-');
    if i < |rest| then (rest[..i], rest[i + 1..]) else (rest, "")
  }

  function ParseRest(epoch: nat, rest: string): Option<Parts> {
    var (upstream, revision) := SplitRevision(rest);
    if
      && upstream != "" && IsDigit(upstream[0]) && PartChars(upstream, true)
      && if revision == "" then '-' !in rest else PartChars(revision, false)
    then Some(Parts(epoch, upstream, revision))
    else None
  }

  function ParseParts(version: string): Option<Parts> {
    if version == "" || |version| > MAX_LEN then None
    else
      var i := IndexOf(version, ':');
      if i == |version| then ParseRest(0, version)
      else if i == 0 || i > 9 || !AllDigits(version[..i]) then None
      else ParseRest(Value(version[..i]), version[i + 1..])
  }

  predicate Valid(version: string) { ParseParts(version).Some? }

  function CompareParts(a: Parts, b: Parts): Ordering {
    Order(a.epoch, b.epoch)
      .Then(Lex(Key(a.upstream), Key(b.upstream)))
      .Then(Lex(Key(a.revision), Key(b.revision)))
  }

  /** The order of two versions, or `None` if either is invalid. */
  function Compare(a: string, b: string): Option<Ordering> {
    var x, y := ParseParts(a), ParseParts(b);
    if x.Some? && y.Some? then Some(CompareParts(x.value, y.value)) else None
  }

  method CompareVersions(a: string, b: string) returns (order: Option<Ordering>)
    ensures order == Compare(a, b)
    ensures order.Some? <==> Valid(a) && Valid(b)
  {
    var x, y := ParseParts(a), ParseParts(b);
    if x.None? || y.None? {
      return None;
    }
    var r := Order(x.value.epoch, y.value.epoch);
    if r == Equal {
      r := ComparePart(x.value.upstream, y.value.upstream);
      if r == Equal {
        r := ComparePart(x.value.revision, y.value.revision);
      }
    }
    order := Some(r);
  }

  // ----- what dpkg's order promises

  /** Swapping the arguments reverses the answer, and a version equals itself. */
  lemma CompareReverses(a: string, b: string)
    requires Valid(a) && Valid(b)
    ensures Compare(b, a) == Some(Compare(a, b).value.Reverse())
    ensures Compare(a, a) == Some(Equal)
  {
    var x, y := ParseParts(a).value, ParseParts(b).value;
    LexReverse(Key(x.upstream), Key(y.upstream));
    LexReverse(Key(x.revision), Key(y.revision));
    LexReflexive(Key(x.upstream));
    LexReflexive(Key(x.revision));
  }

  predicate AtMost(a: string, b: string) {
    Compare(a, b) == Some(Less) || Compare(a, b) == Some(Equal)
  }

  predicate AtLeast(a: string, b: string) {
    Compare(a, b) == Some(Greater) || Compare(a, b) == Some(Equal)
  }

  lemma CompareTransitive(a: string, b: string, c: string)
    requires AtMost(a, b) && AtMost(b, c)
    ensures AtMost(a, c)
    ensures Compare(a, c) == Some(Equal) <==> Compare(a, b) == Some(Equal) && Compare(b, c) == Some(Equal)
  {
    var x, y, z := ParseParts(a).value, ParseParts(b).value, ParseParts(c).value;
    if x.epoch == y.epoch == z.epoch {
      LexTransitive(Key(x.upstream), Key(y.upstream), Key(z.upstream));
      if Lex(Key(x.upstream), Key(z.upstream)) == Equal {
        LexTransitive(Key(x.revision), Key(y.revision), Key(z.revision));
      }
    }
  }

  /** A version without a revision and the same version with revision `0` are
      one version to the order: no third version can tell them apart. */
  lemma AbsentRevisionIsZero(v: string, w: string)
    requires Valid(v) && ParseParts(v).value.revision == ""
    requires |v| + 2 <= MAX_LEN
    ensures Valid(v + "-0")
    ensures Compare(v, v + "-0") == Some(Equal)
    ensures Compare(v, w) == Compare(v + "-0", w)
  {
    ZeroRevisionParses(v);
    var p := ParseParts(v).value;
    ZeroKey();
    LexReflexive(Key(p.upstream));
    LexPadding([]);
    if Valid(w) {
      LexPadding(Key(ParseParts(w).value.revision));
    }
  }

  lemma ZeroKey()
    ensures Key("0") == [0, 0]
  {
    var s := "0";
    assert s[..1] == s && s[1..] == "";
    assert Value(s) == Digit('0') * Pow10(0) + Value(s[1..]);
  }

  lemma ZeroRevisionParses(v: string)
    requires Valid(v) && ParseParts(v).value.revision == ""
    requires |v| + 2 <= MAX_LEN
    ensures ParseParts(v + "-0") == Some(ParseParts(v).value.(revision := "0"))
  {
    var z := v + "-0";
    var i := IndexOf(v, ':');
    IndexOfAppend(v, "-0", ':');
    if i < |v| {
      assert z[..i] == v[..i];
      assert z[i + 1..] == v[i + 1..] + "-0";
      ZeroRevisionOfRest(ParseParts(v).value.epoch, v[i + 1..]);
    } else {
      ZeroRevisionOfRest(0, v);
    }
  }

  lemma ZeroRevisionOfRest(epoch: nat, rest: string)
    requires ParseRest(epoch, rest).Some? && ParseRest(epoch, rest).value.revision == ""
    ensures ParseRest(epoch, rest + "-0") == Some(ParseRest(epoch, rest).value.(revision := "0"))
  {
    assert '-' !in rest;
    RevisionZero(rest);
  }

  lemma RevisionZero(rest: string)
    requires '-' !in rest
    ensures SplitRevision(rest + "-0") == (rest, "0")
  {
    var r := rest + "-0";
    assert r[|r| - 1] == '0' && r[|rest|] == '-';
    var s := r[..|r| - 1];
    assert s[|s| - 1] == '-';
    assert LastIndexOf(s, '-') == |rest|;
    assert LastIndexOf(r, '-') == |rest|;
    assert r[..|rest|] == rest && r[|rest| + 1..] == "0";
  }

  // ----- the versions a root requirement accepts

  datatype RootRequirement = RootRequirement(min: Option<string>, max: Option<string>)

  /** `RootRequirement::holds`, of the version the root provides, if any. */
  predicate Holds(r: RootRequirement, provided: Option<string>) {
    match provided
    case None => true
    case Some(v) =>
      && (r.min.Some? ==> AtLeast(v, r.min.value))
      && (r.max.Some? ==> AtMost(v, r.max.value))
  }

  /** A requirement accepts an interval: whatever lies between two accepted
      versions is accepted. */
  lemma RequirementIsConvex(r: RootRequirement, low: string, mid: string, high: string)
    requires Holds(r, Some(low)) && Holds(r, Some(high))
    requires AtMost(low, mid) && AtMost(mid, high)
    ensures Holds(r, Some(mid))
  {
    if r.min.Some? {
      CompareReverses(low, r.min.value);
      CompareTransitive(r.min.value, low, mid);
      CompareReverses(r.min.value, mid);
    }
    if r.max.Some? { CompareTransitive(mid, high, r.max.value); }
  }
}
