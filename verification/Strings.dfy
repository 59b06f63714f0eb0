/** Searching and splitting of sequences, as the standard string functions do. */
module Strings {
  /** Where `c` first is in `s`, or the length of `s`. */
  function IndexOf<T(==)>(s: seq<T>, c: T): (i: nat)
    ensures i <= |s| && c !in s[..i]
    ensures i < |s| ==> s[i] == c
    ensures i == |s| <==> c !in s
  {
    if s == [] || s[0] == c then 0 else 1 + IndexOf(s[1..], c)
  }

  lemma {:induction false} IndexOfAppend<T>(s: seq<T>, t: seq<T>, c: T)
    ensures IndexOf(s + t, c) == if c in s then IndexOf(s, c) else |s| + IndexOf(t, c)
  {
    if s == [] {
      assert s + t == t;
    } else if s[0] != c {
      assert (s + t)[1..] == s[1..] + t;
      IndexOfAppend(s[1..], t, c);
    }
  }

  /** The parts of `s` between its separators: one more than there are of them. */
  function Split<T(==)>(s: seq<T>, c: T): (parts: seq<seq<T>>)
    ensures parts != []
    decreases |s|
  {
    var i := IndexOf(s, c);
    if i == |s| then [s] else [s[..i]] + Split(s[i + 1..], c)
  }

  function Join<T>(parts: seq<seq<T>>, c: T): seq<T>
    requires parts != []
  {
    if |parts| == 1 then parts[0] else parts[0] + [c] + Join(parts[1..], c)
  }

  lemma CutOut<T>(s: seq<T>, i: nat)
    requires i < |s|
    ensures s[..i] + [s[i]] + s[i + 1..] == s
  {
  }

  lemma JoinCons<T>(first: seq<T>, parts: seq<seq<T>>, c: T)
    requires parts != []
    ensures Join([first] + parts, c) == first + [c] + Join(parts, c)
  {
    assert ([first] + parts)[1..] == parts;
  }

  lemma {:induction false} JoinSplit<T>(s: seq<T>, c: T)
    ensures Join(Split(s, c), c) == s
    decreases |s|
  {
    var i := IndexOf(s, c);
    if i < |s| {
      JoinSplit(s[i + 1..], c);
      var first, parts := s[..i], Split(s[i + 1..], c);
      assert Split(s, c) == [first] + parts;
      JoinCons(first, parts, c);
      CutOut(s, i);
    }
  }

  lemma {:induction false} SplitJoin<T>(parts: seq<seq<T>>, c: T)
    requires parts != [] && forall i :: 0 <= i < |parts| ==> c !in parts[i]
    ensures Split(Join(parts, c), c) == parts
  {
    var first := parts[0];
    if |parts| == 1 {
      assert parts == [first];
    } else {
      SplitJoin(parts[1..], c);
      SplitCons(first, Join(parts[1..], c), c);
      assert parts == [first] + parts[1..];
    }
  }

  lemma SplitCons<T>(first: seq<T>, rest: seq<T>, c: T)
    requires c !in first
    ensures Split(first + [c] + rest, c) == [first] + Split(rest, c)
  {
    var s := first + [c] + rest;
    assert s == first + ([c] + rest);
    IndexOfAppend(first, [c] + rest, c);
    assert s[..|first|] == first && s[|first| + 1..] == rest;
  }

  lemma MiddleSlice<T>(a: seq<T>, b: seq<T>, c: seq<T>)
    ensures (a + (b + c))[|a|..|a| + |b|] == b
  {
  }

  lemma FrontSlice<T>(a: seq<T>, b: seq<T>, i: nat, j: nat)
    requires i <= j <= |a|
    ensures (a + b)[i..j] == a[i..j]
  {
  }

  lemma BackSlice<T>(a: seq<T>, b: seq<T>)
    ensures (a + b)[|a|..|a| + |b|] == b
  {
  }

  lemma SliceAfter<T>(a: seq<T>, b: seq<T>, i: nat, j: nat)
    requires i <= j <= |b|
    ensures (a + b)[|a| + i..|a| + j] == b[i..j]
  {
  }

  lemma NestedSlice<T>(s: seq<T>, a: nat, b: nat, i: nat, j: nat)
    requires i <= j && a + j <= b <= |s|
    ensures s[a..b][i..j] == s[a + i..a + j]
  {
    var part := s[a..b];
    forall k | 0 <= k < j - i ensures part[i..j][k] == s[a + i..a + j][k] {
      assert part[i + k] == s[a + (i + k)];
    }
  }
}
