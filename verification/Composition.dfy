/**
 The boot check on core components: they are laid over the root only if no file of
 any layer would thereby be hidden.
 */
module Composition {
  import opened Base

  const MAX_ENTRIES: nat := 200_000

  type Path = seq<string>

  /** A leaf is anything that is not a directory. */
  datatype Node = Directory | Leaf(content: string)

  type Layer = map<Path, Node>

  function Parent(p: Path): Path
    requires p != []
  {
    p[..|p| - 1]
  }

  /** Whatever holds an entry is a directory; the layer's own root is implied. */
  ghost predicate IsTree(l: Layer) {
    forall p {:trigger Held(l, p)} :: p in l ==> Held(l, p)
  }

  predicate Held(l: Layer, p: Path) {
    p != [] && (Parent(p) == [] || (Parent(p) in l && l[Parent(p)] == Directory))
  }

  function Children(l: Layer, d: Path): set<Path> {
    set p | p in l && p != [] && Parent(p) == d
  }

  // ----- what the check accepts

  predicate InPlace(p: Path) {
    |p| == 1 ==> p[0] == "usr" || p[0] == "etc"
  }

  predicate BothDirectories(a: Layer, b: Layer, p: Path)
    requires p in a && p in b
  {
    a[p] == Directory && b[p] == Directory
  }

  /** Paths two layers share are directories in both. */
  ghost predicate Agree(a: Layer, b: Layer) {
    forall p :: p in a && p in b ==> BothDirectories(a, b, p)
  }

  /** Components hold only `usr` and `etc`; a component file is in no other layer,
      and a component directory is a directory wherever it appears. */
  ghost predicate Composes(root: Layer, components: seq<Layer>) {
    && (forall i, p :: 0 <= i < |components| && p in components[i] ==> InPlace(p))
    && (forall i :: 0 <= i < |components| ==> Agree(components[i], root))
    && (forall i, j :: 0 <= j < i < |components| ==> Agree(components[i], components[j]))
  }

  function Total(components: seq<Layer>): nat {
    if components == [] then 0 else Total(components[..|components| - 1]) + |components[|components| - 1]|
  }

  lemma {:induction false} TotalGrows(components: seq<Layer>, n: nat)
    requires n <= |components|
    ensures Total(components[..n]) <= Total(components)
    decreases |components|
  {
    if n < |components| {
      TotalGrows(components[..|components| - 1], n);
      assert components[..|components| - 1][..n] == components[..n];
    } else {
      assert components[..n] == components;
    }
  }

  // ----- the check

  datatype Refusal =
    | OutOfPlace(component: nat, name: string)
    | TooMany
    | ShadowsRoot(component: nat, path: Path)
    | ClaimedTwice(component: nat, path: Path)

  /** The refusal names a fault the composition has. */
  ghost predicate Justified(root: Layer, components: seq<Layer>, refusal: Refusal) {
    match refusal
    case TooMany => Total(components) > MAX_ENTRIES
    case OutOfPlace(i, name) => i < |components| && [name] in components[i] && !InPlace([name])
    case ShadowsRoot(i, p) =>
      i < |components| && p in components[i] && p in root && !BothDirectories(components[i], root, p)
    case ClaimedTwice(i, p) =>
      && i < |components| && p in components[i]
      && exists j :: 0 <= j < i && p in components[j] && !BothDirectories(components[i], components[j], p)
  }

  /** `claimed` says of each path of the components whether it is a directory. */
  ghost predicate ClaimsOf(claimed: map<Path, bool>, components: seq<Layer>) {
    && (forall i, p :: 0 <= i < |components| && p in components[i] ==>
          p in claimed && claimed[p] == (components[i][p] == Directory))
    && (forall p :: p in claimed ==> exists i :: 0 <= i < |components| && p in components[i])
  }

  function Claim(claimed: map<Path, bool>, l: Layer, s: set<Path>): map<Path, bool>
    requires s <= l.Keys
  {
    claimed + map p | p in s :: l[p] == Directory
  }

  /** A layer's entry may join the root and the paths already claimed. */
  predicate Free(root: Layer, claimed: map<Path, bool>, l: Layer, p: Path)
    requires p in l
  {
    && (p in root ==> BothDirectories(l, root, p))
    && (p in claimed ==> l[p] == Directory && claimed[p])
  }

  ghost predicate AllFree(root: Layer, claimed: map<Path, bool>, l: Layer, s: set<Path>) {
    s <= l.Keys && forall p :: p in s ==> Free(root, claimed, l, p)
  }

  /** `list` holds the directories among `s`, each once. */
  ghost predicate ListsDirectories(list: seq<Path>, l: Layer, s: set<Path>) {
    && s <= l.Keys
    && (forall i, j :: 0 <= i < j < |list| ==> list[i] != list[j])
    && (forall p :: p in list <==> p in s && l[p] == Directory)
  }

  lemma ListsOneMore(list: seq<Path>, l: Layer, s: set<Path>, p: Path)
    requires ListsDirectories(list, l, s) && p in l && p !in s
    ensures ListsDirectories(if l[p] == Directory then list + [p] else list, l, s + {p})
  {
  }

  datatype Visit =
    | Visited(claimed: map<Path, bool>, entries: nat, directories: seq<Path>)
    | Full
    | Shadows(path: Path)
    | Claimed(path: Path)

  /** A refused entry is one of the layer's, and not free. */
  ghost predicate Refuses(v: Visit, root: Layer, claimed: map<Path, bool>, l: Layer) {
    match v
    case Visited(_, _, _) => false
    case Full => false
    case Shadows(p) => p in l && p in root && !BothDirectories(l, root, p)
    case Claimed(p) => p in l && p in claimed && !(l[p] == Directory && claimed[p])
  }

  ghost predicate Parts<T(!new)>(done: set<T>, todo: set<T>, all: set<T>) {
    (forall x :: x in all <==> x in done || x in todo) && forall x :: x in done ==> x !in todo
  }

  lemma PartsMove<T(!new)>(done: set<T>, todo: set<T>, all: set<T>, x: T)
    requires Parts(done, todo, all) && x in todo
    ensures Parts(done + {x}, todo - {x}, all) && |todo - {x}| == |todo| - 1
  {
  }

  lemma PartsEnd<T(!new)>(done: set<T>, all: set<T>)
    requires Parts(done, {}, all)
    ensures done == all
  {
  }

  lemma SubsetSize<T>(a: set<T>, b: set<T>)
    requires a <= b
    ensures |a| <= |b|
  {
    assert b == a + (b - a);
  }

  lemma ClaimOne(claimed: map<Path, bool>, l: Layer, s: set<Path>, p: Path)
    requires s <= l.Keys && p in l && p !in s
    ensures p in Claim(claimed, l, s) <==> p in claimed
    ensures p in claimed ==> Claim(claimed, l, s)[p] == claimed[p]
    ensures p !in claimed || (l[p] == Directory) == claimed[p] ==>
              Claim(claimed, l, s + {p}) ==
              if p in claimed then Claim(claimed, l, s) else Claim(claimed, l, s)[p := l[p] == Directory]
  {
  }

  /** The entries done are free, claimed, and listed where they are directories. */
  ghost predicate Visiting(root: Layer, l: Layer, claimed: map<Path, bool>, done: set<Path>,
                           now: map<Path, bool>, directories: seq<Path>) {
    && AllFree(root, claimed, l, done)
    && now == Claim(claimed, l, done)
    && ListsDirectories(directories, l, done)
  }

  lemma VisitOne(root: Layer, l: Layer, claimed: map<Path, bool>, done: set<Path>,
                 now: map<Path, bool>, directories: seq<Path>, p: Path)
    requires Visiting(root, l, claimed, done, now, directories)
    requires p in l && p !in done && Free(root, claimed, l, p)
    ensures Visiting(root, l, claimed, done + {p}, if p in now then now else now[p := l[p] == Directory],
                     if l[p] == Directory then directories + [p] else directories)
  {
    ClaimOne(claimed, l, done, p);
    ListsOneMore(directories, l, done, p);
  }

  /** Look at one entry; where it may stay it is claimed, and listed if it is a directory. */
  method VisitEntry(root: Layer, l: Layer, p: Path, now: map<Path, bool>, directories: seq<Path>,
                    ghost claimed: map<Path, bool>, ghost done: set<Path>)
    returns (v: Visit, now': map<Path, bool>, directories': seq<Path>)
    requires Visiting(root, l, claimed, done, now, directories) && p in l && p !in done
    ensures !v.Full?
    ensures v.Visited? ==> Visiting(root, l, claimed, done + {p}, now', directories')
    ensures v.Shadows? || v.Claimed? ==> v.path == p && Refuses(v, root, claimed, l)
  {
    now', directories' := now, directories;
    var directory := l[p] == Directory;
    if p in root && !(directory && root[p] == Directory) { return Shadows(p), now, directories; }
    ClaimOne(claimed, l, done, p);
    if p in now && !(directory && now[p]) { return Claimed(p), now, directories; }
    VisitOne(root, l, claimed, done, now, directories, p);
    if p !in now { now' := now[p := directory]; }
    if directory { directories' := directories + [p]; }
    v := Visited(now', 0, directories');
  }

  /** Look at every entry of one directory, in the order it is listed. */
  method VisitDirectory(root: Layer, l: Layer, listed: set<Path>, claimed: map<Path, bool>, entries: nat) returns (v: Visit)
    requires listed <= l.Keys && entries <= MAX_ENTRIES
    ensures v.Visited? ==>
              && v.claimed == Claim(claimed, l, listed)
              && v.entries == entries + |listed| <= MAX_ENTRIES
              && AllFree(root, claimed, l, listed)
              && ListsDirectories(v.directories, l, listed)
    ensures v.Full? ==> entries + |listed| > MAX_ENTRIES
    ensures v.Shadows? || v.Claimed? ==> v.path in listed && Refuses(v, root, claimed, l)
  {
    var todo, now, count, directories := listed, claimed, entries, [];
    ghost var done: set<Path> := {};
    while todo != {}
      invariant Parts(done, todo, listed)
      invariant Visiting(root, l, claimed, done, now, directories)
      invariant count + |todo| == entries + |listed| && count <= MAX_ENTRIES
      decreases |todo|
    {
      var p :| p in todo;
      count := count + 1;
      if count > MAX_ENTRIES { return Full; }
      v, now, directories := VisitEntry(root, l, p, now, directories, claimed, done);
      if !v.Visited? { return; }
      PartsMove(done, todo, listed, p);
      todo, done := todo - {p}, done + {p};
    }
    PartsEnd(done, listed);
    v := Visited(now, count, directories);
  }

  /** What a walk has seen once the directories `expanded` are listed. */
  function Seen(l: Layer, expanded: set<Path>): set<Path> {
    set p | p in l && p != [] && Parent(p) in expanded
  }

  /** Each directory seen is either expanded or waits once on the stack. */
  ghost predicate Waiting(l: Layer, expanded: set<Path>, pending: seq<Path>) {
    && (forall i, j :: 0 <= i < j < |pending| ==> pending[i] != pending[j])
    && (forall d :: d in pending ==> d !in expanded && (d == [] || (d in Seen(l, expanded) && l[d] == Directory)))
    && ([] in expanded || [] in pending)
    && (forall d :: d in Seen(l, expanded) && l[d] == Directory ==> d in expanded || d in pending)
    && (forall d {:trigger Reached(l, expanded, d)} :: d in expanded ==> Reached(l, expanded, d))
  }

  predicate Reached(l: Layer, expanded: set<Path>, d: Path) {
    d == [] || d in Seen(l, expanded)
  }

  lemma SeenGrows(l: Layer, expanded: set<Path>, d: Path)
    requires d !in expanded
    ensures Seen(l, expanded + {d}) == Seen(l, expanded) + Children(l, d)
    ensures Seen(l, expanded) !! Children(l, d)
  {
  }

  lemma WaitingStep(l: Layer, expanded: set<Path>, pending: seq<Path>, directories: seq<Path>)
    requires Waiting(l, expanded, pending) && pending != []
    requires ListsDirectories(directories, l, Children(l, pending[|pending| - 1]))
    ensures Waiting(l, expanded + {pending[|pending| - 1]}, pending[..|pending| - 1] + directories)
  {
    var d, rest := pending[|pending| - 1], pending[..|pending| - 1];
    SeenGrows(l, expanded, d);
    assert pending == rest + [d];
    assert d in pending;
    var wider := expanded + {d};
    forall p | p in wider ensures Reached(l, wider, p) { assert p == d || Reached(l, expanded, p); }
    forall p | p in directories ensures p !in expanded { assert Reached(l, expanded, p) ==> p in expanded ==> d in expanded; }
    assert forall p :: p in pending <==> p in rest || p == d;
    assert forall p :: p in rest + directories <==> p in rest || p in directories;
    forall i, j | 0 <= i < j < |rest + directories| ensures (rest + directories)[i] != (rest + directories)[j] {
      if i < |rest| <= j {
        assert rest[i] == pending[i] && rest[i] in pending && directories[j - |rest|] in directories;
      }
    }
  }

  /** With an empty stack the walk has seen the whole layer. */
  lemma {:induction false} WalkIsComplete(l: Layer, expanded: set<Path>, p: Path)
    requires IsTree(l) && Waiting(l, expanded, []) && p in l
    ensures p in Seen(l, expanded)
    decreases |p|
  {
    assert Held(l, p);
    if Parent(p) != [] { WalkIsComplete(l, expanded, Parent(p)); }
  }

  lemma ClaimAppends(claimed: map<Path, bool>, l: Layer, a: set<Path>, b: set<Path>)
    requires a <= l.Keys && b <= l.Keys
    ensures Claim(Claim(claimed, l, a), l, b) == Claim(claimed, l, a + b)
  {
  }

  lemma AllFreeAppends(root: Layer, claimed: map<Path, bool>, l: Layer, a: set<Path>, b: set<Path>)
    requires AllFree(root, claimed, l, a) && a !! b && AllFree(root, Claim(claimed, l, a), l, b)
    ensures AllFree(root, claimed, l, a + b)
  {
    forall p | p in b ensures Free(root, claimed, l, p) { assert Free(root, Claim(claimed, l, a), l, p); }
  }

  lemma RefusedEntry(root: Layer, claimed: map<Path, bool>, l: Layer, seen: set<Path>, v: Visit)
    requires seen <= l.Keys && !v.Visited?
    requires v.Shadows? || v.Claimed? ==> v.path !in seen && Refuses(v, root, Claim(claimed, l, seen), l)
    ensures v.Shadows? || v.Claimed? ==> Refuses(v, root, claimed, l)
  {
  }

  lemma SeenAll(l: Layer, expanded: set<Path>)
    requires IsTree(l) && Waiting(l, expanded, [])
    ensures Seen(l, expanded) == l.Keys
  {
    forall p | p in l ensures p in Seen(l, expanded) { WalkIsComplete(l, expanded, p); }
  }

  /** The state of a walk: its stack, the claims and the entry count so far. */
  ghost predicate Walking(root: Layer, l: Layer, claimed: map<Path, bool>, entries: nat,
                          expanded: set<Path>, pending: seq<Path>, now: map<Path, bool>, count: nat) {
    && Waiting(l, expanded, pending)
    && AllFree(root, claimed, l, Seen(l, expanded))
    && now == Claim(claimed, l, Seen(l, expanded))
    && count == entries + |Seen(l, expanded)| <= MAX_ENTRIES
  }

  lemma WalkStarts(root: Layer, l: Layer, claimed: map<Path, bool>, entries: nat)
    requires entries <= MAX_ENTRIES
    ensures Walking(root, l, claimed, entries, {}, [[]], claimed, entries)
  {
    assert Seen(l, {}) == {};
    assert Claim(claimed, l, {}) == claimed;
  }

  lemma WalkStep(root: Layer, l: Layer, claimed: map<Path, bool>, entries: nat,
                 expanded: set<Path>, pending: seq<Path>, now: map<Path, bool>, count: nat, v: Visit)
    requires Walking(root, l, claimed, entries, expanded, pending, now, count) && pending != []
    requires v.Visited?
    requires var listed := Children(l, pending[|pending| - 1]);
             && v.claimed == Claim(now, l, listed) && v.entries == count + |listed| <= MAX_ENTRIES
             && AllFree(root, now, l, listed) && ListsDirectories(v.directories, l, listed)
    ensures Walking(root, l, claimed, entries, expanded + {pending[|pending| - 1]},
                    pending[..|pending| - 1] + v.directories, v.claimed, v.entries)
  {
    var d := pending[|pending| - 1];
    var seen := Seen(l, expanded);
    assert d in pending;
    SeenGrows(l, expanded, d);
    AllFreeAppends(root, claimed, l, seen, Children(l, d));
    ClaimAppends(claimed, l, seen, Children(l, d));
    WaitingStep(l, expanded, pending, v.directories);
  }

  lemma WalkRefuses(root: Layer, l: Layer, claimed: map<Path, bool>, entries: nat,
                    expanded: set<Path>, pending: seq<Path>, now: map<Path, bool>, count: nat, v: Visit)
    requires Walking(root, l, claimed, entries, expanded, pending, now, count) && pending != []
    requires var listed := Children(l, pending[|pending| - 1]);
             match v
             case Visited(_, _, _) => false
             case Full => count + |listed| > MAX_ENTRIES
             case _ => v.path in listed && Refuses(v, root, now, l)
    ensures if v.Full? then entries + |l| > MAX_ENTRIES else Refuses(v, root, claimed, l)
  {
    var d := pending[|pending| - 1];
    assert d in pending;
    SeenGrows(l, expanded, d);
    SubsetSize(Seen(l, expanded) + Children(l, d), l.Keys);
    RefusedEntry(root, claimed, l, Seen(l, expanded), v);
  }

  lemma WalkProgress(l: Layer, expanded: set<Path>, pending: seq<Path>)
    requires Waiting(l, expanded, pending) && pending != []
    ensures l.Keys + {[]} - (expanded + {pending[|pending| - 1]}) < l.Keys + {[]} - expanded
  {
    assert pending[|pending| - 1] in pending;
    assert pending[|pending| - 1] in l.Keys + {[]} - expanded;
  }

  /** Walk one layer with a work stack. */
  method WalkLayer(root: Layer, l: Layer, claimed: map<Path, bool>, entries: nat) returns (v: Visit)
    requires IsTree(l) && entries <= MAX_ENTRIES
    ensures v.Visited? ==>
              && v.claimed == Claim(claimed, l, l.Keys)
              && v.entries == entries + |l| <= MAX_ENTRIES
              && AllFree(root, claimed, l, l.Keys)
    ensures v.Full? ==> entries + |l| > MAX_ENTRIES
    ensures v.Shadows? || v.Claimed? ==> Refuses(v, root, claimed, l)
  {
    var pending: seq<Path>, now, count := [[]], claimed, entries;
    ghost var expanded: set<Path> := {};
    WalkStarts(root, l, claimed, entries);
    while pending != []
      invariant Walking(root, l, claimed, entries, expanded, pending, now, count)
      decreases l.Keys + {[]} - expanded
    {
      var d := pending[|pending| - 1];
      WalkProgress(l, expanded, pending);
      v := VisitDirectory(root, l, Children(l, d), now, count);
      if !v.Visited? {
        WalkRefuses(root, l, claimed, entries, expanded, pending, now, count, v);
        return;
      }
      WalkStep(root, l, claimed, entries, expanded, pending, now, count, v);
      pending := pending[..|pending| - 1] + v.directories;
      now, count := v.claimed, v.entries;
      expanded := expanded + {d};
    }
    SeenAll(l, expanded);
    v := Visited(now, count, []);
  }

  method FirstOutOfPlace(l: Layer) returns (name: Option<string>)
    requires IsTree(l)
    ensures name.None? ==> forall p :: p in l ==> InPlace(p)
    ensures name.Some? ==> [name.value] in l && !InPlace([name.value])
  {
    var todo := Children(l, []);
    while todo != {}
      invariant todo <= Children(l, [])
      invariant forall p :: p in Children(l, []) - todo ==> InPlace(p)
      decreases |todo|
    {
      var p :| p in todo;
      assert p == [p[0]];
      if p[0] != "usr" && p[0] != "etc" { return Some(p[0]); }
      todo := todo - {p};
    }
    forall p | p in l ensures InPlace(p) {
      if |p| == 1 { assert Parent(p) == [] && p in Children(l, []); }
    }
    name := None;
  }

  lemma ClaimsStep(claimed: map<Path, bool>, components: seq<Layer>, l: Layer, root: Layer)
    requires ClaimsOf(claimed, components)
    requires AllFree(root, claimed, l, l.Keys)
    ensures ClaimsOf(Claim(claimed, l, l.Keys), components + [l])
  {
    var now, all := Claim(claimed, l, l.Keys), components + [l];
    forall i, p | 0 <= i < |all| && p in all[i] ensures p in now && now[p] == (all[i][p] == Directory) {
      if i < |components| {
        assert p in components[i];
      }
    }
    forall p | p in now ensures exists i :: 0 <= i < |all| && p in all[i] {
      if p in l {
        assert p in all[|components|];
      } else {
        var i :| 0 <= i < |components| && p in components[i];
        assert p in all[i];
      }
    }
  }

  /** Entries free of every claim agree with every component so far. */
  lemma FreeAgrees(claimed: map<Path, bool>, components: seq<Layer>, l: Layer, root: Layer)
    requires ClaimsOf(claimed, components)
    requires AllFree(root, claimed, l, l.Keys)
    ensures Agree(l, root) && forall j :: 0 <= j < |components| ==> Agree(l, components[j])
  {
  }

  lemma JustifiedEntry(root: Layer, components: seq<Layer>, i: nat, claimed: map<Path, bool>, v: Visit)
    requires i < |components| && ClaimsOf(claimed, components[..i]) && Refuses(v, root, claimed, components[i])
    ensures v.Shadows? ==> Justified(root, components, ShadowsRoot(i, v.path))
    ensures v.Claimed? ==> Justified(root, components, ClaimedTwice(i, v.path))
  {
    if v.Claimed? {
      var j :| 0 <= j < i && v.path in components[..i][j];
      assert !BothDirectories(components[i], components[j], v.path);
    }
  }

  lemma JustifiedRefuses(root: Layer, components: seq<Layer>, refusal: Refusal)
    requires Justified(root, components, refusal)
    ensures !(Composes(root, components) && Total(components) <= MAX_ENTRIES)
  {
  }

  lemma ComposesStep(root: Layer, components: seq<Layer>, i: nat)
    requires i < |components| && Composes(root, components[..i]) && Agree(components[i], root)
    requires forall p :: p in components[i] ==> InPlace(p)
    requires forall j :: 0 <= j < i ==> Agree(components[i], components[..i][j])
    ensures Composes(root, components[..i + 1])
  {
    var a, b := components[..i], components[..i + 1];
    assert forall k :: 0 <= k < i ==> b[k] == a[k];
    assert b[i] == components[i];
  }

  function RefusalOf(i: nat, v: Visit): Refusal
    requires !v.Visited?
  {
    match v
    case Full => TooMany
    case Shadows(p) => ShadowsRoot(i, p)
    case Claimed(p) => ClaimedTwice(i, p)
  }

  lemma RefusalIsJustified(root: Layer, components: seq<Layer>, i: nat, claimed: map<Path, bool>, entries: nat, v: Visit)
    requires i < |components| && ClaimsOf(claimed, components[..i]) && entries == Total(components[..i]) && !v.Visited?
    requires if v.Full? then entries + |components[i]| > MAX_ENTRIES else Refuses(v, root, claimed, components[i])
    ensures Justified(root, components, RefusalOf(i, v))
  {
    if v.Full? {
      assert components[..i + 1] == components[..i] + [components[i]];
      TotalGrows(components, i + 1);
    } else {
      JustifiedEntry(root, components, i, claimed, v);
    }
  }

  /** The entries of all components, each with the component it is in. */
  ghost function AllEntries(components: seq<Layer>): set<(nat, Path)> {
    if components == [] then {}
    else
      var n := |components| - 1;
      AllEntries(components[..n]) + set p | p in components[n] :: (n, p)
  }

  lemma {:induction false} EntriesAre(components: seq<Layer>, i: nat, p: Path)
    ensures (i, p) in AllEntries(components) <==> i < |components| && p in components[i]
  {
    if components != [] { EntriesAre(components[..|components| - 1], i, p); }
  }

  lemma {:induction false} TotalCounts(components: seq<Layer>)
    ensures Total(components) == |AllEntries(components)|
  {
    if components != [] {
      var n := |components| - 1;
      var before, last := AllEntries(components[..n]), set p | p in components[n] :: (n, p);
      TotalCounts(components[..n]);
      forall p ensures (n, p) !in before { EntriesAre(components[..n], n, p); }
      SizeOfPairs(components[n].Keys, n);
      assert last == set p | p in components[n].Keys :: (n, p);
      assert before !! last;
      assert |before + last| == |before| + |last|;
    }
  }

  lemma {:induction false} SizeOfPairs(s: set<Path>, n: nat)
    ensures |set p | p in s :: (n, p)| == |s|
  {
    if p :| p in s {
      SizeOfPairs(s - {p}, n);
      assert (set q | q in s :: (n, q)) == (set q | q in s - {p} :: (n, q)) + {(n, p)};
    } else {
      assert (set q | q in s :: (n, q)) == {};
    }
  }

  /** Nothing but `usr` and `etc` at the top, and no path of a component that is not a
      directory in every layer that has it. */
  ghost predicate HidesNothing(root: Layer, components: seq<Layer>) {
    && (forall i, p :: 0 <= i < |components| && p in components[i] && |p| == 1 ==> p == ["usr"] || p == ["etc"])
    && (forall i, p :: 0 <= i < |components| && p in components[i] && p in root ==>
          components[i][p] == root[p] == Directory)
    && (forall i, j, p :: 0 <= i < |components| && 0 <= j < |components| && i != j && p in components[i] && p in components[j] ==>
          components[i][p] == components[j][p] == Directory)
  }

  lemma ComposesExactly(root: Layer, components: seq<Layer>)
    ensures Composes(root, components) <==> HidesNothing(root, components)
  {
    if HidesNothing(root, components) {
      forall i, p | 0 <= i < |components| && p in components[i] ensures InPlace(p) {}
    }
    if Composes(root, components) {
      forall i, j, p | 0 <= i < |components| && 0 <= j < |components| && i != j && p in components[i] && p in components[j]
        ensures components[i][p] == components[j][p] == Directory
      {
        var a, b := if i < j then j else i, if i < j then i else j;
        assert Agree(components[a], components[b]);
        assert BothDirectories(components[a], components[b], p);
      }
      forall i, p | 0 <= i < |components| && p in components[i] && |p| == 1 ensures p == ["usr"] || p == ["etc"] {
        assert InPlace(p) && p == [p[0]];
      }
    }
  }

  /** Accepts exactly the compositions of at most 200000 entries that hide nothing, and
      names a real fault of any other. */
  method CheckComposition(root: Layer, components: seq<Layer>) returns (refusal: Option<Refusal>)
    requires forall i :: 0 <= i < |components| ==> IsTree(components[i])
    ensures refusal == None <==> HidesNothing(root, components) && |AllEntries(components)| <= 200_000
    ensures refusal == None ==> Composes(root, components)
    ensures refusal.Some? ==> Justified(root, components, refusal.value)
  {
    ComposesExactly(root, components);
    TotalCounts(components);
    refusal := FirstRefusal(root, components);
  }

  method FirstRefusal(root: Layer, components: seq<Layer>) returns (refusal: Option<Refusal>)
    requires forall i :: 0 <= i < |components| ==> IsTree(components[i])
    ensures refusal == None <==> Composes(root, components) && Total(components) <= MAX_ENTRIES
    ensures refusal.Some? ==> Justified(root, components, refusal.value)
  {
    var claimed: map<Path, bool>, entries := map[], 0;
    for i := 0 to |components|
      invariant Composes(root, components[..i])
      invariant ClaimsOf(claimed, components[..i])
      invariant entries == Total(components[..i]) <= MAX_ENTRIES
    {
      var l := components[i];
      var name := FirstOutOfPlace(l);
      if name.Some? {
        refusal := Some(OutOfPlace(i, name.value));
        JustifiedRefuses(root, components, refusal.value);
        return;
      }
      assert components[..i + 1] == components[..i] + [l];
      var v := WalkLayer(root, l, claimed, entries);
      if !v.Visited? {
        RefusalIsJustified(root, components, i, claimed, entries, v);
        refusal := Some(RefusalOf(i, v));
        JustifiedRefuses(root, components, refusal.value);
        return;
      }
      FreeAgrees(claimed, components[..i], l, root);
      ClaimsStep(claimed, components[..i], l, root);
      ComposesStep(root, components, i);
      claimed, entries := v.claimed, v.entries;
    }
    assert components[..|components|] == components;
    refusal := None;
  }

  // ----- the composed tree

  /** The layers, topmost first, whose directory at `p` the overlay merges: they are
      found from the top down, and a leaf hides every layer below it. */
  function Directories(layers: seq<Layer>, p: Path): seq<Layer> {
    if layers == [] then []
    else if p !in layers[0] then Directories(layers[1..], p)
    else if layers[0][p] == Directory then [layers[0]] + Directories(layers[1..], p)
    else []
  }

  function Merged(layers: seq<Layer>, p: Path): seq<Layer>
    decreases |p|
  {
    if p == [] then layers else Directories(Merged(layers, Parent(p)), p)
  }

  function Topmost(layers: seq<Layer>, p: Path): Option<Node> {
    if layers == [] then None
    else if p in layers[0] then Some(layers[0][p])
    else Topmost(layers[1..], p)
  }

  /** What the overlay shows at `p`. */
  function Shown(layers: seq<Layer>, p: Path): Option<Node>
    requires p != []
  {
    Topmost(Merged(layers, Parent(p)), p)
  }

  /** The layers say the same of every path they share. */
  ghost predicate Consistent(layers: seq<Layer>) {
    forall a, b, p :: a in layers && b in layers && p in a && p in b ==> a[p] == b[p]
  }

  lemma {:induction false} DirectoriesAre(layers: seq<Layer>, p: Path)
    requires Consistent(layers)
    ensures forall l :: l in Directories(layers, p) <==> l in layers && p in l && l[p] == Directory
  {
    if layers != [] {
      var rest := layers[1..];
      assert layers == [layers[0]] + rest;
      assert forall l :: l in layers <==> l == layers[0] || l in rest;
      DirectoriesAre(rest, p);
    }
  }

  lemma {:induction false} MergedAre(layers: seq<Layer>, p: Path)
    requires Consistent(layers) && forall l :: l in layers ==> IsTree(l)
    ensures forall l :: l in Merged(layers, p) <==> l in layers && (p == [] || (p in l && l[p] == Directory))
    decreases |p|
  {
    if p != [] {
      MergedAre(layers, Parent(p));
      assert forall l :: l in layers && p in l ==> Held(l, p);
      DirectoriesAre(Merged(layers, Parent(p)), p);
    }
  }

  lemma {:induction false} TopmostIs(layers: seq<Layer>, l: Layer, p: Path)
    requires Consistent(layers) && l in layers && p in l
    ensures Topmost(layers, p) == Some(l[p])
  {
    var rest := layers[1..];
    assert layers == [layers[0]] + rest;
    if p !in layers[0] { TopmostIs(rest, l, p); }
  }

  lemma {:induction false} TopmostIsOf(layers: seq<Layer>, p: Path)
    requires Topmost(layers, p).Some?
    ensures exists l :: l in layers && p in l
  {
    if p in layers[0] {
      assert layers[0] in layers;
    } else {
      TopmostIsOf(layers[1..], p);
    }
  }

  lemma ComposedIsConsistent(root: Layer, components: seq<Layer>, order: seq<Layer>)
    requires Composes(root, components) && forall l :: l in order <==> l == root || l in components
    ensures Consistent(order)
  {
    forall a, b, p | a in order && b in order && p in a && p in b ensures a[p] == b[p] {
      if a != b && a != root && b != root {
        var i :| 0 <= i < |components| && components[i] == a;
        var j :| 0 <= j < |components| && components[j] == b;
        assert Agree(components[if i < j then j else i], components[if i < j then i else j]);
      }
    }
  }

  /**
   A composition that is accepted shows the union of its layers, in whatever order
   they are overlaid: a path is shown exactly when some layer has it, and then as
   every layer that has it says; so nothing of the root is hidden.
   */
  lemma ComposedTreeIsTheUnion(root: Layer, components: seq<Layer>, order: seq<Layer>, p: Path)
    requires Composes(root, components) && forall l :: l in order <==> l == root || l in components
    requires p != [] && forall l :: l in order ==> IsTree(l)
    ensures Shown(order, p).Some? <==> p in root || exists i :: 0 <= i < |components| && p in components[i]
    ensures p in root ==> Shown(order, p) == Some(root[p])
    ensures forall i :: 0 <= i < |components| && p in components[i] ==> Shown(order, p) == Some(components[i][p])
  {
    ComposedIsConsistent(root, components, order);
    MergedAre(order, Parent(p));
    var stack := Merged(order, Parent(p));
    assert forall l :: l in order && p in l ==> Held(l, p);
    forall l | l in order && p in l ensures Shown(order, p) == Some(l[p]) { TopmostIs(stack, l, p); }
    if Shown(order, p).Some? {
      TopmostIsOf(stack, p);
      var l :| l in stack && p in l;
      if l != root {
        var i :| 0 <= i < |components| && components[i] == l;
        assert p in components[i];
      }
    }
  }

  /** Two layers that differ at a top-level path show it differently when they
      trade places: the refusals are needed. */
  lemma DisagreementIsAnOverride(a: Layer, b: Layer, p: Path)
    requires |p| == 1 && p in a && p in b && a[p] != b[p]
    ensures Shown([a, b], p) != Shown([b, a], p)
  {
  }
}
