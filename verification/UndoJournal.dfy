/**
 The settings store's undo journal: one save of many documents, across two
 filesystems, that is rolled back whole unless it was finished whole.

 `Committed` is the abstraction: the documents a disk stands for, which are its
 own unless a journal is there to take them back. Every step of a save or of a
 recovery, cut or failed, leaves a disk that stands for all documents as they
 were or for all as requested.
 */
module UndoJournal {
  import opened Base
  import opened DurableFiles
  import opened Documents

  const MAX_UNDO: nat := 4096

  function Target(document: string): (p: Path)
    ensures p != JournalFile && !p.Temp?
  {
    if document == STATE_DOCUMENT then StateFile else ConfigFile(document)
  }

  function Targets(undo: seq<Undo>): set<Path> {
    set i | 0 <= i < |undo| :: Target(undo[i].document)
  }

  predicate Distinct(undo: seq<Undo>) {
    forall i, j :: 0 <= i < j < |undo| ==> undo[i].document != undo[j].document
  }

  /** What recovery demands of a journal before it follows it. */
  predicate Accepts(undo: seq<Undo>) {
    && |undo| <= MAX_UNDO
    && (forall i :: 0 <= i < |undo| ==> KnownDocument(undo[i].document))
    && Distinct(undo)
  }

  /** Take back the entries of `undo`, the last first. */
  function Restore(f: Files, undo: seq<Undo>): Files {
    if undo == [] then f
    else Put(Restore(f, undo[1..]), Target(undo[0].document), undo[0].previous)
  }

  function Docs(f: Files): Files { f - {JournalFile} }

  /** The documents a disk stands for. */
  function Committed(f: Files): Files {
    match Get(f, JournalFile)
    case Some(Record(undo)) => Docs(Restore(f, undo))
    case _ => Docs(f)
  }

  /** A document's new text, or its removal. */
  datatype Request = Request(document: string, text: Option<Content>)

  predicate DistinctRequests(rs: seq<Request>) {
    forall i, j :: 0 <= i < j < |rs| ==> rs[i].document != rs[j].document
  }

  function TakenBack(undo: seq<Undo>): seq<Request> {
    seq(|undo|, i requires 0 <= i < |undo| => Request(undo[i].document, undo[i].previous))
  }

  /** The text that is asked of a document, or else the one it has. */
  function Asked(rs: seq<Request>, document: string, has: Option<Content>): Option<Content> {
    if rs == [] then has
    else if rs[0].document == document then rs[0].text
    else Asked(rs[1..], document, has)
  }

  /** File by file: `settings.toml` is the one file on STATE, every other document is the
      file of its name on DATA, each reads as asked, and no other file has changed. */
  ghost predicate Reads(before: Files, after: Files, rs: seq<Request>) {
    && Get(after, StateFile) == Asked(rs, "settings.toml", Get(before, StateFile))
    && Get(after, ConfigFile("settings.toml")) == Get(before, ConfigFile("settings.toml"))
    && (forall d :: d != "settings.toml" ==>
          Get(after, ConfigFile(d)) == Asked(rs, d, Get(before, ConfigFile(d))))
  }

  // ----- what is known of a disk while a save is not known to have ended

  /** A save in doubt: from documents `before`, to `after`, journalled as `undo`. */
  datatype Doubt = Doubt(before: Files, after: Files, undo: seq<Undo>)

  ghost predicate WellFormed(g: Doubt) {
    && Accepts(g.undo)
    && JournalFile !in g.before && JournalFile !in g.after
    && (forall i :: 0 <= i < |g.undo| ==> g.undo[i].previous == Get(g.before, Target(g.undo[i].document)))
    && (forall p :: p !in Targets(g.undo) ==> Get(g.before, p) == Get(g.after, p))
  }

  ghost predicate JournalOrNone(f: Files, undo: seq<Undo>) {
    JournalFile in f ==> f[JournalFile] == Record(undo)
  }

  /** Every document is as before or as requested; and wherever the journal
      could be missing, they are all the one or all the other. */
  ghost predicate InDoubt(v: Files, d: Files, g: Doubt) {
    && WellFormed(g)
    && JournalOrNone(v, g.undo) && JournalOrNone(d, g.undo)
    && (forall p :: p != JournalFile ==>
          && (Get(v, p) == Get(g.before, p) || Get(v, p) == Get(g.after, p))
          && (Get(d, p) == Get(g.before, p) || Get(d, p) == Get(g.after, p)))
    && (JournalFile !in v || JournalFile !in d ==>
          Docs(v) == Docs(d) && (Docs(v) == g.before || Docs(v) == g.after))
  }

  ghost predicate Quiescent(v: Files, d: Files) {
    v == d && JournalFile !in v
  }

  // ----- lemmas about restoring

  lemma {:induction false} RestoreAt(f: Files, undo: seq<Undo>, p: Path)
    requires Distinct(undo)
    ensures p !in Targets(undo) ==> Get(Restore(f, undo), p) == Get(f, p)
    ensures forall i :: 0 <= i < |undo| && Target(undo[i].document) == p ==>
              Get(Restore(f, undo), p) == undo[i].previous
  {
    if undo != [] {
      var rest := undo[1..];
      RestoreAt(f, rest, p);
      assert forall i :: 0 <= i < |rest| ==> rest[i] == undo[i + 1];
      assert Targets(undo) == {Target(undo[0].document)} + Targets(rest);
      forall i | 0 <= i < |undo| && Target(undo[i].document) == p
        ensures Get(Restore(f, undo), p) == undo[i].previous
      {
        if i > 0 {
          assert undo[0].document != undo[i].document;
          assert rest[i - 1] == undo[i];
        }
      }
    }
  }

  lemma {:induction false} AskedOf(rs: seq<Request>, d: string, has: Option<Content>)
    requires DistinctRequests(rs)
    ensures (forall i :: 0 <= i < |rs| ==> rs[i].document != d) ==> Asked(rs, d, has) == has
    ensures forall i :: 0 <= i < |rs| && rs[i].document == d ==> Asked(rs, d, has) == rs[i].text
  {
    if rs != [] {
      var rest := rs[1..];
      AskedOf(rest, d, has);
      assert forall i :: 0 <= i < |rest| ==> rest[i] == rs[i + 1];
      forall i | 0 <= i < |rs| && rs[i].document == d ensures Asked(rs, d, has) == rs[i].text {
        if i > 0 { assert rest[i - 1] == rs[i]; }
      }
    }
  }

  lemma RestoreReadsAt(f: Files, undo: seq<Undo>, d: string)
    requires Distinct(undo)
    ensures Get(Docs(Restore(f, undo)), Target(d)) == Asked(TakenBack(undo), d, Get(f, Target(d)))
  {
    var rs := TakenBack(undo);
    RestoreAt(f, undo, Target(d));
    AskedOf(rs, d, Get(f, Target(d)));
    if i :| 0 <= i < |undo| && undo[i].document == d {
      assert rs[i].document == d;
    } else {
      assert forall i :: 0 <= i < |rs| ==> rs[i].document == undo[i].document;
    }
  }

  lemma RestoreReads(f: Files, undo: seq<Undo>)
    requires Distinct(undo)
    ensures Reads(f, Docs(Restore(f, undo)), TakenBack(undo))
  {
    RestoreReadsAt(f, undo, "settings.toml");
    RestoreAt(f, undo, ConfigFile("settings.toml"));
    forall d | d != "settings.toml"
      ensures Get(Docs(Restore(f, undo)), ConfigFile(d)) == Asked(TakenBack(undo), d, Get(f, ConfigFile(d)))
    {
      RestoreReadsAt(f, undo, d);
    }
  }

  lemma Extensional(f: Files, g: Files)
    requires forall p :: Get(f, p) == Get(g, p)
    ensures f == g
  {
    forall p ensures p in f <==> p in g {
      assert Get(f, p) == Get(g, p);
    }
    forall p | p in f ensures f[p] == g[p] {
      assert Get(f, p) == Get(g, p);
    }
  }

  /** A journalled disk in doubt stands for the documents before the save. */
  lemma RestoreGivesBefore(f: Files, g: Doubt)
    requires WellFormed(g)
    requires forall p :: p != JournalFile ==> Get(f, p) == Get(g.before, p) || Get(f, p) == Get(g.after, p)
    ensures Docs(Restore(f, g.undo)) == g.before
  {
    var r := Docs(Restore(f, g.undo));
    forall p ensures Get(r, p) == Get(g.before, p) {
      RestoreAt(f, g.undo, p);
      if p in Targets(g.undo) {
        var i :| 0 <= i < |g.undo| && Target(g.undo[i].document) == p;
        assert g.undo[i].previous == Get(g.before, p);
      }
    }
    Extensional(r, g.before);
  }

  // ----- the heart of it: a power cut never shows a mix

  /** Whatever a power cut leaves of a disk in doubt is itself in doubt, and
      stands for all documents before the save or all after it. */
  lemma CutIsAtomic(v: Files, d: Files, left: Files, g: Doubt)
    requires InDoubt(v, d, g) && CutLeaves(v, d, left)
    ensures InDoubt(left, left, g)
    ensures Committed(left) == g.before || Committed(left) == g.after
  {
    assert Get(left, JournalFile) == Get(v, JournalFile) || Get(left, JournalFile) == Get(d, JournalFile);
    if JournalFile in v && JournalFile in d {
      assert Get(left, JournalFile) == Some(Record(g.undo));
    } else {
      forall p ensures Get(Docs(left), p) == Get(Docs(v), p) {
        assert Get(left, p) == Get(v, p) || Get(left, p) == Get(d, p);
        assert Get(Docs(v), p) == Get(Docs(d), p);
      }
      Extensional(Docs(left), Docs(v));
    }
    if JournalFile in left {
      RestoreGivesBefore(left, g);
    }
  }

  /** One more document taken to a state the save allows it, under a journal
      that is visible and durable. */
  lemma JournalledStep(v: Files, d: Files, p: Path, c: Option<Content>, g: Doubt)
    requires InDoubt(v, d, g) && JournalFile in v && JournalFile in d
    requires p != JournalFile && (c == Get(g.before, p) || c == Get(g.after, p))
    ensures InDoubt(Put(v, p, c), d, g)
  {
  }

  // ----- recovery

  /** The directories a completed recovery syncs, besides the journal's. */
  function Resynced(v: Files, undo: seq<Undo>): set<Directory> {
    set i | 0 <= i < |undo| && Get(v, Target(undo[i].document)) != undo[i].previous
      :: DirOf(Target(undo[i].document))
  }

  /** No directory sync has failed since the last restart, as far as a rollback
      of `undo` can tell: the journal is as durable as it is visible, and a
      document that reads as its previous text durably is that text. */
  predicate Settled(v: Files, d: Files, undo: seq<Undo>) {
    && Get(v, JournalFile) == Get(d, JournalFile)
    && forall i :: 0 <= i < |undo| ==>
         var p := Target(undo[i].document);
         Get(v, p) == undo[i].previous ==> Get(d, p) == undo[i].previous
  }

  lemma FlushStep(d: Files, v: Files, dirs: set<Directory>, p: Path, c: Option<Content>)
    ensures Flush(Flush(d, v, dirs), Put(v, p, c), {DirOf(p)}) == Flush(d, Put(v, p, c), dirs + {DirOf(p)})
  {
    var w := Put(v, p, c);
    var x, y := Flush(Flush(d, v, dirs), w, {DirOf(p)}), Flush(d, w, dirs + {DirOf(p)});
    forall q ensures Get(x, q) == Get(y, q) {
      FlushAt(Flush(d, v, dirs), w, {DirOf(p)}, q);
      FlushAt(d, v, dirs, q);
      FlushAt(d, w, dirs + {DirOf(p)}, q);
    }
    Extensional(x, y);
  }

  lemma FlushAt(d: Files, v: Files, dirs: set<Directory>, p: Path)
    ensures Get(Flush(d, v, dirs), p) == if DirOf(p) in dirs then Get(v, p) else Get(d, p)
  {
  }

  lemma ResyncedStep(v: Files, undo: seq<Undo>, i: nat)
    requires i < |undo|
    ensures Resynced(v, undo[i..]) ==
              Resynced(v, undo[i + 1..]) +
              if Get(v, Target(undo[i].document)) != undo[i].previous
              then {DirOf(Target(undo[i].document))} else {}
  {
    var u, w := undo[i..], undo[i + 1..];
    assert u[0] == undo[i] && u[1..] == w;
    assert forall k :: 0 <= k < |w| ==> w[k] == u[k + 1];
    assert forall k :: 0 < k < |u| ==> u[k] == w[k - 1];
  }

  /** Part of the way through a rollback the disk is still in doubt. */
  lemma MidRecovery(v: Files, d: Files, undo: seq<Undo>, i: nat, g: Doubt)
    requires InDoubt(v, d, g) && Settled(v, d, g.undo)
    requires JournalFile in v && undo == g.undo && i <= |undo|
    ensures var now := Restore(v, undo[i..]);
            InDoubt(now, Flush(d, now, Resynced(v, undo[i..])), g)
  {
    var now := Restore(v, undo[i..]);
    var durable := Flush(d, now, Resynced(v, undo[i..]));
    forall p ensures Get(now, p) == Get(v, p) || (p != JournalFile && Get(now, p) == Get(g.before, p)) {
      RestoredPart(v, i, g, p);
    }
    MoreOfBefore(v, d, now, durable, g);
  }

  lemma RestoredPart(v: Files, i: nat, g: Doubt, p: Path)
    requires WellFormed(g) && i <= |g.undo|
    ensures var now := Restore(v, g.undo[i..]);
            Get(now, p) == Get(v, p) || (p != JournalFile && Get(now, p) == Get(g.before, p))
  {
    var rest := g.undo[i..];
    RestoreAt(v, rest, p);
    if p in Targets(rest) {
      var k :| 0 <= k < |rest| && Target(rest[k].document) == p;
      assert rest[k] == g.undo[i + k];
    }
  }

  /** Documents taken back stay in doubt while the journal stands. */
  lemma MoreOfBefore(v: Files, d: Files, now: Files, durable: Files, g: Doubt)
    requires InDoubt(v, d, g) && JournalFile in v && JournalFile in d
    requires forall p :: Get(now, p) == Get(v, p) || (p != JournalFile && Get(now, p) == Get(g.before, p))
    requires forall p :: Get(durable, p) == Get(now, p) || Get(durable, p) == Get(d, p)
    ensures InDoubt(now, durable, g)
  {
    assert Get(now, JournalFile) == Get(v, JournalFile);
    assert Get(v, JournalFile) == Get(d, JournalFile) == Some(Record(g.undo));
  }

  /** At the end of it every document is durably as before the save. */
  lemma EndOfRecovery(v: Files, d: Files, undo: seq<Undo>, g: Doubt)
    requires InDoubt(v, d, g) && Settled(v, d, g.undo)
    requires JournalFile in v && undo == g.undo
    ensures Docs(Restore(v, undo)) == g.before
    ensures Docs(Flush(d, Restore(v, undo), Resynced(v, undo))) == g.before
  {
    RestoreGivesBefore(v, g);
    var now := Restore(v, undo);
    var durable := Flush(d, now, Resynced(v, undo));
    forall p ensures Get(Docs(durable), p) == Get(g.before, p) {
      if p != JournalFile {
        assert Get(Docs(now), p) == Get(g.before, p);
        if DirOf(p) !in Resynced(v, undo) && p in Targets(undo) {
          var k :| 0 <= k < |undo| && Target(undo[k].document) == p;
          assert Get(v, p) == undo[k].previous;
        }
      }
    }
    Extensional(Docs(durable), g.before);
  }

  /** How a step from view `v` to view `next` may have stopped. */
  ghost predicate Stopped(o: Outcome, v: Files, d: Files, next: Files, v': Files, d': Files) {
    match o
    case Done => false
    case Failed => (v' == v || v' == next) && d' == d
    case Cut => v' == d' && (CutLeaves(v, d, v') || CutLeaves(next, d, v'))
  }

  lemma StoppedInDoubt(o: Outcome, v: Files, d: Files, next: Files, v': Files, d': Files, g: Doubt)
    requires Stopped(o, v, d, next, v', d')
    requires InDoubt(v, d, g) && InDoubt(next, d, g)
    ensures InDoubt(v', d', g)
  {
    if o == Cut {
      if CutLeaves(v, d, v') { CutIsAtomic(v, d, v', g); } else { CutIsAtomic(next, d, v', g); }
    }
  }

  /** Take back one entry. */
  method RestoreEntry(disk: Disk, entry: Undo) returns (o: Outcome)
    requires disk.Sound()
    modifies disk
    ensures disk.Sound()
    ensures o == Done && Get(old(disk.V()), Target(entry.document)) == entry.previous ==>
              disk.V() == old(disk.V()) && disk.D() == old(disk.D())
    ensures o == Done && Get(old(disk.V()), Target(entry.document)) != entry.previous ==>
              && disk.V() == Put(old(disk.V()), Target(entry.document), entry.previous)
              && disk.D() == Flush(old(disk.D()), disk.V(), {DirOf(Target(entry.document))})
    ensures o != Done ==>
              Stopped(o, old(disk.V()), old(disk.D()),
                      Put(old(disk.V()), Target(entry.document), entry.previous), disk.V(), disk.D())
    ensures o == Cut ==> disk.visible == disk.durable
  {
    var p := Target(entry.document);
    match entry.previous {
      case Some(previous) =>
        var c;
        o, c := disk.Read(p);
        if o == Done && c != Some(previous) {
          o := disk.Replace(p, previous);
        }
      case None =>
        o := disk.RemoveSynced(p);
    }
  }

  /** Take back every entry, the last first. */
  method RollBack(disk: Disk, undo: seq<Undo>, ghost g: Doubt) returns (o: Outcome)
    requires disk.Sound() && Accepts(undo) && Get(disk.V(), JournalFile) == Some(Record(undo))
    modifies disk
    ensures disk.Sound()
    ensures o == Done ==>
              && disk.V() == Restore(old(disk.V()), undo)
              && disk.D() == Flush(old(disk.D()), disk.V(), Resynced(old(disk.V()), undo))
    ensures o == Cut ==> disk.visible == disk.durable
    ensures o != Done ==>
              InDoubt(old(disk.V()), old(disk.D()), g) && Settled(old(disk.V()), old(disk.D()), g.undo) ==>
              InDoubt(disk.V(), disk.D(), g)
  {
    ghost var v, d := disk.V(), disk.D();
    var i := |undo|;
    o := Done;
    FlushNothing(d, v);
    while i > 0
      invariant 0 <= i <= |undo|
      invariant disk.Sound() && o == Done
      invariant disk.V() == Restore(v, undo[i..])
      invariant disk.D() == Flush(d, disk.V(), Resynced(v, undo[i..]))
    {
      ghost var now, durable := disk.V(), disk.D();
      ghost var p, c := Target(undo[i - 1].document), undo[i - 1].previous;
      RollBackStep(v, d, undo, i - 1);
      o := RestoreEntry(disk, undo[i - 1]);
      if o != Done {
        if InDoubt(v, d, g) && Settled(v, d, g.undo) {
          StepInDoubt(v, d, undo, i, g);
          StoppedInDoubt(o, now, durable, Put(now, p, c), disk.V(), disk.D(), g);
        }
        return;
      }
      i := i - 1;
    }
    assert undo[0..] == undo;
  }

  lemma RollBackStep(v: Files, d: Files, undo: seq<Undo>, i: nat)
    requires Distinct(undo) && i < |undo|
    ensures var p, c := Target(undo[i].document), undo[i].previous;
            var now, next := Restore(v, undo[i + 1..]), Restore(v, undo[i..]);
            && next == Put(now, p, c)
            && (Get(now, p) == c ==>
                  next == now && Resynced(v, undo[i..]) == Resynced(v, undo[i + 1..]))
            && (Get(now, p) != c ==>
                  Flush(d, next, Resynced(v, undo[i..])) ==
                  Flush(Flush(d, now, Resynced(v, undo[i + 1..])), next, {DirOf(p)}))
  {
    var p, c := Target(undo[i].document), undo[i].previous;
    var now := Restore(v, undo[i + 1..]);
    EntryIsUntouched(v, undo, i + 1);
    RestoreOne(v, undo, i);
    ResyncedStep(v, undo, i);
    var dirs := Resynced(v, undo[i + 1..]);
    if Get(now, p) != c {
      FlushStep(d, now, dirs, p, c);
    }
  }

  lemma FlushNothing(d: Files, v: Files)
    ensures Flush(d, v, {}) == d
  {
  }

  lemma StepInDoubt(v: Files, d: Files, undo: seq<Undo>, i: nat, g: Doubt)
    requires InDoubt(v, d, g) && Settled(v, d, g.undo)
    requires Get(v, JournalFile) == Some(Record(undo)) && 0 < i <= |undo|
    ensures var now := Restore(v, undo[i..]);
            var durable := Flush(d, now, Resynced(v, undo[i..]));
            && InDoubt(now, durable, g)
            && InDoubt(Put(now, Target(undo[i - 1].document), undo[i - 1].previous), durable, g)
  {
    MidRecovery(v, d, undo, i, g);
    JournalStays(v, undo[i..]);
    var now := Restore(v, undo[i..]);
    FlushAt(d, now, Resynced(v, undo[i..]), JournalFile);
    JournalledStep(now, Flush(d, now, Resynced(v, undo[i..])),
                   Target(undo[i - 1].document), undo[i - 1].previous, g);
  }

  /** The journal of a disk's view, when recovery would follow it. */
  ghost predicate Followed(v: Files, undo: seq<Undo>) {
    Get(v, JournalFile) == Some(Record(undo)) && Accepts(undo)
  }

  /**
   Take back what a save that did not end has changed.

   A completed recovery has the exact result stated, whatever came before it.
   From a disk in doubt that is settled -- after a restart every disk is -- it
   ends with the documents the disk stood for, durably; cut or failed, it
   leaves the disk in the same doubt.
   */
  method Recover(disk: Disk, ghost g: Doubt) returns (o: Outcome)
    requires disk.Sound()
    modifies disk
    ensures disk.Sound()
    ensures o == Done && JournalFile !in old(disk.V()) ==>
              disk.V() == old(disk.V()) && disk.D() == old(disk.D())
    ensures o == Done && JournalFile in old(disk.V()) ==>
              exists undo :: Followed(old(disk.V()), undo)
                && disk.V() == Docs(Restore(old(disk.V()), undo))
                && disk.D() == Flush(old(disk.D()), disk.V(), Resynced(old(disk.V()), undo) + {StateDir})
    ensures o == Done && JournalFile in old(disk.V()) ==>
              exists undo :: Followed(old(disk.V()), undo) && Reads(old(disk.V()), disk.V(), TakenBack(undo))
    ensures o == Failed && (forall undo :: !Followed(old(disk.V()), undo)) ==>
              disk.V() == old(disk.V()) && disk.D() == old(disk.D())
    ensures InDoubt(old(disk.V()), old(disk.D()), g) && Settled(old(disk.V()), old(disk.D()), g.undo) ==>
              && (o == Done ==> Quiescent(disk.V(), disk.D()) && disk.V() == Committed(old(disk.V())))
              && (o != Done ==> InDoubt(disk.V(), disk.D(), g))
    ensures o == Cut ==> disk.visible == disk.durable
  {
    ghost var v, d := disk.V(), disk.D();
    ghost var doubted := InDoubt(v, d, g) && Settled(v, d, g.undo);
    var journal;
    o, journal := disk.Read(JournalFile);
    if o != Done {
      if o == Cut && doubted { CutIsAtomic(v, d, disk.V(), g); }
      return;
    }
    if journal.None? {
      assert doubted ==> Docs(v) == v && Docs(d) == d;
      return;
    }
    if journal.value.Text? || !Accepts(journal.value.undo) {
      return Failed;
    }
    var undo := journal.value.undo;
    assert Followed(v, undo);
    o := RollBack(disk, undo, g);
    if o != Done { return; }
    RestoreReads(v, undo);
    ghost var now, durable := disk.V(), disk.D();
    JournalStays(v, undo);
    FlushStep(d, now, Resynced(v, undo), JournalFile, None);
    o := disk.RemoveSynced(JournalFile);
    if doubted {
      MidRecovery(v, d, undo, 0, g);
      assert undo[0..] == undo;
      EndOfRecovery(v, d, undo, g);
      JournalRemoval(now, durable, g);
      if o != Done { StoppedInDoubt(o, now, durable, Docs(now), disk.V(), disk.D(), g); }
    }
  }

  lemma EntryIsUntouched(v: Files, undo: seq<Undo>, i: nat)
    requires Distinct(undo) && 0 < i <= |undo|
    ensures Get(Restore(v, undo[i..]), Target(undo[i - 1].document)) == Get(v, Target(undo[i - 1].document))
  {
    RestoreAt(v, undo[i..], Target(undo[i - 1].document));
  }

  lemma RestoreOne(v: Files, undo: seq<Undo>, i: nat)
    requires i < |undo|
    ensures Restore(v, undo[i..]) ==
              Put(Restore(v, undo[i + 1..]), Target(undo[i].document), undo[i].previous)
    ensures Get(Restore(v, undo[i + 1..]), Target(undo[i].document)) == undo[i].previous ==>
              Restore(v, undo[i..]) == Restore(v, undo[i + 1..])
  {
    assert undo[i..][1..] == undo[i + 1..];
    assert undo[i..][0] == undo[i];
  }

  lemma JournalStays(v: Files, undo: seq<Undo>)
    requires Distinct(undo)
    ensures Get(Restore(v, undo), JournalFile) == Get(v, JournalFile)
  {
    RestoreAt(v, undo, JournalFile);
  }

  /** With every document settled the same way, the journal may come or go. */
  lemma JournalRemoval(v: Files, d: Files, g: Doubt)
    requires InDoubt(v, d, g)
    requires Docs(v) == Docs(d) && (Docs(v) == g.before || Docs(v) == g.after)
    ensures InDoubt(Docs(v), d, g)
    ensures Flush(d, Docs(v), {StateDir}) == Docs(v)
  {
    forall p | p != JournalFile ensures Get(v, p) == Get(d, p) {
      assert Get(Docs(v), p) == Get(Docs(d), p);
    }
    Extensional(Flush(d, Docs(v), {StateDir}), Docs(v));
  }

  // ----- saving

  function Apply(f: Files, rs: seq<Request>): Files {
    if rs == [] then f
    else Put(Apply(f, rs[..|rs| - 1]), Target(rs[|rs| - 1].document), rs[|rs| - 1].text)
  }

  function Changed(f: Files, rs: seq<Request>): seq<Request> {
    if rs == [] then []
    else
      var last := rs[|rs| - 1];
      Changed(f, rs[..|rs| - 1]) + if Get(f, Target(last.document)) != last.text then [last] else []
  }

  function UndoOf(f: Files, rs: seq<Request>): seq<Undo> {
    seq(|rs|, i requires 0 <= i < |rs| => Undo(rs[i].document, Get(f, Target(rs[i].document))))
  }

  /** What a save may be asked: known documents, each once, and no more of them
      changed than a journal holds. */
  predicate Requestable(f: Files, rs: seq<Request>) {
    && DistinctRequests(rs)
    && (forall i :: 0 <= i < |rs| ==> KnownDocument(rs[i].document))
    && |Changed(f, rs)| <= MAX_UNDO
  }

  function SaveDoubt(f: Files, rs: seq<Request>): Doubt {
    Doubt(f, Apply(f, rs), UndoOf(f, Changed(f, rs)))
  }

  lemma {:induction false} ApplyAt(f: Files, rs: seq<Request>, p: Path)
    requires DistinctRequests(rs)
    ensures (forall i :: 0 <= i < |rs| ==> Target(rs[i].document) != p) ==> Get(Apply(f, rs), p) == Get(f, p)
    ensures forall i :: 0 <= i < |rs| && Target(rs[i].document) == p ==> Get(Apply(f, rs), p) == rs[i].text
  {
    if rs != [] {
      var init := rs[..|rs| - 1];
      ApplyAt(f, init, p);
      assert forall i :: 0 <= i < |init| ==> init[i] == rs[i];
      assert Apply(f, rs) == Put(Apply(f, init), Target(rs[|rs| - 1].document), rs[|rs| - 1].text);
    }
  }

  lemma ApplyReads(f: Files, rs: seq<Request>)
    requires DistinctRequests(rs)
    ensures Reads(f, Apply(f, rs), rs)
  {
    ApplyAt(f, rs, StateFile);
    AskedOf(rs, "settings.toml", Get(f, StateFile));
    ApplyAt(f, rs, ConfigFile("settings.toml"));
    forall d | d != "settings.toml"
      ensures Get(Apply(f, rs), ConfigFile(d)) == Asked(rs, d, Get(f, ConfigFile(d)))
    {
      ApplyAt(f, rs, ConfigFile(d));
      AskedOf(rs, d, Get(f, ConfigFile(d)));
    }
  }

  /** The changed requests are the requests that differ, each once. */
  lemma {:induction false} ChangedOf(f: Files, rs: seq<Request>)
    requires DistinctRequests(rs)
    ensures DistinctRequests(Changed(f, rs)) && |Changed(f, rs)| <= |rs|
    ensures forall r :: r in Changed(f, rs) <==> r in rs && Get(f, Target(r.document)) != r.text
  {
    if rs != [] {
      var init, last := rs[..|rs| - 1], rs[|rs| - 1];
      ChangedOf(f, init);
      assert rs == init + [last];
      assert last.document !in set r | r in init :: r.document;
    }
  }

  /** Leaving out what does not change asks for the same documents. */
  lemma ApplyChanged(f: Files, rs: seq<Request>)
    requires DistinctRequests(rs)
    ensures Apply(f, Changed(f, rs)) == Apply(f, rs)
  {
    var cs := Changed(f, rs);
    ChangedOf(f, rs);
    forall p ensures Get(Apply(f, cs), p) == Get(Apply(f, rs), p) {
      ApplyAt(f, cs, p);
      ApplyAt(f, rs, p);
      if i :| 0 <= i < |rs| && Target(rs[i].document) == p {
        if Get(f, p) != rs[i].text {
          assert rs[i] in cs;
          var k :| 0 <= k < |cs| && cs[k] == rs[i];
        } else {
          forall k | 0 <= k < |cs| ensures Target(cs[k].document) != p {
            assert cs[k] in cs;
            var m :| 0 <= m < |rs| && rs[m] == cs[k];
          }
        }
      } else {
        forall k | 0 <= k < |cs| ensures Target(cs[k].document) != p {
          assert cs[k] in cs;
          var m :| 0 <= m < |rs| && rs[m] == cs[k];
        }
      }
    }
    Extensional(Apply(f, cs), Apply(f, rs));
  }

  lemma UndoAccepted(f: Files, rs: seq<Request>)
    requires Requestable(f, rs)
    ensures Accepts(UndoOf(f, Changed(f, rs)))
  {
    var cs := Changed(f, rs);
    ChangedOf(f, rs);
    forall i | 0 <= i < |cs| ensures KnownDocument(cs[i].document) {
      assert cs[i] in cs;
      var m :| 0 <= m < |rs| && rs[m] == cs[i];
    }
  }

  /** Of distinct known documents, recovery accepts the journal exactly when at most
      4096 of them change. */
  lemma JournalAcceptedExactly(f: Files, rs: seq<Request>)
    requires DistinctRequests(rs) && forall i :: 0 <= i < |rs| ==> KnownDocument(rs[i].document)
    ensures Accepts(UndoOf(f, Changed(f, rs))) <==> |Changed(f, rs)| <= 4096
  {
    if |Changed(f, rs)| <= MAX_UNDO { UndoAccepted(f, rs); }
  }

  lemma TargetsOf(f: Files, rs: seq<Request>, p: Path)
    requires p !in Targets(UndoOf(f, rs))
    ensures forall i :: 0 <= i < |rs| ==> Target(rs[i].document) != p
  {
    var undo := UndoOf(f, rs);
    forall i | 0 <= i < |rs| ensures Target(rs[i].document) != p {
      assert Target(undo[i].document) in Targets(undo);
    }
  }

  /** A journal a save writes is one recovery accepts, and describes the save. */
  lemma SaveJournalAccepted(f: Files, rs: seq<Request>)
    requires Requestable(f, rs) && JournalFile !in f
    ensures WellFormed(SaveDoubt(f, rs))
  {
    var cs := Changed(f, rs);
    UndoAccepted(f, rs);
    ChangedOf(f, rs);
    ApplyChanged(f, rs);
    ApplyAt(f, cs, JournalFile);
    assert Get(Apply(f, cs), JournalFile) == Get(f, JournalFile);
    forall p | p !in Targets(UndoOf(f, cs)) ensures Get(f, p) == Get(Apply(f, cs), p) {
      TargetsOf(f, cs, p);
      ApplyAt(f, cs, p);
    }
  }

  lemma FlushChange(v: Files, p: Path, c: Option<Content>)
    ensures Flush(v, Put(v, p, c), {DirOf(p)}) == Put(v, p, c)
  {
    forall q ensures Get(Flush(v, Put(v, p, c), {DirOf(p)}), q) == Get(Put(v, p, c), q) {
      FlushAt(v, Put(v, p, c), {DirOf(p)}, q);
    }
    Extensional(Flush(v, Put(v, p, c), {DirOf(p)}), Put(v, p, c));
  }

  /** The disk with the journal written and the first `k` changes made. */
  function Partway(f: Files, rs: seq<Request>, k: nat): Files
    requires k <= |Changed(f, rs)|
  {
    Apply(f[JournalFile := Record(UndoOf(f, Changed(f, rs)))], Changed(f, rs)[..k])
  }

  /** Part of the way, a document is as before or as requested. */
  lemma PartwayAt(f: Files, rs: seq<Request>, k: nat, p: Path)
    requires DistinctRequests(rs) && k <= |Changed(f, rs)|
    ensures p == JournalFile ==> Get(Partway(f, rs, k), p) == Some(Record(UndoOf(f, Changed(f, rs))))
    ensures p != JournalFile ==>
              Get(Partway(f, rs, k), p) == Get(f, p) || Get(Partway(f, rs, k), p) == Get(Apply(f, rs), p)
    ensures p != JournalFile && k == |Changed(f, rs)| ==> Get(Partway(f, rs, k), p) == Get(Apply(f, rs), p)
  {
    var cs := Changed(f, rs);
    var start := f[JournalFile := Record(UndoOf(f, cs))];
    assert DistinctRequests(cs) by { ChangedOf(f, rs); }
    assert Apply(f, cs) == Apply(f, rs) by { ApplyChanged(f, rs); }
    assert Partway(f, rs, k) == Apply(start, cs[..k]);
    if p == JournalFile {
      ApplyAt(start, cs[..k], p);
    } else {
      ApplyPrefixAt(start, f, cs, k, p);
    }
  }

  lemma ApplyPrefixAt(start: Files, f: Files, cs: seq<Request>, k: nat, p: Path)
    requires DistinctRequests(cs) && k <= |cs| && Get(start, p) == Get(f, p)
    ensures Get(Apply(start, cs[..k]), p) == Get(f, p) || Get(Apply(start, cs[..k]), p) == Get(Apply(f, cs), p)
    ensures k == |cs| ==> Get(Apply(start, cs[..k]), p) == Get(Apply(f, cs), p)
  {
    ApplyAt(start, cs[..k], p);
    ApplyAt(f, cs, p);
    if i :| 0 <= i < k && Target(cs[i].document) == p {
      assert cs[..k][i] == cs[i];
    }
  }

  /** With the journal in place, documents that are each as before or as requested are in doubt. */
  lemma JournalledInDoubt(x: Files, g: Doubt)
    requires WellFormed(g) && Get(x, JournalFile) == Some(Record(g.undo))
    requires forall p :: p != JournalFile ==> Get(x, p) == Get(g.before, p) || Get(x, p) == Get(g.after, p)
    ensures InDoubt(x, x, g)
  {
  }

  lemma PartwayEnds(f: Files, rs: seq<Request>)
    requires Requestable(f, rs) && JournalFile !in f
    ensures Docs(Partway(f, rs, |Changed(f, rs)|)) == Apply(f, rs)
  {
    var k := |Changed(f, rs)|;
    SaveJournalAccepted(f, rs);
    forall p ensures Get(Docs(Partway(f, rs, k)), p) == Get(Apply(f, rs), p) { PartwayAt(f, rs, k, p); }
    Extensional(Docs(Partway(f, rs, k)), Apply(f, rs));
  }

  lemma PartwayInDoubt(f: Files, rs: seq<Request>, k: nat)
    requires Requestable(f, rs) && JournalFile !in f && k <= |Changed(f, rs)|
    ensures InDoubt(Partway(f, rs, k), Partway(f, rs, k), SaveDoubt(f, rs))
    ensures Get(Partway(f, rs, k), JournalFile) == Some(Record(UndoOf(f, Changed(f, rs))))
    ensures k == |Changed(f, rs)| ==> Docs(Partway(f, rs, k)) == Apply(f, rs)
  {
    var x := Partway(f, rs, k);
    SaveJournalAccepted(f, rs);
    PartwayAt(f, rs, k, JournalFile);
    forall p | p != JournalFile ensures Get(x, p) == Get(f, p) || Get(x, p) == Get(Apply(f, rs), p) {
      PartwayAt(f, rs, k, p);
    }
    JournalledInDoubt(x, SaveDoubt(f, rs));
    PartwayEnds(f, rs);
  }

  lemma PartwayStep(f: Files, rs: seq<Request>, k: nat)
    requires DistinctRequests(rs) && k < |Changed(f, rs)|
    ensures var r := Changed(f, rs)[k];
            && Get(Partway(f, rs, k), Target(r.document)) == Get(f, Target(r.document)) != r.text
            && Partway(f, rs, k + 1) == Put(Partway(f, rs, k), Target(r.document), r.text)
  {
    var cs := Changed(f, rs);
    var start, r := f[JournalFile := Record(UndoOf(f, cs))], cs[k];
    assert r in cs;
    assert DistinctRequests(cs) && Get(f, Target(r.document)) != r.text by { ChangedOf(f, rs); }
    ApplyStep(start, cs, k);
  }

  lemma ApplyStep(start: Files, cs: seq<Request>, k: nat)
    requires DistinctRequests(cs) && k < |cs|
    ensures var p := Target(cs[k].document);
            && Get(Apply(start, cs[..k]), p) == Get(start, p)
            && Apply(start, cs[..k + 1]) == Put(Apply(start, cs[..k]), p, cs[k].text)
  {
    assert cs[..k + 1][..k] == cs[..k];
    ApplyAt(start, cs[..k], Target(cs[k].document));
    assert forall i :: 0 <= i < k ==> cs[..k][i] == cs[i];
  }

  /** Make one change durable. */
  method Change(disk: Disk, r: Request) returns (o: Outcome)
    requires disk.Sound() && disk.V() == disk.D()
    requires Get(disk.V(), Target(r.document)) != r.text
    modifies disk
    ensures disk.Sound()
    ensures o == Done ==> disk.V() == disk.D() == Put(old(disk.V()), Target(r.document), r.text)
    ensures o != Done ==>
              Stopped(o, old(disk.V()), old(disk.V()), Put(old(disk.V()), Target(r.document), r.text),
                      disk.V(), disk.D())
    ensures o == Cut ==> disk.visible == disk.durable
  {
    var p := Target(r.document);
    FlushChange(disk.V(), p, r.text);
    match r.text {
      case Some(text) => o := disk.Replace(p, text);
      case None => o := disk.RemoveSynced(p);
    }
  }

  /** Make the changes and drop the journal. */
  method Commit(disk: Disk, changed: seq<Request>, ghost f: Files, ghost rs: seq<Request>)
    returns (o: Outcome)
    requires disk.Sound() && disk.V() == disk.D()
    requires Requestable(f, rs) && JournalFile !in f && changed == Changed(f, rs)
    requires disk.V() == f[JournalFile := Record(UndoOf(f, changed))]
    modifies disk
    ensures disk.Sound()
    ensures o == Done ==> disk.V() == disk.D() == Apply(f, rs)
    ensures o != Done ==> InDoubt(disk.V(), disk.D(), SaveDoubt(f, rs))
    ensures o == Failed ==>
              && JournalFile in disk.D()
              && (JournalFile in disk.V() ==> Settled(disk.V(), disk.D(), UndoOf(f, changed)))
              && (JournalFile !in disk.V() ==> disk.V() == Docs(disk.D()) == Apply(f, rs))
    ensures o == Cut ==> disk.visible == disk.durable
  {
    ghost var g := SaveDoubt(f, rs);
    var k := 0;
    while k < |changed|
      invariant 0 <= k <= |changed|
      invariant disk.Sound() && disk.V() == disk.D() == Partway(f, rs, k)
    {
      PartwayStep(f, rs, k);
      o := Change(disk, changed[k]);
      if o != Done {
        ChangeStopped(f, rs, k, o, disk.V(), disk.D());
        return;
      }
      k := k + 1;
    }
    PartwayInDoubt(f, rs, k);
    ghost var now := disk.V();
    JournalRemoval(now, now, g);
    o := disk.RemoveSynced(JournalFile);
    if o != Done { StoppedInDoubt(o, now, now, Docs(now), disk.V(), disk.D(), g); }
  }

  lemma ChangeIsRequested(f: Files, rs: seq<Request>, k: nat)
    requires DistinctRequests(rs) && k < |Changed(f, rs)|
    ensures var r := Changed(f, rs)[k];
            Get(Apply(f, rs), Target(r.document)) == r.text != Get(f, Target(r.document))
  {
    var cs := Changed(f, rs);
    ChangedOf(f, rs);
    ApplyChanged(f, rs);
    ApplyAt(f, cs, Target(cs[k].document));
    assert cs[k] in cs;
  }

  /** One journalled change that stops leaves the save in doubt, and settled if it failed. */
  lemma StepStopped(now: Files, p: Path, c: Option<Content>, g: Doubt, o: Outcome, v: Files, d: Files)
    requires InDoubt(now, now, g) && JournalFile in now && p != JournalFile
    requires c == Get(g.after, p) != Get(g.before, p) && Stopped(o, now, now, Put(now, p, c), v, d)
    ensures InDoubt(v, d, g)
    ensures o == Failed ==> JournalFile in v && JournalFile in d && Settled(v, d, g.undo)
  {
    JournalledStep(now, now, p, c, g);
    StoppedInDoubt(o, now, now, Put(now, p, c), v, d, g);
  }

  lemma ChangeStopped(f: Files, rs: seq<Request>, k: nat, o: Outcome, v: Files, d: Files)
    requires Requestable(f, rs) && JournalFile !in f && k < |Changed(f, rs)|
    requires var r, now := Changed(f, rs)[k], Partway(f, rs, k);
             Stopped(o, now, now, Put(now, Target(r.document), r.text), v, d)
    ensures InDoubt(v, d, SaveDoubt(f, rs))
    ensures o == Failed ==> JournalFile in v && JournalFile in d && Settled(v, d, UndoOf(f, Changed(f, rs)))
  {
    var r := Changed(f, rs)[k];
    PartwayInDoubt(f, rs, k);
    ChangeIsRequested(f, rs, k);
    StepStopped(Partway(f, rs, k), Target(r.document), r.text, SaveDoubt(f, rs), o, v, d);
  }

  /**
   Write a journal, make the changes, drop the journal; on a failure, take back.

   A disk that an earlier save left in doubt is recovered first, so the save starts
   from the documents the disk stands for. A save that is done has made every
   requested change durable. One that fails or is cut leaves the disk in doubt
   between the two sets of documents, or still in the earlier doubt, and one that
   reports its failure with the rollback complete left them as they were.
   */
  method Save(disk: Disk, documents: seq<Request>, ghost earlier: Doubt) returns (o: Outcome, rolledBack: bool)
    requires disk.Sound() && InDoubt(disk.V(), disk.D(), earlier) && Settled(disk.V(), disk.D(), earlier.undo)
    requires Requestable(Committed(disk.V()), documents)
    modifies disk
    ensures disk.Sound()
    ensures o == Done ==> disk.V() == disk.D() == Apply(Committed(old(disk.V())), documents)
    ensures o == Done ==> Reads(Committed(old(disk.V())), disk.V(), documents)
    ensures o == Failed && rolledBack ==> disk.V() == disk.D() == Committed(old(disk.V()))
    ensures o != Done ==>
              || InDoubt(disk.V(), disk.D(), SaveDoubt(Committed(old(disk.V())), documents))
              || InDoubt(disk.V(), disk.D(), earlier)
    ensures o == Cut ==> disk.visible == disk.durable
  {
    ghost var f := Committed(disk.V());
    ghost var g := SaveDoubt(f, documents);
    rolledBack := false;
    o := Recover(disk, earlier);
    if o != Done { return; }
    SaveJournalAccepted(f, documents);
    QuietInDoubt(f, documents);
    var changed: seq<Request>, undo: seq<Undo>;
    o, changed, undo := Compare(disk, documents);
    if o != Done {
      if o == Cut { CutIsAtomic(f, f, disk.V(), g); }
      return;
    }
    ApplyChanged(f, documents);
    ApplyReads(f, documents);
    if changed == [] {
      return;
    }
    var record := Record(undo);
    FlushChange(f, JournalFile, Some(record));
    o := disk.Replace(JournalFile, record);
    if o != Done {
      StoppedInDoubt(o, f, f, f[JournalFile := record], disk.V(), disk.D(), g);
      return;
    }
    o := Commit(disk, changed, f, documents);
    if o == Failed {
      o := AfterFailure(disk, record, g);
      rolledBack := o == Done;
      if rolledBack { o := Failed; }
    }
  }

  lemma QuietInDoubt(f: Files, rs: seq<Request>)
    requires Requestable(f, rs) && JournalFile !in f
    ensures var g := SaveDoubt(f, rs);
            InDoubt(f, f, g) && InDoubt(f[JournalFile := Record(g.undo)], f, g) && Settled(f, f, g.undo)
  {
    SaveJournalAccepted(f, rs);
    assert Docs(f) == f == Docs(f[JournalFile := Record(SaveDoubt(f, rs).undo)]);
  }

  /** Find the documents that differ, and their undo records. */
  method Compare(disk: Disk, documents: seq<Request>)
    returns (o: Outcome, changed: seq<Request>, undo: seq<Undo>)
    requires disk.Sound()
    modifies disk
    ensures disk.Sound()
    ensures o != Cut ==> disk.V() == old(disk.V()) && disk.D() == old(disk.D())
    ensures o == Done ==> changed == Changed(disk.V(), documents) && undo == UndoOf(disk.V(), changed)
    ensures o == Cut ==> disk.visible == disk.durable && CutLeaves(old(disk.V()), old(disk.D()), disk.V())
  {
    o, changed, undo := Done, [], [];
    var i := 0;
    while i < |documents|
      invariant 0 <= i <= |documents|
      invariant disk.Sound() && disk.V() == old(disk.V()) && disk.D() == old(disk.D())
      invariant o == Done && changed == Changed(disk.V(), documents[..i]) && undo == UndoOf(disk.V(), changed)
    {
      var p := Target(documents[i].document);
      var previous;
      o, previous := disk.Read(p);
      if o != Done { return; }
      if previous != documents[i].text {
        changed := changed + [documents[i]];
        undo := undo + [Undo(documents[i].document, previous)];
      }
      assert documents[..i + 1][..i] == documents[..i];
      i := i + 1;
    }
    assert documents[..i] == documents;
  }

  /** Roll a failed commit back. A failed directory sync may follow a successful
      unlink, so the journal is restored first. */
  method AfterFailure(disk: Disk, record: Content, ghost g: Doubt) returns (o: Outcome)
    requires disk.Sound() && record == Record(g.undo)
    requires InDoubt(disk.V(), disk.D(), g) && JournalFile in disk.D()
    requires JournalFile in disk.V() ==> Settled(disk.V(), disk.D(), g.undo)
    requires JournalFile !in disk.V() ==> disk.V() == Docs(disk.D()) == g.after
    modifies disk
    ensures disk.Sound()
    ensures o == Done ==> disk.V() == disk.D() == g.before
    ensures o != Done ==> InDoubt(disk.V(), disk.D(), g)
    ensures o == Cut ==> disk.visible == disk.durable
  {
    if JournalFile !in disk.visible {
      ghost var v, d := disk.V(), disk.D();
      assert v[JournalFile := record] == d;
      FlushChange(d, JournalFile, Some(record));
      o := disk.Replace(JournalFile, record);
      if o != Done {
        StoppedInDoubt(o, v, d, d, disk.V(), disk.D(), g);
        return;
      }
      FlushIdentity(d);
    }
    RestoreGivesBefore(disk.V(), g);
    o := Recover(disk, g);
  }

  lemma FlushIdentity(d: Files)
    ensures Flush(d, d, {StateDir}) == d
  {
  }

  // ----- whole runs

  /**
   One save, and then as many recoveries as it takes: after each failure or cut
   the daemon restarts, or retries in the same process when the disk is settled.
   Whichever recovery is the first to complete, and wherever the save and the
   recoveries before it were cut, every document is as before the save or every
   document is as requested.
   */
  method SaveToTheEnd(disk: Disk, documents: seq<Request>, attempts: nat) returns (ended: bool)
    requires disk.Sound() && Quiescent(disk.V(), disk.D()) && Requestable(disk.V(), documents)
    modifies disk
    ensures disk.Sound()
    ensures ended ==>
              Quiescent(disk.V(), disk.D())
              && (disk.V() == old(disk.V()) || disk.V() == Apply(old(disk.V()), documents))
    ensures !ended ==> InDoubt(disk.V(), disk.D(), SaveDoubt(old(disk.V()), documents))
  {
    var doubt := SaveDoubt(disk.V(), documents);
    ended := SaveOnce(disk, documents);
    if !ended { ended := RecoverAgain(disk, attempts, doubt); }
  }

  method SaveOnce(disk: Disk, documents: seq<Request>) returns (ended: bool)
    requires disk.Sound() && Quiescent(disk.V(), disk.D()) && Requestable(disk.V(), documents)
    modifies disk
    ensures disk.Sound()
    ensures ended ==> Quiescent(disk.V(), disk.D()) && disk.V() == Apply(old(disk.V()), documents)
    ensures !ended ==> InDoubt(disk.V(), disk.D(), SaveDoubt(old(disk.V()), documents))
  {
    ghost var f, g := disk.V(), SaveDoubt(disk.V(), documents);
    SaveJournalAccepted(f, documents);
    QuietInDoubt(f, documents);
    assert JournalFile !in g.after;
    var o, _ := Save(disk, documents, g);
    ended := o == Done;
  }

  method RecoverAgain(disk: Disk, attempts: nat, g: Doubt) returns (ended: bool)
    requires disk.Sound() && InDoubt(disk.V(), disk.D(), g)
    modifies disk
    ensures disk.Sound()
    ensures ended ==> Quiescent(disk.V(), disk.D()) && (disk.V() == g.before || disk.V() == g.after)
    ensures !ended ==> InDoubt(disk.V(), disk.D(), g)
  {
    ended := false;
    var n := 0;
    while n < attempts && !ended
      invariant disk.Sound()
      invariant ended ==> Quiescent(disk.V(), disk.D()) && (disk.V() == g.before || disk.V() == g.after)
      invariant !ended ==> InDoubt(disk.V(), disk.D(), g)
    {
      var restart: bool := *;
      if restart || !Settled(disk.V(), disk.D(), g.undo) {
        ghost var v, d := disk.V(), disk.D();
        disk.PowerCut();
        CutIsAtomic(v, d, disk.V(), g);
      }
      CutIsAtomic(disk.V(), disk.D(), disk.V(), g);
      var o := Recover(disk, g);
      ended := o == Done;
      n := n + 1;
    }
  }

  /** The documents after a run of saves of which only some took effect. */
  function History(f: Files, saves: seq<seq<Request>>, took: seq<bool>): Files
    requires |took| <= |saves|
  {
    if took == [] then f
    else
      var n := |took| - 1;
      var g := History(f, saves, took[..n]);
      if took[n] then Apply(g, saves[n]) else g
  }

  lemma HistoryStep(f: Files, saves: seq<seq<Request>>, took: seq<bool>, last: bool)
    requires |took| < |saves|
    ensures var g := History(f, saves, took);
            History(f, saves, took + [last]) == if last then Apply(g, saves[|took|]) else g
  {
    assert (took + [last])[..|took|] == took;
  }

  /** The next save may be asked for, whichever of those before it took effect. */
  predicate RequestableAfter(f: Files, saves: seq<seq<Request>>, earlier: seq<bool>) {
    |earlier| < |saves| ==> Requestable(History(f, saves, earlier), saves[|earlier|])
  }

  ghost predicate AllRequestable(f: Files, saves: seq<seq<Request>>) {
    forall earlier :: RequestableAfter(f, saves, earlier)
  }

  /** Over any run of saves, each with its faults, the documents are those of
      some of the saves, each taken whole. */
  method SaveAll(disk: Disk, saves: seq<seq<Request>>, attempts: nat) returns (took: seq<bool>, ended: bool)
    requires disk.Sound() && Quiescent(disk.V(), disk.D())
    requires AllRequestable(disk.V(), saves)
    modifies disk
    ensures disk.Sound() && |took| <= |saves|
    ensures ended ==> |took| == |saves| && disk.V() == disk.D() == History(old(disk.V()), saves, took)
    ensures !ended ==>
              |took| < |saves| &&
              InDoubt(disk.V(), disk.D(), SaveDoubt(History(old(disk.V()), saves, took), saves[|took|]))
  {
    took, ended := [], true;
    while |took| < |saves|
      invariant |took| <= |saves|
      invariant disk.Sound() && Quiescent(disk.V(), disk.D())
      invariant ended && disk.V() == History(old(disk.V()), saves, took)
      decreases |saves| - |took|
    {
      var n := |took|;
      assert RequestableAfter(old(disk.V()), saves, took);
      var after := Apply(disk.V(), saves[n]);
      ended := SaveToTheEnd(disk, saves[n], attempts);
      if !ended { return; }
      HistoryStep(old(disk.V()), saves, took, disk.V() == after);
      took := took + [disk.V() == after];
    }
  }

  // ----- exactly when a completed recovery is durable

  /** The views a completed recovery leaves, by `Recover`'s contract. */
  function RecoveredV(v: Files, undo: seq<Undo>): Files {
    if JournalFile in v then Docs(Restore(v, undo)) else v
  }

  function RecoveredD(v: Files, d: Files, undo: seq<Undo>): Files {
    if JournalFile in v then Flush(d, Docs(Restore(v, undo)), Resynced(v, undo) + {StateDir}) else d
  }

  /** Each journalled document is durable as its previous text already, or lies in a
      directory that recovery syncs: the journal's own, or one holding a document
      that reads differently. */
  ghost predicate Resettles(v: Files, d: Files, undo: seq<Undo>) {
    forall i :: 0 <= i < |undo| ==>
      var p := Target(undo[i].document);
      DirOf(p) in Resynced(v, undo) + {StateDir} || Get(d, p) == undo[i].previous
  }

  /**
   What a completed recovery shows is durable exactly when, with a journal to follow,
   every document of it settles again, and without one, none is left on the disk.
   */
  lemma DurableRecovery(v: Files, d: Files, g: Doubt)
    requires InDoubt(v, d, g)
    ensures RecoveredD(v, d, g.undo) == RecoveredV(v, g.undo) <==>
              if JournalFile in v then Resettles(v, d, g.undo) else JournalFile !in d
  {
    if JournalFile in v {
      DurableRollback(v, d, g);
    } else if JournalFile !in d {
      assert Docs(v) == v && Docs(d) == d;
    }
  }

  lemma DurableRollback(v: Files, d: Files, g: Doubt)
    requires InDoubt(v, d, g) && JournalFile in v
    ensures RecoveredD(v, d, g.undo) == RecoveredV(v, g.undo) <==> Resettles(v, d, g.undo)
  {
    var restored := Docs(Restore(v, g.undo));
    var dirs := Resynced(v, g.undo) + {StateDir};
    var durable := Flush(d, restored, dirs);
    RestoreGivesBefore(v, g);
    forall p ensures Get(durable, p) == if DirOf(p) in dirs then Get(g.before, p) else Get(d, p) {
      FlushAt(d, restored, dirs, p);
    }
    if Resettles(v, d, g.undo) {
      forall p ensures Get(durable, p) == Get(restored, p) {
        if p in Targets(g.undo) {
          var i :| 0 <= i < |g.undo| && Target(g.undo[i].document) == p;
        }
      }
      Extensional(durable, restored);
    } else {
      var i :| 0 <= i < |g.undo| &&
        !(DirOf(Target(g.undo[i].document)) in dirs || Get(d, Target(g.undo[i].document)) == g.undo[i].previous);
      assert Get(durable, Target(g.undo[i].document)) != Get(restored, Target(g.undo[i].document));
    }
  }

  /**
   The case without a journal to follow, of any save: its last step unlinked the
   journal, the sync failed, and so did writing the journal again. Recovery finds
   nothing to do and the documents read as requested, but a power cut can bring the
   journal back, and with it every document as before.
   */
  lemma UnsyncedUnlinkReverts(f: Files, rs: seq<Request>)
    requires Requestable(f, rs) && JournalFile !in f
    ensures var g, v := SaveDoubt(f, rs), Apply(f, rs);
            var d := v[JournalFile := Record(g.undo)];
            && InDoubt(v, d, g) && RecoveredV(v, g.undo) == v && RecoveredD(v, d, g.undo) == d
            && Committed(v) == Apply(f, rs) && CutLeaves(v, d, d) && Committed(d) == f
  {
    var g, v, k := SaveDoubt(f, rs), Apply(f, rs), |Changed(f, rs)|;
    var d := v[JournalFile := Record(g.undo)];
    SaveJournalAccepted(f, rs);
    PartwayInDoubt(f, rs, k);
    assert Partway(f, rs, k) == d by { JournalAndDocs(Partway(f, rs, k), v, Record(g.undo)); }
    JournalRemoval(d, d, g);
    assert Docs(d) == v;
    RestoreGivesBefore(d, g);
  }

  lemma JournalAndDocs(x: Files, docs: Files, record: Content)
    requires Docs(x) == docs && Get(x, JournalFile) == Some(record)
    ensures x == docs[JournalFile := record]
  {
    forall p ensures Get(x, p) == Get(docs[JournalFile := record], p) {
      if p != JournalFile { assert Get(x, p) == Get(Docs(x), p); }
    }
    Extensional(x, docs[JournalFile := record]);
  }

  /**
   The case the condition shuts out: a rollback renamed `system.json` back, its
   directory sync failed, and the same process runs recovery again. The file
   reads as its previous text, so nothing is synced, the journal goes, and a
   power cut shows one document as requested beside one as before.
   */
  lemma UnsyncedRetryMixes()
    ensures var undo := [Undo("system.json", Some(Text("old"))), Undo("time.json", Some(Text("old")))];
            var before: Files := map[ConfigFile("system.json") := Text("old"), ConfigFile("time.json") := Text("old")];
            var after: Files := map[ConfigFile("system.json") := Text("new"), ConfigFile("time.json") := Text("new")];
            var v: Files := before[JournalFile := Record(undo)];
            var d: Files := v[ConfigFile("system.json") := Text("new")];
            var left := Flush(d, Docs(Restore(v, undo)), Resynced(v, undo) + {StateDir});
            && InDoubt(v, d, Doubt(before, after, undo))
            && !Settled(v, d, undo)
            && Committed(left) != before && Committed(left) != after
  {
    var undo := [Undo("system.json", Some(Text("old"))), Undo("time.json", Some(Text("old")))];
    var before: Files := map[ConfigFile("system.json") := Text("old"), ConfigFile("time.json") := Text("old")];
    var after: Files := map[ConfigFile("system.json") := Text("new"), ConfigFile("time.json") := Text("new")];
    var v: Files := before[JournalFile := Record(undo)];
    var d: Files := v[ConfigFile("system.json") := Text("new")];
    var g := Doubt(before, after, undo);
    TwoConfigDocuments(undo, before, after);
    var dirs := Resynced(v, undo) + {StateDir};
    var p, q := ConfigFile("system.json"), ConfigFile("time.json");
    assert "container/"[0] == 'c' && "system.json"[0] == 's' && "time.json"[0] == 't';
    assert DirOf(p) == ConfigDir && DirOf(q) == ConfigDir;
    assert Resynced(v, undo) == {};
    var left := Flush(d, Docs(Restore(v, undo)), dirs);
    FlushAt(d, Docs(Restore(v, undo)), dirs, p);
    FlushAt(d, Docs(Restore(v, undo)), dirs, q);
    FlushAt(d, Docs(Restore(v, undo)), dirs, JournalFile);
    assert Get(Committed(left), p) == Some(Text("new")) && Get(before, p) == Some(Text("old"));
    assert Get(Committed(left), q) == Some(Text("old")) && Get(after, q) == Some(Text("new"));
  }

  lemma TwoConfigDocuments(undo: seq<Undo>, before: Files, after: Files)
    requires undo == [Undo("system.json", Some(Text("old"))), Undo("time.json", Some(Text("old")))]
    requires before == map[ConfigFile("system.json") := Text("old"), ConfigFile("time.json") := Text("old")]
    requires after == map[ConfigFile("system.json") := Text("new"), ConfigFile("time.json") := Text("new")]
    ensures WellFormed(Doubt(before, after, undo))
    ensures Targets(undo) == {ConfigFile("system.json"), ConfigFile("time.json")}
  {
    assert CONFIG_DOCUMENTS[0] == "system.json" && CONFIG_DOCUMENTS[6] == "time.json";
    assert "system.json" != STATE_DOCUMENT by { assert |"system.json"| != |STATE_DOCUMENT|; }
    assert "time.json" != STATE_DOCUMENT by { assert |"time.json"| != |STATE_DOCUMENT|; }
    assert "system.json" != "time.json" by { assert |"system.json"| != |"time.json"|; }
    assert Target(undo[0].document) == ConfigFile("system.json");
    assert Target(undo[1].document) == ConfigFile("time.json");
  }
}
