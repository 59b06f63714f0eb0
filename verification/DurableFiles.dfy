/**
 Files that survive power cuts: atomic replacement and synced removal.

 A disk is two views of one set of directory entries: what a reader sees, and
 what a power cut is sure to leave. A rename or an unlink changes the first;
 syncing the directory carries it to the second. A power cut keeps or loses
 every unsynced entry on its own, and leaves any text at all in a file whose
 data was not synced. Any step may fail or be cut, so the contracts below hold
 of every interleaving of faults.
 */
module DurableFiles {
  import opened Base

  datatype Directory = StateDir | ConfigDir | ProjectsDir

  /** The files of the settings store, and the temporary sibling a replacement
      of one goes through. */
  datatype Path = StateFile | JournalFile | ConfigFile(name: string) | Temp(of: Path)

  function DirOf(p: Path): Directory {
    match p
    case StateFile => StateDir
    case JournalFile => StateDir
    case ConfigFile(name) => if "container/" <= name then ProjectsDir else ConfigDir
    case Temp(of) => DirOf(of)
  }

  /** A file's text. The journal's JSON is a reversible spelling of its undo
      records, so a text is that spelling or it is not one. */
  datatype Content = Text(text: string) | Record(undo: seq<Undo>)

  datatype Undo = Undo(document: string, previous: Option<Content>)

  /** An inode: its text, and whether that text has been synced. */
  datatype Node = Node(content: Content, synced: bool)

  type Entries = map<Path, Node>

  /** The files of a view by their text, temporary siblings aside. */
  type Files = map<Path, Content>

  function FilesOf(e: Entries): Files {
    map p | p in e && !p.Temp? :: e[p].content
  }

  function Get(f: Files, p: Path): Option<Content> {
    if p in f then Some(f[p]) else None
  }

  function Put(f: Files, p: Path, c: Option<Content>): Files {
    if c.Some? then f[p := c.value] else f - {p}
  }

  /** Syncing `dirs`: their entries become those of `v`, the others stay `d`'s. */
  function Flush(d: Files, v: Files, dirs: set<Directory>): Files {
    map p | p in d.Keys + v.Keys && (if DirOf(p) in dirs then p in v else p in d)
      :: if DirOf(p) in dirs then v[p] else d[p]
  }

  /** The entries of one directory as visible, the others as durable. */
  function Synced(visible: Entries, durable: Entries, dir: Directory): Entries {
    map p | p in visible.Keys + durable.Keys && (if DirOf(p) == dir then p in visible else p in durable)
      :: if DirOf(p) == dir then visible[p] else durable[p]
  }

  lemma SyncedFiles(visible: Entries, durable: Entries, dir: Directory)
    ensures FilesOf(Synced(visible, durable, dir)) == Flush(FilesOf(durable), FilesOf(visible), {dir})
  {
  }

  /** A power cut over views `v` and `d` may leave `left`. */
  ghost predicate CutLeaves(v: Files, d: Files, left: Files) {
    forall p :: Get(left, p) == Get(v, p) || Get(left, p) == Get(d, p)
  }

  datatype Outcome = Done | Failed | Cut

  class Disk {
    var visible: Entries
    var durable: Entries

    /** Under its own name a file always has its data on disk. */
    ghost predicate Sound()
      reads this
    {
      && (forall p :: p in visible && !p.Temp? ==> visible[p].synced)
      && (forall p :: p in durable && !p.Temp? ==> durable[p].synced)
    }

    function V(): Files
      reads this
    {
      FilesOf(visible)
    }

    function D(): Files
      reads this
    {
      FilesOf(durable)
    }

    // ----- the steps

    /** The power goes and the machine restarts: `kept` are the unsynced entries
        that survive, `torn` what unsynced data turns into. */
    method PowerCut()
      requires Sound()
      modifies this
      ensures Sound() && visible == durable
      ensures CutLeaves(old(V()), old(D()), V())
    {
      var kept: set<Path> := *;
      var torn: map<Path, Content> := *;
      var left: Entries := map p
        | p in visible.Keys + durable.Keys && (if p in kept then p in visible else p in durable)
        :: var n := if p in kept then visible[p] else durable[p];
           Node(if n.synced || p !in torn then n.content else torn[p], true);
      visible, durable := left, left;
    }

    method Read(p: Path) returns (o: Outcome, c: Option<Content>)
      requires Sound() && !p.Temp?
      modifies this
      ensures Sound()
      ensures o != Cut ==> visible == old(visible) && durable == old(durable)
      ensures o == Done ==> c == Get(V(), p)
      ensures o == Cut ==> visible == durable && CutLeaves(old(V()), old(D()), V())
    {
      o := Fault();
      c := if p in visible then Some(visible[p].content) else None;
    }

    /** What happens to the next step: it is taken, it fails, or the power goes
        before it. */
    method Fault() returns (o: Outcome)
      requires Sound()
      modifies this
      ensures Sound()
      ensures o != Cut ==> visible == old(visible) && durable == old(durable)
      ensures o == Cut ==> visible == durable && CutLeaves(old(V()), old(D()), V())
    {
      o := *;
      if o == Cut {
        PowerCut();
      }
    }

    /** Make every entry of a directory durable. */
    method SyncDir(dir: Directory) returns (o: Outcome)
      requires Sound()
      modifies this
      ensures Sound()
      ensures o != Cut ==> visible == old(visible)
      ensures o == Done ==> D() == Flush(old(D()), V(), {dir})
      ensures o == Failed ==> durable == old(durable)
      ensures o == Cut ==> visible == durable && CutLeaves(old(V()), old(D()), V())
    {
      o := Fault();
      if o == Done {
        SyncedFiles(visible, durable, dir);
        durable := Synced(visible, durable, dir);
      }
    }

    // ----- the primitives

    /** Bring `content`, synced, under the temporary name of `p`: whatever an
        interrupted run left there is removed, then the file is created
        exclusively, written and synced. No file under its own name changes. */
    method Stage(p: Path, content: Content) returns (o: Outcome)
      requires Sound() && !p.Temp?
      modifies this
      ensures Sound()
      ensures o != Cut ==> V() == old(V()) && D() == old(D())
      ensures o == Done ==> Temp(p) in visible && visible[Temp(p)] == Node(content, true)
      ensures o == Cut ==> visible == durable && CutLeaves(old(V()), old(D()), V())
    {
      o := Fault();
      if o != Done { return; }
      SetTemp(p, None);
      o := Fault();
      if o != Done { return; }
      SetTemp(p, Some(Node(Text(""), false)));
      o := Fault();
      if o == Cut { return; }
      if o == Failed {
        // A write that fails leaves part of the text.
        var partial: Content := *;
        SetTemp(p, Some(Node(partial, false)));
        return;
      }
      SetTemp(p, Some(Node(content, false)));
      o := Fault();
      if o != Done { return; }
      SetTemp(p, Some(Node(content, true)));
    }

    method SetTemp(p: Path, n: Option<Node>)
      requires Sound()
      modifies this`visible
      ensures Sound() && V() == old(V())
      ensures visible == if n.Some? then old(visible)[Temp(p) := n.value] else old(visible) - {Temp(p)}
    {
      visible := if n.Some? then visible[Temp(p) := n.value] else visible - {Temp(p)};
      assert V() == old(V());
    }

    /** Replace `p` by `content`: staged, renamed over `p`, and the directory
        synced. Cut anywhere, `p` reads as before or as `content`, never torn;
        failed, it does too, and nothing is durable that was not. */
    method Replace(p: Path, content: Content) returns (o: Outcome)
      requires Sound() && !p.Temp?
      modifies this
      ensures Sound()
      ensures o == Done ==>
                V() == old(V())[p := content] && D() == Flush(old(D()), V(), {DirOf(p)})
      ensures o == Failed ==> (V() == old(V()) || V() == old(V())[p := content]) && D() == old(D())
      ensures o == Cut ==> visible == durable && (
                           || CutLeaves(old(V()), old(D()), V())
                           || CutLeaves(old(V())[p := content], old(D()), V()))
    {
      o := Stage(p, content);
      if o != Done { return; }
      o := Fault();
      if o != Done { return; }
      visible := (visible - {Temp(p)})[p := visible[Temp(p)]];
      assert V() == old(V())[p := content];
      o := SyncDir(DirOf(p));
    }

    /** Remove `p` and sync its directory. A file already absent counts as
        removed, and nothing is synced. */
    method RemoveSynced(p: Path) returns (o: Outcome)
      requires Sound() && !p.Temp?
      modifies this
      ensures Sound()
      ensures o == Done && p !in old(V()) ==> V() == old(V()) && D() == old(D())
      ensures o == Done && p in old(V()) ==>
                V() == old(V()) - {p} && D() == Flush(old(D()), V(), {DirOf(p)})
      ensures o == Failed ==> (V() == old(V()) || V() == old(V()) - {p}) && D() == old(D())
      ensures o == Cut ==> visible == durable && (
                           || CutLeaves(old(V()), old(D()), V())
                           || CutLeaves(old(V()) - {p}, old(D()), V()))
    {
      o := Fault();
      if o != Done || p !in visible { return; }
      visible := visible - {p};
      assert V() == old(V()) - {p};
      o := SyncDir(DirOf(p));
    }
  }
}
