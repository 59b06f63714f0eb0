/**
 Which documents a save of the settings store hands to the journal: the fixed
 documents, each project's file, and the files of projects that are gone.
 */
module StoreWrites {
  import opened Base
  import opened DurableFiles
  import opened Documents
  import opened UndoJournal

  const FIXED_DOCUMENTS: seq<string> := CONFIG_DOCUMENTS + [STATE_DOCUMENT]

  datatype Project = Project(name: string, text: string)

  predicate DistinctNames(names: seq<string>) {
    forall i, j :: 0 <= i < j < |names| ==> names[i] != names[j]
  }

  predicate ValidProjects(projects: seq<Project>) {
    && (forall i :: 0 <= i < |projects| ==> IsProjectName(projects[i].name))
    && forall i, j :: 0 <= i < j < |projects| ==> projects[i].name != projects[j].name
  }

  predicate HasProject(projects: seq<Project>, name: string) {
    exists i :: 0 <= i < |projects| && projects[i].name == name
  }

  /** The requests of a list, known to recovery and each document once. */
  predicate Journalable(rs: seq<Request>) {
    && DistinctRequests(rs)
    && forall i :: 0 <= i < |rs| ==> KnownDocument(rs[i].document)
  }

  lemma {:induction false} FixedDocumentsAreNoProjects()
    ensures DistinctNames(FIXED_DOCUMENTS)
    ensures forall i :: 0 <= i < |FIXED_DOCUMENTS| ==> ProjectOf(FIXED_DOCUMENTS[i]).None?
  {
    var f := FIXED_DOCUMENTS;
    assert PROJECTS_PREFIX[0] == 'c' && PROJECTS_PREFIX[9] == '/';
    assert f[0] == "system.json" && f[1] == "network.json" && f[2] == "dns.json" && f[3] == "wifi.json";
    assert f[4] == "ssh.json" && f[5] == "mqtt.json" && f[6] == "time.json" && f[7] == "container.json";
    assert f[8] == "bluetooth.json" && f[9] == "services.json" && f[10] == "settings.toml";
    assert f[0][0] == 's' && f[1][0] == 'n' && f[2][0] == 'd' && f[3][0] == 'w' && f[4][0] == 's';
    assert f[5][0] == 'm' && f[6][0] == 't' && f[7][9] == '.' && f[8][0] == 'b' && f[9][0] == 's' && f[10][0] == 's';
    assert f[0][1] == 'y' && f[4][1] == 's' && f[9][1] == 'e' && f[10][1] == 'e' && f[9][2] == 'r' && f[10][2] == 't';
    assert f[7][0] == 'c';
  }

  /** What a project may be called: 1 to 40 of `a` to `z` (97 to 122), `0` to `9` (48 to 57),
      `_` and `-`, of which the first is a letter or a digit. */
  lemma ProjectNames(name: string)
    ensures IsProjectName(name) <==>
              && 1 <= |name| <= 40 && name[0] != '_' && name[0] != '-'
              && forall i :: 0 <= i < |name| ==>
                   var c := name[i] as int; 97 <= c <= 122 || 48 <= c <= 57 || name[i] == '_' || name[i] == '-'
  {
  }

  /** A project's document names that project, and nothing else does. */
  lemma ProjectDocumentNames(document: string, name: string)
    requires IsProjectName(name)
    ensures ProjectOf(document) == Some(name) <==> document == "container/" + name + ".yaml"
    ensures ProjectDocument(name) == "container/" + name + ".yaml"
  {
    var n, m := |PROJECTS_PREFIX|, |PROJECT_SUFFIX|;
    if document == ProjectDocument(name) {
      assert document[..n] == PROJECTS_PREFIX;
      assert document[n..] == name + PROJECT_SUFFIX;
      var file := document[n..];
      assert file[|file| - m..] == PROJECT_SUFFIX && file[..|file| - m] == name;
    }
    if ProjectOf(document) == Some(name) {
      var file := document[n..];
      assert document == PROJECTS_PREFIX + file;
      assert file == file[..|file| - m] + file[|file| - m..];
    }
  }

  /** The fixed documents: rendered in order, unless the store preserves one that
      is still there; a rendering that fails refuses the save. */
  method FixedWrites(rendered: seq<Option<string>>, preserve: set<string>, present: set<string>)
    returns (writes: Result<seq<Request>>)
    requires |rendered| == |FIXED_DOCUMENTS|
    ensures writes.Err? <==>
              exists i :: 0 <= i < |rendered| && rendered[i].None?
                && !(FIXED_DOCUMENTS[i] in preserve && FIXED_DOCUMENTS[i] in present)
    ensures writes.Ok? ==>
              && Journalable(writes.value) && |writes.value| <= |FIXED_DOCUMENTS|
              && (forall k :: 0 <= k < |writes.value| ==> writes.value[k].document in FIXED_DOCUMENTS)
              && (forall i :: 0 <= i < |rendered| ==>
                    if FIXED_DOCUMENTS[i] in preserve && FIXED_DOCUMENTS[i] in present
                    then forall k :: 0 <= k < |writes.value| ==> writes.value[k].document != FIXED_DOCUMENTS[i]
                    else rendered[i].Some?
                         && Request(FIXED_DOCUMENTS[i], Some(Text(rendered[i].value))) in writes.value)
  {
    FixedDocumentsAreNoProjects();
    var ws: seq<Request> := [];
    var i := 0;
    while i < |rendered|
      invariant 0 <= i <= |rendered| && |ws| <= i
      invariant Journalable(ws)
      invariant forall k :: 0 <= k < |ws| ==> ws[k].document in FIXED_DOCUMENTS[..i]
      invariant forall j :: 0 <= j < i ==>
                  if FIXED_DOCUMENTS[j] in preserve && FIXED_DOCUMENTS[j] in present
                  then forall k :: 0 <= k < |ws| ==> ws[k].document != FIXED_DOCUMENTS[j]
                  else rendered[j].Some? && Request(FIXED_DOCUMENTS[j], Some(Text(rendered[j].value))) in ws
    {
      var name := FIXED_DOCUMENTS[i];
      assert name !in FIXED_DOCUMENTS[..i];
      if !(name in preserve && name in present) {
        if rendered[i].None? {
          return Err;
        }
        ws := ws + [Request(name, Some(Text(rendered[i].value)))];
      }
      i := i + 1;
    }
    writes := Ok(ws);
  }

  /** The projects' files, written. */
  function Installed(projects: seq<Project>): seq<Request> {
    seq(|projects|, i requires 0 <= i < |projects| =>
      Request(ProjectDocument(projects[i].name), Some(Text(projects[i].text))))
  }

  lemma InstalledNames(projects: seq<Project>, i: nat)
    requires ValidProjects(projects) && i < |projects|
    ensures ProjectOf(Installed(projects)[i].document) == Some(projects[i].name)
  {
    ProjectDocumentNames(ProjectDocument(projects[i].name), projects[i].name);
  }

  /** A removal of a listed file whose project is gone. */
  predicate Removal(r: Request, projects: seq<Project>) {
    r.text == None && ProjectOf(r.document).Some? && !HasProject(projects, ProjectOf(r.document).value)
  }

  predicate IsListed(r: Request, listing: seq<string>) {
    exists j :: 0 <= j < |listing| && r.document == PROJECTS_PREFIX + listing[j]
  }

  /** The files of projects the tree no longer holds, removed. */
  method Removals(listing: seq<string>, projects: seq<Project>) returns (writes: seq<Request>)
    requires DistinctNames(listing)
    ensures DistinctRequests(writes) && |writes| <= |listing|
    ensures forall r :: r in writes <==> Removal(r, projects) && IsListed(r, listing)
  {
    writes := [];
    var i := 0;
    while i < |listing|
      invariant 0 <= i <= |listing| && |writes| <= i
      invariant DistinctRequests(writes)
      invariant forall k :: 0 <= k < |writes| ==> Removal(writes[k], projects)
      invariant forall k :: 0 <= k < |writes| ==>
                  exists j :: 0 <= j < i && writes[k].document == PROJECTS_PREFIX + listing[j]
      invariant forall j :: 0 <= j < i && Removal(Request(PROJECTS_PREFIX + listing[j], None), projects) ==>
                  Request(PROJECTS_PREFIX + listing[j], None) in writes
    {
      var r := Request(PROJECTS_PREFIX + listing[i], None);
      forall j | 0 <= j < i ensures PROJECTS_PREFIX + listing[j] != PROJECTS_PREFIX + listing[i] {
        assert (PROJECTS_PREFIX + listing[j])[|PROJECTS_PREFIX|..] == listing[j];
        assert (PROJECTS_PREFIX + listing[i])[|PROJECTS_PREFIX|..] == listing[i];
      }
      if Removal(r, projects) {
        writes := writes + [r];
      }
      i := i + 1;
    }
  }

  /** What reading the projects directory comes to. */
  datatype Directory = Entries(names: seq<string>) | Absent | Unreadable {
    function Listing(): seq<string> { if Entries? then names else [] }
  }

  predicate PreservesProject(preserve: set<string>) {
    exists name :: name in preserve && ProjectOf(name).Some?
  }

  /** What the projects directory needs: a file for every project, and none for those
      that are gone. While the file of any project is preserved, all are left alone.
      A directory that is not there is made when a project needs it; `makes` says
      whether making it and syncing its parent succeed. */
  method ProjectWrites(preserve: set<string>, directory: Directory, projects: seq<Project>, makes: bool)
    returns (writes: Result<seq<Request>>, made: bool)
    requires DistinctNames(directory.Listing()) && ValidProjects(projects)
    ensures PreservesProject(preserve) ==> writes == Ok([]) && !made
    ensures !PreservesProject(preserve) ==>
              && (made <==> directory.Absent? && projects != [])
              && (writes.Err? <==> directory.Unreadable? || (made && !makes))
    ensures writes.Ok? ==>
              && Journalable(writes.value) && |writes.value| <= |directory.Listing()| + |projects|
              && (forall k :: 0 <= k < |writes.value| ==> ProjectOf(writes.value[k].document).Some?)
    ensures writes.Ok? && !PreservesProject(preserve) ==>
              forall r :: r in writes.value <==>
                r in Installed(projects) || (Removal(r, projects) && IsListed(r, directory.Listing()))
  {
    if PreservesProject(preserve) {
      return Ok([]), false;
    }
    if directory.Unreadable? {
      return Err, false;
    }
    var removals := Removals(directory.Listing(), projects);
    made := directory.Absent? && projects != [];
    if made && !makes {
      return Err, made;
    }
    writes := Ok(removals + Installed(projects));
    ProjectWritesDistinct(removals, projects);
  }

  lemma ProjectWritesDistinct(removals: seq<Request>, projects: seq<Project>)
    requires ValidProjects(projects) && DistinctRequests(removals)
    requires forall k :: 0 <= k < |removals| ==> Removal(removals[k], projects)
    ensures var writes := removals + Installed(projects);
            && Journalable(writes)
            && forall k :: 0 <= k < |writes| ==> ProjectOf(writes[k].document).Some?
  {
    var n, installed := |removals|, Installed(projects);
    var writes := removals + installed;
    forall k | 0 <= k < |installed| ensures ProjectOf(installed[k].document) == Some(projects[k].name) {
      InstalledNames(projects, k);
    }
    forall i, j | 0 <= i < j < |writes| ensures writes[i].document != writes[j].document {
      if j < n {
        assert writes[i] == removals[i] && writes[j] == removals[j];
      } else if i < n {
        assert writes[i] == removals[i] && writes[j] == installed[j - n];
        assert HasProject(projects, projects[j - n].name);
      } else {
        assert writes[i] == installed[i - n] && writes[j] == installed[j - n];
      }
    }
  }

  /** What recovery follows: at most 4096 entries of distinct documents, each of which is
      `settings.toml`, one of ten configuration files, or a project's file. */
  lemma AcceptedJournals(undo: seq<Undo>)
    ensures Accepts(undo) <==>
              && |undo| <= 4096
              && (forall i, j :: 0 <= i < j < |undo| ==> undo[i].document != undo[j].document)
              && forall i :: 0 <= i < |undo| ==>
                   || undo[i].document == "settings.toml"
                   || undo[i].document in [
                        "system.json", "network.json", "dns.json", "wifi.json", "ssh.json", "mqtt.json",
                        "time.json", "container.json", "bluetooth.json", "services.json"]
                   || IsProjectFile(undo[i].document)
  {
    forall i | 0 <= i < |undo| ensures ProjectOf(undo[i].document).Some? <==> IsProjectFile(undo[i].document) {
      ProjectFiles(undo[i].document);
    }
  }

  /** `container/`, a project's name, and `.yaml`. */
  ghost predicate IsProjectFile(document: string) {
    exists name :: IsProjectName(name) && document == "container/" + name + ".yaml"
  }

  lemma ProjectFiles(document: string)
    ensures ProjectOf(document).Some? <==> IsProjectFile(document)
  {
    if ProjectOf(document).Some? {
      ProjectDocumentNames(document, ProjectOf(document).value);
    }
    if name :| IsProjectName(name) && document == "container/" + name + ".yaml" {
      ProjectDocumentNames(document, name);
    }
  }

  /** What a save hands to the journal is journalled, and recovery follows the
      journal whatever the documents were, while no more than it holds change. */
  lemma StoreWritesAreRequestable(f: Files, fixed: seq<Request>, projects: seq<Request>)
    requires Journalable(fixed) && Journalable(projects)
    requires forall k :: 0 <= k < |fixed| ==> fixed[k].document in FIXED_DOCUMENTS
    requires forall k :: 0 <= k < |projects| ==> ProjectOf(projects[k].document).Some?
    ensures Requestable(f, fixed + projects) <==> |Changed(f, fixed + projects)| <= 4096
    ensures |fixed + projects| <= 4096 ==> Requestable(f, fixed + projects)
  {
    FixedDocumentsAreNoProjects();
    var all := fixed + projects;
    forall i, j | 0 <= i < j < |all| ensures all[i].document != all[j].document {
      if i < |fixed| <= j {
        assert ProjectOf(fixed[i].document).None?;
        assert ProjectOf(projects[j - |fixed|].document).Some?;
      }
    }
    ChangedOf(f, all);
  }
}
