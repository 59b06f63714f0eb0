/**
 Dot-paths over a settings tree: `.`-separated segments, bare or
 double-quoted, and the reads and writes they address.
 */
module SettingsPath {
  import opened Base
  import opened Strings

  // ----- spelling

  datatype Piece = Piece(segment: string, tail: Option<string>)

  /** What a path can carry as a segment. */
  predicate Plain(segment: string) { segment != "" && '"' !in segment }

  /** A quoted first segment, from after its opening quote. */
  function QuotedPiece(quoted: string): Option<Piece> {
    var i := IndexOf(quoted, '"');
    if i == |quoted| then None
    else if i + 1 == |quoted| then Some(Piece(quoted[..i], None))
    else if quoted[i + 1] == '.' then Some(Piece(quoted[..i], Some(quoted[i + 2..])))
    else None
  }

  function BarePiece(rest: string): Piece {
    var i := IndexOf(rest, '.');
    if i < |rest| then Piece(rest[..i], Some(rest[i + 1..])) else Piece(rest, None)
  }

  /** The first segment of a path, unquoted, and the path after it. */
  function NextPiece(rest: string): (p: Option<Piece>)
    ensures p.Some? ==> Plain(p.value.segment)
    ensures p.Some? && p.value.tail.Some? ==> |p.value.tail.value| < |rest|
  {
    var p := if rest != "" && rest[0] == '"' then QuotedPiece(rest[1..]) else Some(BarePiece(rest));
    if p.Some? && Plain(p.value.segment) then p else None
  }

  function Prepend(segment: string, rest: Option<seq<string>>): Option<seq<string>> {
    if rest.None? then None else Some([segment] + rest.value)
  }

  /** The segments of a path, or `None` if it is malformed. */
  function SplitPath(path: string): Option<seq<string>>
    decreases |path|
  {
    var p := NextPiece(path);
    if p.None? then None
    else if p.value.tail.None? then Some([p.value.segment])
    else Prepend(p.value.segment, SplitPath(p.value.tail.value))
  }

  method Split(path: string) returns (segments: Option<seq<string>>)
    ensures segments == SplitPath(path)
  {
    var found: seq<string> := [];
    var rest := path;
    assert SplitPath(path).Some? ==> found + SplitPath(path).value == SplitPath(path).value;
    while true
      invariant SplitPath(path) == After(found, SplitPath(rest))
      decreases |rest|
    {
      var p := NextPiece(rest);
      if p.None? {
        return None;
      }
      AfterPrepend(found, p.value.segment, SplitPath(rest));
      found := found + [p.value.segment];
      if p.value.tail.None? {
        return Some(found);
      }
      rest := p.value.tail.value;
    }
  }

  function After(found: seq<string>, rest: Option<seq<string>>): Option<seq<string>> {
    if rest.None? then None else Some(found + rest.value)
  }

  lemma AfterPrepend(found: seq<string>, segment: string, rest: Option<seq<string>>)
    ensures forall tail :: rest == Prepend(segment, tail) ==> After(found, rest) == After(found + [segment], tail)
  {
    forall tail: Option<seq<string>> | tail.Some?
      ensures found + ([segment] + tail.value) == found + [segment] + tail.value
    {
    }
  }

  function Quote(segment: string): string {
    if '.' in segment || '"' in segment then "\"" + segment + "\"" else segment
  }

  function Join(segments: seq<string>): string {
    if segments == [] then ""
    else if |segments| == 1 then Quote(segments[0])
    else Quote(segments[0]) + "." + Join(segments[1..])
  }

  predicate AllPlain(segments: seq<string>) {
    forall i :: 0 <= i < |segments| ==> Plain(segments[i])
  }

  /** Where a separator ends a text that has none. */
  lemma EndsAt(text: string, c: char, tail: string)
    requires c !in text
    ensures var s := text + ([c] + tail);
            IndexOf(s, c) == |text| < |s| && s[..|text|] == text && s[|text| + 1..] == tail
  {
    IndexOfAppend(text, [c] + tail, c);
  }

  lemma BareSpelling(segment: string, tail: string)
    requires '.' !in segment
    ensures BarePiece(segment) == Piece(segment, None)
    ensures BarePiece(segment + "." + tail) == Piece(segment, Some(tail))
  {
    EndsAt(segment, '.', tail);
    assert segment + "." + tail == segment + (['.'] + tail);
  }

  lemma QuotedSpelling(segment: string, tail: string)
    requires '"' !in segment
    ensures QuotedPiece(segment + "\"") == Some(Piece(segment, None))
    ensures QuotedPiece(segment + "\"." + tail) == Some(Piece(segment, Some(tail)))
  {
    QuotedAlone(segment);
    QuotedThen(segment, tail);
  }

  lemma QuotedAlone(segment: string)
    requires '"' !in segment
    ensures QuotedPiece(segment + "\"") == Some(Piece(segment, None))
  {
    EndsAt(segment, '"', "");
    assert segment + "\"" == segment + (['"'] + "");
  }

  lemma QuotedThen(segment: string, tail: string)
    requires '"' !in segment
    ensures QuotedPiece(segment + "\"." + tail) == Some(Piece(segment, Some(tail)))
  {
    EndsAt(segment, '"', "." + tail);
    assert segment + "\"." + tail == segment + (['"'] + ("." + tail));
    assert ("." + tail)[0] == '.' && ("." + tail)[1..] == tail;
  }

  lemma BareHead(segment: string, tail: string)
    requires Plain(segment) && '.' !in segment
    ensures NextPiece(segment) == Some(Piece(segment, None))
    ensures NextPiece(segment + "." + tail) == Some(Piece(segment, Some(tail)))
  {
    BareSpelling(segment, tail);
    assert segment[0] in segment;
    assert (segment + "." + tail)[0] == segment[0];
  }

  lemma OpeningQuote(quoted: string, piece: Piece)
    requires QuotedPiece(quoted) == Some(piece) && Plain(piece.segment)
    ensures NextPiece("\"" + quoted) == Some(piece)
  {
    assert ("\"" + quoted)[1..] == quoted;
  }

  lemma QuotedHead(segment: string, tail: string)
    requires Plain(segment)
    ensures NextPiece("\"" + segment + "\"") == Some(Piece(segment, None))
    ensures NextPiece("\"" + segment + "\"." + tail) == Some(Piece(segment, Some(tail)))
  {
    QuotedSpelling(segment, tail);
    HeadIs(segment, "\"", Piece(segment, None));
    assert segment + "\"." + tail == segment + ("\"." + tail);
    HeadIs(segment, "\"." + tail, Piece(segment, Some(tail)));
    assert "\"" + segment + "\"." + tail == "\"" + segment + ("\"." + tail);
  }

  lemma HeadIs(segment: string, after: string, piece: Piece)
    requires QuotedPiece(segment + after) == Some(piece) && Plain(piece.segment)
    ensures NextPiece("\"" + segment + after) == Some(piece)
  {
    OpeningQuote(segment + after, piece);
    Reopen(segment, after);
  }

  lemma Reopen(segment: string, after: string)
    ensures "\"" + (segment + after) == "\"" + segment + after
  {
  }

  lemma QuoteReads(segment: string, tail: string)
    requires Plain(segment)
    ensures NextPiece(Quote(segment)) == Some(Piece(segment, None))
    ensures NextPiece(Quote(segment) + "." + tail) == Some(Piece(segment, Some(tail)))
  {
    if '.' in segment {
      QuotedHead(segment, tail);
      assert "\"" + segment + "\"" + "." + tail == "\"" + segment + "\"." + tail;
    } else {
      BareHead(segment, tail);
    }
  }

  lemma {:induction false} SplitJoin(segments: seq<string>)
    requires segments != [] && AllPlain(segments)
    ensures SplitPath(Join(segments)) == Some(segments)
  {
    if |segments| > 1 {
      SplitJoin(segments[1..]);
      SplitFirst(segments[0], segments[1..], Join(segments[1..]));
      assert segments == [segments[0]] + segments[1..];
    } else {
      QuoteReads(segments[0], "");
      SplitStep(Quote(segments[0]), Piece(segments[0], None));
      assert segments == [segments[0]];
    }
  }

  lemma SplitFirst(first: string, rest: seq<string>, tail: string)
    requires Plain(first) && SplitPath(tail) == Some(rest)
    ensures SplitPath(Quote(first) + "." + tail) == Some([first] + rest)
  {
    QuoteReads(first, tail);
    SplitStep(Quote(first) + "." + tail, Piece(first, Some(tail)));
  }

  lemma SplitStep(path: string, piece: Piece)
    requires NextPiece(path) == Some(piece)
    ensures SplitPath(path) == if piece.tail.None? then Some([piece.segment]) else Prepend(piece.segment, SplitPath(piece.tail.value))
  {
  }

  lemma {:induction false} SplitIsPlain(path: string)
    requires SplitPath(path).Some?
    ensures SplitPath(path).value != [] && AllPlain(SplitPath(path).value)
    decreases |path|
  {
    var piece := NextPiece(path).value;
    if piece.tail.Some? { SplitIsPlain(piece.tail.value); }
  }

  /** A path spelled from segments addresses those segments exactly when there
      are some and each is non-empty and free of double quotes. */
  lemma SpelledPath(segments: seq<string>)
    ensures SplitPath(Join(segments)) == Some(segments) <==> segments != [] && AllPlain(segments)
  {
    if SplitPath(Join(segments)) == Some(segments) { SplitIsPlain(Join(segments)); }
    if segments != [] && AllPlain(segments) { SplitJoin(segments); }
  }

  // ----- addressing

  /** A JSON tree; what is not an object is not looked into. */
  datatype Json = Leaf(text: string) | Object(fields: map<string, Json>)

  function GetAt(root: Json, segments: seq<string>): Option<Json> {
    if segments == [] then Some(root)
    else if root.Leaf? || segments[0] !in root.fields then None
    else GetAt(root.fields[segments[0]], segments[1..])
  }

  predicate IsRoot(path: string) { path == "" || path == "." }

  function Child(node: Json, segment: string): Json
    requires node.Object?
  {
    if segment in node.fields then node.fields[segment] else Object(map[])
  }

  /** The tree with `value` at `segments`, missing objects on the way created. */
  function SetAt(root: Json, segments: seq<string>, value: Json): Result<Json>
    decreases |segments|
  {
    if segments == [] || root.Leaf? then Err
    else if |segments| == 1 then Ok(Object(root.fields[segments[0] := value]))
    else
      match SetAt(Child(root, segments[0]), segments[1..], value)
      case Err => Err
      case Ok(child) => Ok(Object(root.fields[segments[0] := child]))
  }

  /** A settings tree, written in place. */
  class SettingsTree {
    var root: Json

    constructor (initial: Json)
      ensures root == initial
    {
      root := initial;
    }

    /** Write `value` at `segments`. A refused write leaves the tree untouched. */
    method Set(segments: seq<string>, value: Json) returns (ok: bool)
      modifies this
      ensures ok <==> SetAt(old(root), segments, value).Ok?
      ensures root == if ok then SetAt(old(root), segments, value).value else old(root)
    {
      if segments == [] {
        return false;
      }
      var n := |segments| - 1;
      var node := root;
      var parents: seq<Json> := [];
      while |parents| < n
        invariant |parents| <= n
        invariant forall k :: 0 <= k < |parents| ==> parents[k].Object?
        invariant SetAt(root, segments, value) == Rebuilt(parents, segments, SetAt(node, segments[|parents|..], value))
        decreases n - |parents|
      {
        if node.Leaf? {
          RebuiltErr(parents, segments);
          return false;
        }
        var k := |parents|;
        assert segments[k..][1..] == segments[k + 1..];
        assert (parents + [node])[..k] == parents;
        parents := parents + [node];
        node := Child(node, segments[k]);
      }
      if node.Leaf? {
        RebuiltErr(parents, segments);
        return false;
      }
      var made := Object(node.fields[segments[n] := value]);
      assert SetAt(node, segments[n..], value) == Ok(made);
      while parents != []
        invariant |parents| <= n
        invariant forall k :: 0 <= k < |parents| ==> parents[k].Object?
        invariant SetAt(root, segments, value) == Rebuilt(parents, segments, Ok(made))
        decreases |parents|
      {
        var k := |parents| - 1;
        made := Object(parents[k].fields[segments[k] := made]);
        parents := parents[..k];
      }
      root := made;
      ok := true;
    }
  }

  /** Put a finished subtree back under the nodes walked through. */
  function Rebuilt(parents: seq<Json>, segments: seq<string>, made: Result<Json>): Result<Json>
    requires |parents| <= |segments| && forall k :: 0 <= k < |parents| ==> parents[k].Object?
  {
    if parents == [] then made
    else
      var k := |parents| - 1;
      Rebuilt(parents[..k], segments,
        if made.Ok? then Ok(Object(parents[k].fields[segments[k] := made.value])) else Err)
  }

  lemma {:induction false} RebuiltErr(parents: seq<Json>, segments: seq<string>)
    requires |parents| <= |segments| && forall k :: 0 <= k < |parents| ==> parents[k].Object?
    ensures Rebuilt(parents, segments, Err) == Err
  {
    if parents != [] { RebuiltErr(parents[..|parents| - 1], segments); }
  }

  /** A write is refused exactly when it addresses nothing or walks through a
      node that is no object. */
  lemma {:induction false} SetRefused(root: Json, segments: seq<string>, value: Json)
    ensures SetAt(root, segments, value).Err? <==>
              segments == [] ||
              exists k :: 0 <= k < |segments| && GetAt(root, segments[..k]).Some? && GetAt(root, segments[..k]).value.Leaf?
    decreases |segments|
  {
    if segments != [] && root.Leaf? {
      assert GetAt(root, segments[..0]) == Some(root);
    } else if |segments| == 1 {
      assert forall k :: 0 <= k < |segments| ==> segments[..k] == [];
    } else if |segments| > 1 {
      var child, rest := Child(root, segments[0]), segments[1..];
      SetRefused(child, rest, value);
      forall k | 0 < k < |segments|
        ensures GetAt(root, segments[..k]) ==
                  if segments[0] in root.fields then GetAt(child, rest[..k - 1]) else None
      {
        assert segments[..k][1..] == rest[..k - 1];
      }
      if segments[0] !in root.fields {
        FreshObject(rest, value);
      } else if k :| 0 <= k < |rest| && GetAt(child, rest[..k]).Some? && GetAt(child, rest[..k]).value.Leaf? {
        assert GetAt(root, segments[..k + 1]) == GetAt(child, rest[..k + 1 - 1]);
      }
      assert GetAt(root, segments[..0]) == Some(root);
    }
  }

  lemma {:induction false} FreshObject(segments: seq<string>, value: Json)
    requires segments != []
    ensures SetAt(Object(map[]), segments, value).Ok?
  {
    if |segments| > 1 { FreshObject(segments[1..], value); }
  }

  /** A write read back: below the written path lies the written value, and a
      path that neither leads to it nor starts with it reads as it did. */
  lemma {:induction false} GetAfterSet(root: Json, segments: seq<string>, value: Json, path: seq<string>)
    requires SetAt(root, segments, value).Ok?
    ensures var after := SetAt(root, segments, value).value;
            && (segments <= path ==> GetAt(after, path) == GetAt(value, path[|segments|..]))
            && (!(segments <= path) && !(path <= segments) ==> GetAt(after, path) == GetAt(root, path))
            && (path < segments ==> GetAt(after, path).Some? && GetAt(after, path).value.Object?)
    decreases |segments|
  {
    if path != [] && path[0] == segments[0] {
      if |segments| == 1 {
        assert segments == [segments[0]];
        assert path == [segments[0]] + path[1..];
        assert segments <= path;
      } else {
        var rest, tail := segments[1..], path[1..];
        var child := Child(root, segments[0]);
        GetAfterSet(child, rest, value, tail);
        assert segments == [segments[0]] + rest && path == [path[0]] + tail;
        assert segments <= path <==> rest <= tail;
        assert path <= segments <==> tail <= rest;
        assert segments <= path ==> path[|segments|..] == tail[|rest|..];
        if segments[0] !in root.fields && !(rest <= tail) && !(tail <= rest) {
          assert tail != [];
          assert GetAt(child, tail) == None;
        }
      }
    }
  }

  // ----- the access subtree

  const ACCESS_PATH: string := "access"

  /** apid's filter on change signals: which paths it takes for changes of `access`. */
  predicate TouchesAccess(path: string) {
    || IsRoot(path)
    || path == ACCESS_PATH
    || (ACCESS_PATH <= path && |path| > |ACCESS_PATH| && path[|ACCESS_PATH|] == '.')
  }

  /** The filter sees a write under `access` exactly when the first segment is
      spelled bare. */
  lemma TouchesAccessExactly(path: string)
    requires SplitPath(path).Some? && !IsRoot(path)
    ensures TouchesAccess(path) <==> SplitPath(path).value[0] == ACCESS_PATH && path[0] != '"'
  {
    if path[0] == '"' {
      assert ACCESS_PATH[0] == 'a';
    } else {
      assert SplitPath(path).value[0] == path[..IndexOf(path, '.')];
      BareAccess(path);
    }
  }

  lemma BareAccess(path: string)
    requires !IsRoot(path)
    ensures TouchesAccess(path) <==> path[..IndexOf(path, '.')] == ACCESS_PATH
  {
    var n, i := |ACCESS_PATH|, IndexOf(path, '.');
    assert '.' !in ACCESS_PATH;
    if ACCESS_PATH <= path {
      assert path == ACCESS_PATH + path[n..];
      IndexOfAppend(ACCESS_PATH, path[n..], '.');
    }
  }

  /** `access` itself, spelled in quotes. */
  predicate QuotesAccess(path: string) {
    path != "" && path[0] == '"' && SplitPath(path).Some? && SplitPath(path).value != [] && SplitPath(path).value[0] == ACCESS_PATH
  }

  /** A write the filter passes over leaves `access` as it was, unless the path quotes it. */
  lemma UntouchedAccess(root: Json, path: string, value: Json)
    requires SplitPath(path).Some? && !IsRoot(path) && !QuotesAccess(path)
    requires SetAt(root, SplitPath(path).value, value).Ok? && !TouchesAccess(path)
    ensures GetAt(SetAt(root, SplitPath(path).value, value).value, [ACCESS_PATH]) == GetAt(root, [ACCESS_PATH])
  {
    SplitIsPlain(path);
    TouchesAccessExactly(path);
    GetAfterSet(root, SplitPath(path).value, value, [ACCESS_PATH]);
  }

  /** Quoted, the same segment is written and not seen. */
  lemma QuotedAccessIsMissed(value: Json)
    ensures var path := "\"access\"";
            && SplitPath(path) == Some([ACCESS_PATH]) && !TouchesAccess(path)
            && SetAt(Object(map[]), SplitPath(path).value, value) == Ok(Object(map[ACCESS_PATH := value]))
  {
    var path := "\"access\"";
    assert '"' !in ACCESS_PATH;
    assert path == "\"" + ACCESS_PATH + "\"";
    QuotedHead(ACCESS_PATH, "");
    assert path[0] == '"';
    TouchesAccessExactly(path);
  }
}
