/**
 * Step 1 of the rescuer: the game folder names, either taken from the
 * relative paths of a selected `steamapps/common` directory
 * (`handleFolderDirectory`) or typed by hand, one per line (`checkStep1`).
 */
module Folders {
  import opened Wrappers
  import Text

  /** Folders Steam keeps under `common` that are not games. */
  const IGNORED_FOLDERS: seq<string> :=
    ["CommonRedist", "Steamworks Shared", "Steam Controller Configs", ".DS_Store"]

  /**
   * The game folder a selected file lies in: component [1] of its relative
   * path (component [0] is the selected folder itself), when there is one and
   * it is neither empty nor ignored.
   */
  function GameFolderOf(path: string): (r: Option<string>)
    ensures r.Some? ==> r.value != "" && r.value !in IGNORED_FOLDERS && '/' !in r.value
    ensures r.Some? ==> |Text.Split(path, '/')| >= 2 && r.value == Text.Split(path, '/')[1]
  {
    var parts := Text.Split(path, '/');
    if |parts| >= 2 && parts[1] != "" && parts[1] !in IGNORED_FOLDERS then Some(parts[1]) else None
  }

  /** The game folder of every path that has one, in path order, repeats included. */
  function FolderCandidates(paths: seq<string>): (cs: seq<string>)
    ensures |cs| <= |paths|
  {
    if |paths| == 0 then []
    else
      var init := paths[..|paths| - 1];
      var p := paths[|paths| - 1];
      assert paths == init + [p];
      FolderCandidates(init) + (match GameFolderOf(p) case Some(g) => [g] case None => [])
  }

  /** `Array.from(new Set(xs))`: the first occurrence of each element, in order. */
  function Dedup(xs: seq<string>): (r: seq<string>)
    ensures forall x :: x in r <==> x in xs
  {
    if |xs| == 0 then []
    else
      var init := xs[..|xs| - 1];
      var x := xs[|xs| - 1];
      assert xs == init + [x];
      var d := Dedup(init);
      if x in d then d else d + [x]
  }

  predicate NoDuplicates(xs: seq<string>) {
    forall i, j :: 0 <= i < j < |xs| ==> xs[i] != xs[j]
  }

  /** The index of the first occurrence of `x` in `xs`. */
  function FirstIndex(xs: seq<string>, x: string): (i: nat)
    requires x in xs
    ensures i < |xs| && xs[i] == x && forall j :: 0 <= j < i ==> xs[j] != x
  {
    if xs[0] == x then 0 else 1 + FirstIndex(xs[1..], x)
  }

  lemma {:induction false} DedupNoDuplicates(xs: seq<string>)
    ensures NoDuplicates(Dedup(xs))
  {
    if |xs| > 0 {
      DedupNoDuplicates(xs[..|xs| - 1]);
    }
  }

  lemma FirstIndexOfPrefix(xs: seq<string>, x: string, y: string)
    requires y in xs
    ensures FirstIndex(xs + [x], y) == FirstIndex(xs, y)
  {
    var i := FirstIndex(xs, y);
    var k := FirstIndex(xs + [x], y);
    assert (xs + [x])[i] == y;
    assert k <= i;
    assert (xs + [x])[k] == xs[k];
  }

  /** The kept names are ordered by where each first occurs. */
  lemma {:induction false} DedupFirstSeenOrder(xs: seq<string>)
    ensures forall i, j :: 0 <= i < j < |Dedup(xs)| ==>
              FirstIndex(xs, Dedup(xs)[i]) < FirstIndex(xs, Dedup(xs)[j])
  {
    if |xs| > 0 {
      var init := xs[..|xs| - 1];
      var x := xs[|xs| - 1];
      assert xs == init + [x];
      DedupFirstSeenOrder(init);
      var d := Dedup(init);
      forall y | y in d ensures FirstIndex(xs, y) == FirstIndex(init, y) {
        FirstIndexOfPrefix(init, x, y);
      }
      if x !in d {
        assert x !in init;
        assert FirstIndex(xs, x) == |init|;
        forall i, j | 0 <= i < j < |Dedup(xs)|
          ensures FirstIndex(xs, Dedup(xs)[i]) < FirstIndex(xs, Dedup(xs)[j])
        {
          assert Dedup(xs) == d + [x];
          assert Dedup(xs)[i] == d[i];
          if j < |d| {
            assert Dedup(xs)[j] == d[j];
          }
        }
      }
    }
  }

  /** `INPUT_FOLDER_NAMES` after a directory selection. */
  function FolderNames(paths: seq<string>): seq<string> {
    Dedup(FolderCandidates(paths))
  }

  lemma CandidatesStep(paths: seq<string>, i: nat)
    requires i < |paths|
    ensures FolderCandidates(paths[..i + 1])
         == FolderCandidates(paths[..i]) + (match GameFolderOf(paths[i]) case Some(g) => [g] case None => [])
  {
    assert paths[..i + 1][..i] == paths[..i];
  }

  lemma DedupStep(xs: seq<string>, x: string)
    ensures Dedup(xs + [x]) == if x in Dedup(xs) then Dedup(xs) else Dedup(xs) + [x]
  {
    assert (xs + [x])[..|xs|] == xs;
  }

  /** One more path looked at: its game folder, if any, joins the set unless already there. */
  lemma CollectStep(paths: seq<string>, i: nat)
    requires i < |paths|
    ensures GameFolderOf(paths[i]).None? ==>
              FolderNames(paths[..i + 1]) == FolderNames(paths[..i])
    ensures GameFolderOf(paths[i]).Some? ==>
              var g := GameFolderOf(paths[i]).value;
              FolderNames(paths[..i + 1])
                == if g in FolderNames(paths[..i]) then FolderNames(paths[..i]) else FolderNames(paths[..i]) + [g]
  {
    CandidatesStep(paths, i);
    match GameFolderOf(paths[i])
    case None =>
      assert FolderCandidates(paths[..i]) + [] == FolderCandidates(paths[..i]);
    case Some(g) =>
      DedupStep(FolderCandidates(paths[..i]), g);
  }

  lemma FolderNamesWhole(paths: seq<string>)
    ensures FolderNames(paths[..|paths|]) == FolderNames(paths)
  {
    assert paths[..|paths|] == paths;
  }

  /**
   * The loop of `handleFolderDirectory` that fills a `Set` with the game
   * folder of each selected file, then `Array.from` of that set.
   */
  method CollectFolderNames(paths: seq<string>) returns (names: seq<string>)
    ensures names == FolderNames(paths)
  {
    var folderNamesSet: seq<string> := [];
    var i := 0;
    while i < |paths|
      invariant 0 <= i <= |paths|
      invariant folderNamesSet == FolderNames(paths[..i])
    {
      CollectStep(paths, i);
      var pathParts := Text.Split(paths[i], '/');
      if |pathParts| >= 2 {
        var gameFolder := pathParts[1];
        if gameFolder != ""
          && gameFolder != "CommonRedist"
          && gameFolder != "Steamworks Shared"
          && gameFolder != "Steam Controller Configs"
          && gameFolder != ".DS_Store"
        {
          if gameFolder !in folderNamesSet {
            folderNamesSet := folderNamesSet + [gameFolder];
          }
        }
      }
      i := i + 1;
    }
    FolderNamesWhole(paths);
    names := folderNamesSet;
  }

  lemma {:induction false} CandidatesMembers(paths: seq<string>)
    ensures forall c :: c in FolderCandidates(paths) <==> exists p :: p in paths && GameFolderOf(p) == Some(c)
  {
    if |paths| > 0 {
      var init := paths[..|paths| - 1];
      assert paths == init + [paths[|paths| - 1]];
      CandidatesMembers(init);
    }
  }

  /** Every folder found is named once; exactly the game folders of the selected paths are named. */
  lemma FolderNamesFound(paths: seq<string>)
    ensures NoDuplicates(FolderNames(paths))
    ensures forall n :: n in FolderNames(paths) <==> exists p :: p in paths && GameFolderOf(p) == Some(n)
    ensures forall n :: n in FolderNames(paths) ==> n != "" && n !in IGNORED_FOLDERS
  {
    DedupNoDuplicates(FolderCandidates(paths));
    CandidatesMembers(paths);
  }

  // ---- manual entry ----

  /** What one line adds to the names: its trimmed text, unless that is empty. */
  function Kept(l: string): seq<string>
  {
    var t := Text.Trim(l);
    if |t| > 0 then [t] else []
  }

  /** `.map(name => name.trim()).filter(name => name.length > 0)`. */
  function TrimmedNonEmpty(lines: seq<string>): (names: seq<string>)
    ensures |names| <= |lines|
    ensures forall n :: n in names ==> n != "" && Text.IsTrimmed(n)
    ensures forall l :: l in lines && Text.Trim(l) != "" ==> Text.Trim(l) in names
  {
    if |lines| == 0 then []
    else
      var init := lines[..|lines| - 1];
      var l := lines[|lines| - 1];
      assert forall x :: x in init ==> x in lines;
      assert forall x :: x in lines ==> x in init || x == l by {
        assert lines == init + [l];
      }
      TrimmedNonEmpty(init) + Kept(l)
  }

  /** The lines are processed one after another: the names of `a + b` are those of `a`, then those of `b`. */
  lemma {:induction false} TrimmedNonEmptyAppend(a: seq<string>, b: seq<string>)
    ensures TrimmedNonEmpty(a + b) == TrimmedNonEmpty(a) + TrimmedNonEmpty(b)
  {
    if |b| == 0 {
      assert a + b == a;
    } else {
      var init := b[..|b| - 1];
      var l := b[|b| - 1];
      var ab := a + b;
      assert ab[..|ab| - 1] == a + init;
      assert ab[|ab| - 1] == l;
      TrimmedNonEmptyAppend(a, init);
      TrimmedNonEmptyLast(ab);
      TrimmedNonEmptyLast(b);
      Text.ConcatAssoc(TrimmedNonEmpty(a), TrimmedNonEmpty(init), Kept(l));
    }
  }

  /** The last line's contribution comes after that of the lines before it. */
  lemma TrimmedNonEmptyLast(lines: seq<string>)
    requires |lines| > 0
    ensures TrimmedNonEmpty(lines) == TrimmedNonEmpty(lines[..|lines| - 1]) + Kept(lines[|lines| - 1])
  {
  }

  /** One line gives its trimmed text, unless that is empty. */
  lemma TrimmedNonEmptyLine(l: string)
    ensures TrimmedNonEmpty([l]) == if Text.Trim(l) != "" then [Text.Trim(l)] else []
  {
    assert [l][..0] == [];
  }

  /** The folder names typed by hand: the text split into lines, trimmed, blanks dropped. */
  function ManualFolders(text: string): (names: seq<string>)
    ensures forall n :: n in names ==> n != "" && Text.IsTrimmed(n) && '\n' !in n
    ensures forall l :: l in Text.Split(text, '\n') && Text.Trim(l) != "" ==> Text.Trim(l) in names
  {
    var lines := Text.Split(text, '\n');
    TrimmedNonEmptyKeeps(lines, '\n');
    TrimmedNonEmpty(lines)
  }

  /** Trimming adds no character, so a character no line has is in no name. */
  lemma {:induction false} TrimmedNonEmptyKeeps(lines: seq<string>, c: char)
    requires forall l :: l in lines ==> c !in l
    ensures forall n :: n in TrimmedNonEmpty(lines) ==> c !in n
  {
    if |lines| > 0 {
      var init := lines[..|lines| - 1];
      var l := lines[|lines| - 1];
      assert l in lines;
      assert forall x :: x in init ==> x in lines;
      TrimmedNonEmptyKeeps(init, c);
      Text.TrimMembers(l);
    }
  }

  lemma {:induction false} TrimmedNonEmptyOfNames(names: seq<string>)
    requires forall n :: n in names ==> n != "" && Text.IsTrimmed(n)
    ensures TrimmedNonEmpty(names) == names
  {
    if |names| > 0 {
      var init := names[..|names| - 1];
      var last := names[|names| - 1];
      assert names == init + [last];
      assert last in names;
      assert forall n :: n in init ==> n in names;
      TrimmedNonEmptyOfNames(init);
      Text.TrimOfTrimmed(last);
      TrimmedNonEmptyAppend(init, [last]);
      TrimmedNonEmptyLine(last);
    }
  }

  /** Text is read line by line, in order: the names before a line break come first. */
  lemma ManualFoldersAppend(a: string, b: string)
    ensures ManualFolders(a + "\n" + b) == ManualFolders(a) + ManualFolders(b)
  {
    Text.SplitConcat(a, b, '\n');
    TrimmedNonEmptyAppend(Text.Split(a, '\n'), Text.Split(b, '\n'));
  }

  /** A single line gives its trimmed text as the only name, or no name when it is blank. */
  lemma ManualFoldersLine(l: string)
    requires '\n' !in l
    ensures ManualFolders(l) == if Text.Trim(l) != "" then [Text.Trim(l)] else []
  {
    Text.SplitNoSeparator(l, '\n');
    TrimmedNonEmptyLine(l);
  }

  /** Names written one per line are read back exactly. */
  lemma ManualFoldersOfLines(names: seq<string>)
    requires |names| >= 1
    requires forall n :: n in names ==> n != "" && Text.IsTrimmed(n) && '\n' !in n
    ensures ManualFolders(Text.Join(names, '\n')) == names
  {
    Text.SplitJoin(names, '\n');
    TrimmedNonEmptyOfNames(names);
  }
}
