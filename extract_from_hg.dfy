/**
 * The import script that copies Loop's standalone client from
 * mozilla-central (Mercurial) into the loop-client git repository:
 * which files it cares about, where they go, how test pages are patched,
 * what it does per changeset and which changesets of a revision range it ports.
 *
 * The file system, git and Mercurial are not touched: every effect the
 * script has on them is an `Action` appended to a log.
 */
module HgImport {
  import opened Common
  import opened PyStr

  /** The file naming the last mozilla-central changeset that was looked at. */
  const LatestRevFile: string := "last_m_c_import_rev.txt"

  // ---------------------------------------------------------------------------
  // Filenames
  // ---------------------------------------------------------------------------

  /** The four path prefixes that make a file interesting; note: no trailing slash. */
  const StandalonePrefix: string := "browser/components/loop/standalone"
  const SharedPrefix: string := "browser/components/loop/content/shared"
  const TestStandalonePrefix: string := "browser/components/loop/test/standalone"
  const TestSharedPrefix: string := "browser/components/loop/test/shared"

  const InterestingPrefixes: seq<string> :=
    [StandalonePrefix, SharedPrefix, TestStandalonePrefix, TestSharedPrefix]

  const StandaloneDir: string := "browser/components/loop/standalone/"
  const SharedDir: string := "browser/components/loop/content/shared/"
  const TestStandaloneDir: string := "browser/components/loop/test/standalone/"
  const TestSharedDir: string := "browser/components/loop/test/shared/"

  /** The four directories the translation rewrites, in the order it rewrites them ... */
  const SourceDirs: seq<string> := [StandaloneDir, SharedDir, TestStandaloneDir, TestSharedDir]

  /** ... and what each becomes in the loop-client repository. */
  const TargetDirs: seq<string> := ["", "content/shared/", "test/standalone/", "test/shared/"]

  /** Is this file interesting to Loop? */
  predicate InterestingFilename(filename: string)
  {
    StandalonePrefix <= filename || SharedPrefix <= filename ||
    TestStandalonePrefix <= filename || TestSharedPrefix <= filename
  }

  /** Maps a mozilla-central path to a loop-client path: four replace-all rewrites, in order. */
  function TranslateFilename(filename: string): string
  {
    var f1 := ReplaceAll(filename, StandaloneDir, "");
    var f2 := ReplaceAll(f1, SharedDir, "content/shared/");
    var f3 := ReplaceAll(f2, TestStandaloneDir, "test/standalone/");
    ReplaceAll(f3, TestSharedDir, "test/shared/")
  }

  /** The two translated test pages whose script paths must be patched. */
  predicate TestFileNeedsTranslation(filename: string)
  {
    filename == "test/standalone/index.html" || filename == "test/shared/index.html"
  }

  const StandaloneScriptRef: string := "src=\"../../standalone/"
  const FlattenedScriptRef: string := "src=\"../../"

  /** Patches a test page: every `src="../../standalone/` becomes `src="../../`. */
  function TranslateTestFile(content: string): string
  {
    ReplaceAll(content, StandaloneScriptRef, FlattenedScriptRef)
  }

  /** None of the four rewritten directories occurs in `s`. */
  predicate NoSourceDir(s: string)
  {
    !Contains(s, SourceDirs[0]) && !Contains(s, SourceDirs[1]) &&
    !Contains(s, SourceDirs[2]) && !Contains(s, SourceDirs[3])
  }

  /** A name that mentions none of the four directories is not renamed. */
  lemma TranslateLeavesOthersAlone(filename: string)
    requires NoSourceDir(filename)
    ensures TranslateFilename(filename) == filename
  {
    NoOccurrenceUnchanged(filename, SourceDirs[0], TargetDirs[0]);
    NoOccurrenceUnchanged(filename, SourceDirs[1], TargetDirs[1]);
    NoOccurrenceUnchanged(filename, SourceDirs[2], TargetDirs[2]);
    NoOccurrenceUnchanged(filename, SourceDirs[3], TargetDirs[3]);
  }

  /** Every name whose directory the translation rewrites is an interesting one. */
  lemma RewrittenNamesAreInteresting(k: nat, rest: string)
    requires k < 4
    ensures InterestingFilename(SourceDirs[k] + rest)
  {
    assert SourceDirs[k] == InterestingPrefixes[k] + "/";
    assert (SourceDirs[k] + rest)[..|InterestingPrefixes[k]|] == InterestingPrefixes[k];
  }

  /**
   * The interest test has no trailing slash: a name that continues the
   * standalone prefix with anything but `/` (and names no rewritten
   * directory further on) is interesting, yet no rewrite applies to it.
   */
  lemma InterestingWithoutSlash(rest: string)
    requires rest != [] && rest[0] != '/' && NoSourceDir(rest)
    ensures InterestingFilename(StandalonePrefix + rest)
    ensures TranslateFilename(StandalonePrefix + rest) == StandalonePrefix + rest
  {
    var n := StandalonePrefix + rest;
    assert n[..|StandalonePrefix|] == StandalonePrefix;
    assert StandalonePrefix[1..] == "rowser/components/loop/standalone";
    assert n[|StandalonePrefix|] == rest[0];
    forall j | 0 <= j < 4 ensures !Contains(n, SourceDirs[j]) {
      SourceDirLetters(j);
      if j == 0 {
        assert n[..|SourceDirs[0]|][|StandalonePrefix|] == rest[0];
      } else {
        SourceDirsDiffer(0, j);
        DiffersAt(StandalonePrefix, rest, SourceDirs[j], 24);
      }
      assert !Contains(rest, SourceDirs[j]);
      NoOccurrenceAfterHead(StandalonePrefix, rest, SourceDirs[j]);
    }
    TranslateLeavesOthersAlone(n);
  }

  /** Each rewritten directory starts with a `b` and has no other. */
  lemma SourceDirLetters(k: nat)
    requires k < 4
    ensures |SourceDirs[k]| > 30 && SourceDirs[k][0] == 'b' && 'b' !in SourceDirs[k][1..]
  {
    assert forall i :: 1 <= i < |SourceDirs[k]| ==> SourceDirs[k][i] != 'b';
  }

  /** Two different rewritten directories differ at position 24, or at 30 for the two test ones. */
  lemma SourceDirsDiffer(k: nat, j: nat)
    requires k < 4 && j < 4 && k != j
    ensures var d := if k >= 2 && j >= 2 then 30 else 24;
      d < |SourceDirs[k]| && d < |SourceDirs[j]| && SourceDirs[k][d] != SourceDirs[j][d]
  {
    assert StandaloneDir[24] == 's' && SharedDir[24] == 'c';
    assert TestStandaloneDir[24] == 't' && TestStandaloneDir[30] == 't';
    assert TestSharedDir[24] == 't' && TestSharedDir[30] == 'h';
  }

  /** Any rewritten directory other than `SourceDirs[k]` is absent from `SourceDirs[k] + rest`. */
  lemma OtherDirAbsent(k: nat, j: nat, rest: string)
    requires k < 4 && j < 4 && k != j && NoSourceDir(rest)
    ensures !Contains(SourceDirs[k] + rest, SourceDirs[j])
  {
    SourceDirLetters(k);
    SourceDirLetters(j);
    SourceDirsDiffer(k, j);
    var d := if k >= 2 && j >= 2 then 30 else 24;
    DiffersAt(SourceDirs[k], rest, SourceDirs[j], d);
    assert !Contains(rest, SourceDirs[j]);
    NoOccurrenceAfterHead(SourceDirs[k], rest, SourceDirs[j]);
  }

  /** No rewritten directory occurs in `TargetDirs[k] + rest`. */
  lemma TargetHasNoSourceDir(k: nat, rest: string)
    requires k < 4 && NoSourceDir(rest)
    ensures NoSourceDir(TargetDirs[k] + rest)
  {
    NoOccurrenceAfterPlain(TargetDirs[k], rest, SourceDirs[0]);
    NoOccurrenceAfterPlain(TargetDirs[k], rest, SourceDirs[1]);
    NoOccurrenceAfterPlain(TargetDirs[k], rest, SourceDirs[2]);
    NoOccurrenceAfterPlain(TargetDirs[k], rest, SourceDirs[3]);
  }

  /**
   * A file under one of the four directories moves to the matching
   * loop-client directory (the standalone directory becomes the root),
   * provided the rest of its name mentions none of the four directories.
   */
  lemma TranslateMovesDirectory(k: nat, rest: string)
    requires k < 4 && NoSourceDir(rest)
    ensures TranslateFilename(SourceDirs[k] + rest) == TargetDirs[k] + rest
  {
    var f := SourceDirs[k] + rest;
    var g := TargetDirs[k] + rest;
    TargetHasNoSourceDir(k, rest);
    forall j | 0 <= j < 4 && j != k ensures !Contains(f, SourceDirs[j]) {
      OtherDirAbsent(k, j, rest);
    }
    ReplaceLeadingOccurrence(SourceDirs[k], rest, TargetDirs[k]);
    if k == 0 {
      assert g == rest;
      NoOccurrenceUnchanged(g, SourceDirs[1], TargetDirs[1]);
      NoOccurrenceUnchanged(g, SourceDirs[2], TargetDirs[2]);
      NoOccurrenceUnchanged(g, SourceDirs[3], TargetDirs[3]);
    } else if k == 1 {
      NoOccurrenceUnchanged(f, SourceDirs[0], TargetDirs[0]);
      NoOccurrenceUnchanged(g, SourceDirs[2], TargetDirs[2]);
      NoOccurrenceUnchanged(g, SourceDirs[3], TargetDirs[3]);
    } else if k == 2 {
      NoOccurrenceUnchanged(f, SourceDirs[0], TargetDirs[0]);
      NoOccurrenceUnchanged(f, SourceDirs[1], TargetDirs[1]);
      NoOccurrenceUnchanged(g, SourceDirs[3], TargetDirs[3]);
    } else {
      NoOccurrenceUnchanged(f, SourceDirs[0], TargetDirs[0]);
      NoOccurrenceUnchanged(f, SourceDirs[1], TargetDirs[1]);
      NoOccurrenceUnchanged(f, SourceDirs[2], TargetDirs[2]);
    }
  }

  /**
   * The two test pages of mozilla-central translate to the two names whose
   * content is patched. A page under the standalone directory's own
   * `test/shared/` lands on the second name too, so it is patched as well.
   */
  lemma TestPagesNeedTranslation()
    ensures TranslateFilename(TestStandaloneDir + "index.html") == "test/standalone/index.html"
    ensures TranslateFilename(TestSharedDir + "index.html") == "test/shared/index.html"
    ensures TranslateFilename(StandaloneDir + "test/shared/index.html") == "test/shared/index.html"
    ensures TestFileNeedsTranslation("test/standalone/index.html")
    ensures TestFileNeedsTranslation("test/shared/index.html")
  {
    IndexHasNoSourceDir();
    assert TranslateFilename(TestStandaloneDir + "index.html") == "test/standalone/index.html" by {
      TranslateMovesDirectory(2, "index.html");
      assert TargetDirs[2] + "index.html" == "test/standalone/index.html";
    }
    assert TranslateFilename(TestSharedDir + "index.html") == "test/shared/index.html" by {
      TranslateMovesDirectory(3, "index.html");
      assert TargetDirs[3] + "index.html" == "test/shared/index.html";
    }
    assert TranslateFilename(StandaloneDir + "test/shared/index.html") == "test/shared/index.html" by {
      TranslateMovesDirectory(0, "test/shared/index.html");
      assert TargetDirs[0] + "test/shared/index.html" == "test/shared/index.html";
    }
  }

  lemma IndexHasNoSourceDir()
    ensures NoSourceDir("index.html")
    ensures NoSourceDir("test/shared/index.html")
  {
  }

  /**
   * Patching a test page replaces the leftmost occurrences of the standalone
   * script path and nothing else: the page splits into pieces free of that
   * path which, joined by it, give back the page and, joined by the
   * flattened path, give the patched page.
   */
  lemma TranslateTestFileReplacesOnlyScriptRefs(content: string)
    ensures var pieces := Split(content, StandaloneScriptRef);
      LeftmostPieces(pieces, StandaloneScriptRef) &&
      Join(pieces, StandaloneScriptRef) == content &&
      Join(pieces, FlattenedScriptRef) == TranslateTestFile(content)
  {
    SplitLeftmost(content, StandaloneScriptRef);
    SplitJoin(content, StandaloneScriptRef);
    JoinSplit(content, StandaloneScriptRef, FlattenedScriptRef);
  }

  /** A page without the standalone script path is written out unchanged. */
  lemma TranslateTestFileWithoutRefs(content: string)
    requires !Contains(content, StandaloneScriptRef)
    ensures TranslateTestFile(content) == content
  {
    NoOccurrenceUnchanged(content, StandaloneScriptRef, FlattenedScriptRef);
  }

  // ---------------------------------------------------------------------------
  // Changesets and the effects of porting one
  // ---------------------------------------------------------------------------

  /** A Mercurial timestamp: seconds since the epoch and the zone offset in seconds. */
  datatype HgDate = HgDate(unixtime: int, tzoffset: int)

  /**
   * A mozilla-central changeset: `files` lists the paths it touches,
   * `contents` holds the data of those it did not delete
   * (`cset[filename]` fails exactly for the paths missing from it).
   */
  datatype Changeset = Changeset(
    hex: string, user: string, date: HgDate, description: string,
    files: seq<string>, contents: map<string, string>)

  datatype Signature = Signature(user: string, date: HgDate)

  /** The effects the script has on the working tree and the git repository. */
  datatype Action =
    | WriteFile(path: string, content: string)
    | RemoveFile(path: string)
    | GitAdd(path: string)
    | GitRm(path: string)
    | GitCommit(message: string, signature: Option<Signature>)

  /** The content `writeFile` stores under the translated name `path`. */
  function WrittenContent(path: string, data: string): string
  {
    if TestFileNeedsTranslation(path) then TranslateTestFile(data) else data
  }

  /** What `writeCset` does for one listed file. */
  function FileActions(cset: Changeset, filename: string): seq<Action>
  {
    if !InterestingFilename(filename) then []
    else
      var target := TranslateFilename(filename);
      if filename in cset.contents then
        [WriteFile(target, WrittenContent(target, cset.contents[filename])), GitAdd(target)]
      else
        [RemoveFile(target), GitRm(target)]
  }

  /** What `writeCset` does for the files `fs`, in order. */
  function FilesActions(cset: Changeset, fs: seq<string>): seq<Action>
  {
    if fs == [] then []
    else FilesActions(cset, fs[..|fs| - 1]) + FileActions(cset, fs[|fs| - 1])
  }

  function CsetActions(cset: Changeset): seq<Action>
  {
    FilesActions(cset, cset.files)
  }

  /** Writes every interesting file of `cset` (or deletes it), updating the git index. */
  method WriteCset(cset: Changeset) returns (actions: seq<Action>)
    ensures actions == CsetActions(cset)
  {
    actions := [];
    var i := 0;
    while i < |cset.files|
      invariant 0 <= i <= |cset.files|
      invariant actions == FilesActions(cset, cset.files[..i])
    {
      var filename := cset.files[i];
      if InterestingFilename(filename) {
        var newFilename := TranslateFilename(filename);
        if filename in cset.contents {
          var data := cset.contents[filename];
          var written := if TestFileNeedsTranslation(newFilename) then TranslateTestFile(data) else data;
          actions := actions + [WriteFile(newFilename, written), GitAdd(newFilename)];
        } else {
          actions := actions + [RemoveFile(newFilename), GitRm(newFilename)];
        }
      }
      assert cset.files[..i + 1][..i] == cset.files[..i];
      i := i + 1;
    }
    assert cset.files[..i] == cset.files;
  }

  function PathOf(a: Action): string
    requires !a.GitCommit?
  {
    match a
    case WriteFile(p, _) => p
    case RemoveFile(p) => p
    case GitAdd(p) => p
    case GitRm(p) => p
  }

  /**
   * Every action of `writeCset` belongs to one interesting file of the
   * changeset and uses its translated name; a write or add only for a file
   * that is present, a removal only for one that is not; never a commit.
   */
  lemma {:induction false} FilesActionsFromInterestingFiles(cset: Changeset, fs: seq<string>)
    ensures forall a :: a in FilesActions(cset, fs) ==>
      !a.GitCommit? &&
      exists k :: 0 <= k < |fs| && InterestingFilename(fs[k]) &&
        PathOf(a) == TranslateFilename(fs[k]) &&
        ((a.WriteFile? || a.GitAdd?) <==> fs[k] in cset.contents)
  {
    if fs != [] {
      var init := fs[..|fs| - 1];
      FilesActionsFromInterestingFiles(cset, init);
      forall a | a in FilesActions(cset, fs)
        ensures !a.GitCommit? &&
          exists k :: 0 <= k < |fs| && InterestingFilename(fs[k]) &&
            PathOf(a) == TranslateFilename(fs[k]) &&
            ((a.WriteFile? || a.GitAdd?) <==> fs[k] in cset.contents)
      {
        if a in FilesActions(cset, init) {
          var k :| 0 <= k < |init| && InterestingFilename(init[k]) &&
            PathOf(a) == TranslateFilename(init[k]) &&
            ((a.WriteFile? || a.GitAdd?) <==> init[k] in cset.contents);
          assert fs[k] == init[k];
        } else {
          assert a in FileActions(cset, fs[|fs| - 1]);
        }
      }
    }
  }

  /**
   * Every interesting file of `cset` is written and added when present,
   * removed and `git rm`-ed when absent, under its translated name.
   */
  lemma {:induction false} FilesActionsCoverInterestingFiles(cset: Changeset, fs: seq<string>, k: nat)
    requires k < |fs| && InterestingFilename(fs[k])
    ensures var target := TranslateFilename(fs[k]);
      if fs[k] in cset.contents then
        WriteFile(target, WrittenContent(target, cset.contents[fs[k]])) in FilesActions(cset, fs) &&
        GitAdd(target) in FilesActions(cset, fs)
      else
        RemoveFile(target) in FilesActions(cset, fs) && GitRm(target) in FilesActions(cset, fs)
  {
    if k < |fs| - 1 {
      FilesActionsCoverInterestingFiles(cset, fs[..|fs| - 1], k);
    }
  }

  /** `writeCset` does something exactly when some file of the changeset is interesting. */
  lemma {:induction false} FilesActionsEmpty(cset: Changeset, fs: seq<string>)
    ensures FilesActions(cset, fs) == [] <==>
      forall k :: 0 <= k < |fs| ==> !InterestingFilename(fs[k])
  {
    if fs != [] {
      var init := fs[..|fs| - 1];
      FilesActionsEmpty(cset, init);
      assert forall k :: 0 <= k < |init| ==> init[k] == fs[k];
    }
  }

  // ---------------------------------------------------------------------------
  // Choosing and porting the changesets of a revision range
  // ---------------------------------------------------------------------------

  /** The description mentions "merge" in any capitalisation (ASCII `lower()`). */
  predicate IsMerge(cset: Changeset)
  {
    Contains(Lower(cset.description), "merge")
  }

  /** Some file of the changeset is interesting to Loop. */
  predicate AffectsLoop(cset: Changeset)
  {
    exists k :: 0 <= k < |cset.files| && InterestingFilename(cset.files[k])
  }

  /** The changeset is written and committed. */
  predicate Ported(cset: Changeset)
  {
    !IsMerge(cset) && AffectsLoop(cset)
  }

  /** The git commit that records a ported changeset, with its author and date. */
  function CommitAction(cset: Changeset): Action
  {
    GitCommit(cset.description + "\nmozilla-central hg revision: " + cset.hex,
              Some(Signature(cset.user, cset.date)))
  }

  const LatestRevCommitMessage: string := "update latest merged cset file"

  /** `writeLatestRev`: store the changeset id, add the file and commit it. */
  function LatestRevActions(cset: Changeset): seq<Action>
  {
    [WriteFile(LatestRevFile, cset.hex + "\n"), GitAdd(LatestRevFile),
     GitCommit(LatestRevCommitMessage, None)]
  }

  /** The log entries the loop produces for one visited changeset. */
  function PortActions(cset: Changeset): seq<Action>
  {
    if Ported(cset) then CsetActions(cset) + [CommitAction(cset)] else []
  }

  /** The log of visiting the revisions `lo` up to, but not including, `hi`, in order. */
  function RangeActions(repo: seq<Changeset>, lo: nat, hi: nat): seq<Action>
    requires hi <= |repo|
    decreases hi
  {
    if hi <= lo then [] else RangeActions(repo, lo, hi - 1) + PortActions(repo[hi - 1])
  }

  /** Some changeset among revisions `lo` .. `hi` - 1 is ported. */
  predicate AnyPorted(repo: seq<Changeset>, lo: nat, hi: nat)
    requires hi <= |repo|
  {
    exists i :: lo <= i < hi && Ported(repo[i])
  }

  /** Visiting one more revision appends what porting it does. */
  lemma RangeActionsStep(repo: seq<Changeset>, lo: nat, hi: nat)
    requires lo <= hi < |repo|
    ensures RangeActions(repo, lo, hi + 1) == RangeActions(repo, lo, hi) + PortActions(repo[hi])
  {
  }

  /** One more revision ports something exactly when it is itself ported or an earlier one was. */
  lemma AnyPortedStep(repo: seq<Changeset>, lo: nat, hi: nat)
    requires hi < |repo|
    ensures AnyPorted(repo, lo, hi + 1) <==> AnyPorted(repo, lo, hi) || (lo <= hi && Ported(repo[hi]))
  {
    if AnyPorted(repo, lo, hi + 1) && !(lo <= hi && Ported(repo[hi])) {
      var i :| lo <= i < hi + 1 && Ported(repo[i]);
      assert i < hi;
    }
  }

  /** One turn of the loop extends the log and the ported-anything flag by one revision. */
  lemma VisitExtendsRange(repo: seq<Changeset>, lo: nat, i: nat, log: seq<Action>, committed: bool,
                          visit: seq<Action>, ported: bool)
    requires lo <= i < |repo|
    requires log == RangeActions(repo, lo, i) && (committed <==> AnyPorted(repo, lo, i))
    requires visit == PortActions(repo[i]) && (ported <==> Ported(repo[i]))
    ensures log + visit == RangeActions(repo, lo, i + 1)
    ensures committed || ported <==> AnyPorted(repo, lo, i + 1)
  {
    AnyPortedStep(repo, lo, i);
    RangeActionsStep(repo, lo, i);
  }

  /** The whole log of one run of the script over revisions `lo` .. `hi` - 1. */
  function ImportActions(repo: seq<Changeset>, lo: nat, hi: nat): seq<Action>
    requires hi <= |repo|
  {
    RangeActions(repo, lo, hi) +
    (if AnyPorted(repo, lo, hi) then LatestRevActions(repo[hi - 1]) else [])
  }

  /** A range in which nothing is ported leaves nothing in the log. */
  lemma {:induction false} RangeActionsNothingPorted(repo: seq<Changeset>, lo: nat, hi: nat)
    requires hi <= |repo| && !AnyPorted(repo, lo, hi)
    ensures RangeActions(repo, lo, hi) == []
    decreases hi
  {
    if hi > lo {
      AnyPortedStep(repo, lo, hi - 1);
      RangeActionsNothingPorted(repo, lo, hi - 1);
    }
  }

  /**
   * A run leaves anything in the log, the latest-revision file included,
   * exactly when it ported some changeset.
   */
  lemma ImportActionsEmpty(repo: seq<Changeset>, lo: nat, hi: nat)
    requires hi <= |repo|
    ensures ImportActions(repo, lo, hi) == [] <==> !AnyPorted(repo, lo, hi)
  {
    if !AnyPorted(repo, lo, hi) {
      RangeActionsNothingPorted(repo, lo, hi);
    }
  }

  /** The inner loop of the script: look for an interesting file, stopping at the first. */
  method ScanForInterestingFile(cset: Changeset) returns (affectsLoop: bool)
    ensures affectsLoop <==> AffectsLoop(cset)
  {
    affectsLoop := false;
    var j := 0;
    while j < |cset.files|
      invariant 0 <= j <= |cset.files|
      invariant forall k :: 0 <= k < j ==> !InterestingFilename(cset.files[k])
    {
      if InterestingFilename(cset.files[j]) {
        affectsLoop := true;
        break;
      }
      j := j + 1;
    }
  }

  /**
   * One turn of the changeset-selection loop: skip a merge, otherwise look for
   * an interesting file and, when there is one, write and commit the changeset.
   */
  method VisitChangeset(cset: Changeset) returns (visit: seq<Action>, ported: bool)
    ensures ported <==> Ported(cset)
    ensures visit == PortActions(cset)
  {
    visit := [];
    ported := false;
    if !IsMerge(cset) {
      var affectsLoop := ScanForInterestingFile(cset);
      if affectsLoop {
        var written := WriteCset(cset);
        visit := written + [CommitAction(cset)];
        ported := true;
      }
    }
  }

  /**
   * The changeset-selection loop of the script: visits revisions `firstRev`
   * up to, not including, `lastRev`; skips merges; ports a changeset when one
   * of its files is interesting; remembers the last changeset visited and, when
   * anything was committed, records it in the latest-revision file.
   */
  method Import(repo: seq<Changeset>, firstRev: nat, lastRev: nat)
    returns (log: seq<Action>, lastCset: Option<Changeset>, committedFiles: bool)
    requires firstRev < |repo| && lastRev < |repo|
    ensures log == ImportActions(repo, firstRev, lastRev)
    ensures committedFiles <==> AnyPorted(repo, firstRev, lastRev)
    ensures lastCset == if firstRev < lastRev then Some(repo[lastRev - 1]) else None
  {
    log := [];
    lastCset := None;
    committedFiles := false;
    var i := firstRev;
    while i < lastRev
      invariant firstRev <= i && (i <= lastRev || i == firstRev)
      invariant log == RangeActions(repo, firstRev, i)
      invariant committedFiles <==> AnyPorted(repo, firstRev, i)
      invariant lastCset == if firstRev < i then Some(repo[i - 1]) else None
    {
      var cset := repo[i];
      lastCset := Some(cset);
      var visit, ported := VisitChangeset(cset);
      VisitExtendsRange(repo, firstRev, i, log, committedFiles, visit, ported);
      if ported {
        committedFiles := true;
      }
      log := log + visit;
      i := i + 1;
    }
    if committedFiles {
      log := log + LatestRevActions(lastCset.value);
    }
  }

  // ---------------------------------------------------------------------------
  // Properties of a run
  // ---------------------------------------------------------------------------

  /** The revisions among `lo` .. `hi` - 1 that a run ports, in the order it visits them. */
  function PortedRevisions(repo: seq<Changeset>, lo: nat, hi: nat): (revs: seq<nat>)
    requires hi <= |repo|
    ensures forall k :: 0 <= k < |revs| ==> lo <= revs[k] < hi
    decreases hi
  {
    if hi <= lo then []
    else PortedRevisions(repo, lo, hi - 1) + (if Ported(repo[hi - 1]) then [hi - 1] else [])
  }

  /** Every revision a run ports qualifies: not a merge, and some file is interesting. */
  lemma PortedRevisionsQualify(repo: seq<Changeset>, lo: nat, hi: nat)
    requires hi <= |repo|
    ensures var revs := PortedRevisions(repo, lo, hi);
      forall k :: 0 <= k < |revs| ==> Ported(repo[revs[k]])
  {
    var revs := PortedRevisions(repo, lo, hi);
    forall k | 0 <= k < |revs| ensures Ported(repo[revs[k]]) {
      PortedRevisionQualifies(repo, lo, hi, k);
    }
  }

  /** The revision at position `k` of the ported list qualifies. */
  lemma {:induction false} PortedRevisionQualifies(repo: seq<Changeset>, lo: nat, hi: nat, k: nat)
    requires hi <= |repo| && k < |PortedRevisions(repo, lo, hi)|
    ensures Ported(repo[PortedRevisions(repo, lo, hi)[k]])
    decreases hi
  {
    var prev := PortedRevisions(repo, lo, hi - 1);
    PortedRevisionsStep(repo, lo, hi);
    if k < |prev| {
      assert PortedRevisions(repo, lo, hi)[k] == prev[k];
      PortedRevisionQualifies(repo, lo, hi - 1, k);
    } else {
      assert PortedRevisions(repo, lo, hi)[k] == hi - 1;
    }
  }

  predicate Increasing(revs: seq<nat>)
  {
    forall k, l :: 0 <= k < l < |revs| ==> revs[k] < revs[l]
  }

  lemma IncreasingSnoc(revs: seq<nat>, r: nat)
    requires Increasing(revs) && forall k :: 0 <= k < |revs| ==> revs[k] < r
    ensures Increasing(revs + [r])
  {
  }

  /** A run ports changesets in increasing revision order. */
  lemma {:induction false} PortedRevisionsIncreasing(repo: seq<Changeset>, lo: nat, hi: nat)
    requires hi <= |repo|
    ensures Increasing(PortedRevisions(repo, lo, hi))
    decreases hi
  {
    if lo < hi {
      var revs := PortedRevisions(repo, lo, hi - 1);
      PortedRevisionsIncreasing(repo, lo, hi - 1);
      PortedRevisionsStep(repo, lo, hi);
      if Ported(repo[hi - 1]) {
        assert forall k :: 0 <= k < |revs| ==> revs[k] < hi - 1;
        IncreasingSnoc(revs, hi - 1);
      }
    }
  }

  /** Every changeset of the range that qualifies is ported. */
  lemma {:induction false} PortedRevisionsComplete(repo: seq<Changeset>, lo: nat, hi: nat, r: nat)
    requires hi <= |repo| && lo <= r < hi && Ported(repo[r])
    ensures r in PortedRevisions(repo, lo, hi)
    decreases hi
  {
    if r < hi - 1 {
      PortedRevisionsComplete(repo, lo, hi - 1, r);
    }
  }

  /** The git commits of a log, in order. */
  function CommitsOf(log: seq<Action>): seq<Action>
  {
    if log == [] then []
    else CommitsOf(log[..|log| - 1]) + (if log[|log| - 1].GitCommit? then [log[|log| - 1]] else [])
  }

  lemma {:induction false} CommitsOfAppend(a: seq<Action>, b: seq<Action>)
    ensures CommitsOf(a + b) == CommitsOf(a) + CommitsOf(b)
    decreases |b|
  {
    if b != [] {
      var b' := b[..|b| - 1];
      assert (a + b)[..|a + b| - 1] == a + b';
      CommitsOfAppend(a, b');
    } else {
      assert a + b == a;
    }
  }

  lemma {:induction false} CommitsOfNone(log: seq<Action>)
    requires forall a :: a in log ==> !a.GitCommit?
    ensures CommitsOf(log) == []
  {
    if log != [] {
      assert forall a :: a in log[..|log| - 1] ==> a in log;
      CommitsOfNone(log[..|log| - 1]);
    }
  }

  /** The commits made for the given revisions, one per revision, in order. */
  function CommitsFor(repo: seq<Changeset>, revs: seq<nat>): seq<Action>
    requires forall k :: 0 <= k < |revs| ==> revs[k] < |repo|
  {
    if revs == [] then []
    else CommitsFor(repo, revs[..|revs| - 1]) + [CommitAction(repo[revs[|revs| - 1]])]
  }

  /** `CommitsFor` lists, position by position, the commit of each revision. */
  lemma {:induction false} CommitsForElements(repo: seq<Changeset>, revs: seq<nat>)
    requires forall k :: 0 <= k < |revs| ==> revs[k] < |repo|
    ensures |CommitsFor(repo, revs)| == |revs|
    ensures forall k :: 0 <= k < |revs| ==> CommitsFor(repo, revs)[k] == CommitAction(repo[revs[k]])
  {
    if revs != [] {
      CommitsForElements(repo, revs[..|revs| - 1]);
    }
  }

  lemma CommitsOfSingle(a: Action)
    ensures CommitsOf([a]) == if a.GitCommit? then [a] else []
  {
    assert [a][..0] == [];
  }

  /** Visiting one changeset commits once if it is ported, and not at all otherwise. */
  lemma PortCommits(cset: Changeset)
    ensures CommitsOf(PortActions(cset)) == if Ported(cset) then [CommitAction(cset)] else []
  {
    if Ported(cset) {
      FilesActionsFromInterestingFiles(cset, cset.files);
      CommitsOfNone(CsetActions(cset));
      CommitsOfAppend(CsetActions(cset), [CommitAction(cset)]);
      CommitsOfSingle(CommitAction(cset));
    }
  }

  /** The commits of visiting a range are those of its ported changesets, in revision order. */
  lemma RangeCommits(repo: seq<Changeset>, lo: nat, hi: nat)
    requires hi <= |repo|
    ensures CommitsOf(RangeActions(repo, lo, hi)) == CommitsFor(repo, PortedRevisions(repo, lo, hi))
  {
    RangeLogCommits(repo, lo, hi);
    PortedCommitsFor(repo, lo, hi);
  }

  /** The commits of the changesets among `lo` .. `hi` - 1 that are ported, in revision order. */
  function PortedCommits(repo: seq<Changeset>, lo: nat, hi: nat): seq<Action>
    requires hi <= |repo|
    decreases hi
  {
    if hi <= lo then []
    else PortedCommits(repo, lo, hi - 1) + (if Ported(repo[hi - 1]) then [CommitAction(repo[hi - 1])] else [])
  }

  /** The commits found in the log of a range are those of its ported changesets. */
  lemma {:induction false} RangeLogCommits(repo: seq<Changeset>, lo: nat, hi: nat)
    requires hi <= |repo|
    ensures CommitsOf(RangeActions(repo, lo, hi)) == PortedCommits(repo, lo, hi)
    decreases hi
  {
    if lo < hi {
      RangeLogCommits(repo, lo, hi - 1);
      PortCommits(repo[hi - 1]);
      CommitsOfAppend(RangeActions(repo, lo, hi - 1), PortActions(repo[hi - 1]));
    }
  }

  /** Listing the commits while walking the range equals listing them per ported revision. */
  lemma {:induction false} PortedCommitsFor(repo: seq<Changeset>, lo: nat, hi: nat)
    requires hi <= |repo|
    ensures PortedCommits(repo, lo, hi) == CommitsFor(repo, PortedRevisions(repo, lo, hi))
    decreases hi
  {
    if lo < hi {
      var revs := PortedRevisions(repo, lo, hi - 1);
      PortedCommitsFor(repo, lo, hi - 1);
      PortedRevisionsStep(repo, lo, hi);
      PortedCommitsStep(repo, lo, hi);
      if Ported(repo[hi - 1]) {
        CommitsForAppend(repo, revs, hi - 1);
      }
    }
  }

  lemma PortedCommitsStep(repo: seq<Changeset>, lo: nat, hi: nat)
    requires lo < hi <= |repo|
    ensures PortedCommits(repo, lo, hi) ==
      if Ported(repo[hi - 1]) then PortedCommits(repo, lo, hi - 1) + [CommitAction(repo[hi - 1])]
      else PortedCommits(repo, lo, hi - 1)
  {
    assert PortedCommits(repo, lo, hi - 1) + [] == PortedCommits(repo, lo, hi - 1);
  }

  lemma PortedRevisionsStep(repo: seq<Changeset>, lo: nat, hi: nat)
    requires lo < hi <= |repo|
    ensures PortedRevisions(repo, lo, hi) ==
      if Ported(repo[hi - 1]) then PortedRevisions(repo, lo, hi - 1) + [hi - 1]
      else PortedRevisions(repo, lo, hi - 1)
  {
    assert PortedRevisions(repo, lo, hi - 1) + [] == PortedRevisions(repo, lo, hi - 1);
  }

  lemma CommitsForAppend(repo: seq<Changeset>, revs: seq<nat>, r: nat)
    requires forall k :: 0 <= k < |revs| ==> revs[k] < |repo|
    requires r < |repo|
    ensures CommitsFor(repo, revs + [r]) == CommitsFor(repo, revs) + [CommitAction(repo[r])]
  {
    assert (revs + [r])[..|revs|] == revs;
  }

  /** Recording the latest revision makes exactly one commit, with the fixed message. */
  lemma LatestRevCommits(cset: Changeset)
    ensures CommitsOf(LatestRevActions(cset)) == [GitCommit(LatestRevCommitMessage, None)]
  {
    var latest := LatestRevActions(cset);
    assert latest == [latest[0]] + [latest[1]] + [latest[2]];
    CommitsOfSingle(latest[0]);
    CommitsOfSingle(latest[1]);
    CommitsOfSingle(latest[2]);
    CommitsOfAppend([latest[0]], [latest[1]]);
    CommitsOfAppend([latest[0]] + [latest[1]], [latest[2]]);
  }

  /**
   * The commits of a whole run: one per ported changeset, in revision order,
   * then the commit of the latest-revision file exactly when something was ported.
   */
  lemma ImportCommits(repo: seq<Changeset>, lo: nat, hi: nat)
    requires hi <= |repo|
    ensures AnyPorted(repo, lo, hi) <==> |PortedRevisions(repo, lo, hi)| > 0
    ensures CommitsOf(ImportActions(repo, lo, hi)) ==
      CommitsFor(repo, PortedRevisions(repo, lo, hi)) +
      (if AnyPorted(repo, lo, hi) then [GitCommit(LatestRevCommitMessage, None)] else [])
  {
    var revs := PortedRevisions(repo, lo, hi);
    if AnyPorted(repo, lo, hi) {
      var r :| lo <= r < hi && Ported(repo[r]);
      PortedRevisionsComplete(repo, lo, hi, r);
      CommitsOfAppend(RangeActions(repo, lo, hi), LatestRevActions(repo[hi - 1]));
      LatestRevCommits(repo[hi - 1]);
    } else {
      assert RangeActions(repo, lo, hi) + [] == RangeActions(repo, lo, hi);
    }
    RangeCommits(repo, lo, hi);
  }

  /** A commit made for a ported changeset names it and keeps its author and date. */
  lemma CommitNamesChangeset(cset: Changeset)
    ensures var c := CommitAction(cset);
      c.GitCommit? && c.signature == Some(Signature(cset.user, cset.date)) &&
      cset.description <= c.message && Contains(c.message, cset.hex)
  {
    var c := CommitAction(cset);
    var n := |cset.description + "\nmozilla-central hg revision: "|;
    assert c.message[n..n + |cset.hex|] == cset.hex;
    assert OccursAt(c.message, cset.hex, n);
  }

  /** Merges are skipped whatever the capitalisation of "merge" in the description. */
  lemma MergesAreSkipped(cset: Changeset, word: string)
    requires Contains(cset.description, word) && Lower(word) == "merge"
    ensures IsMerge(cset) && !Ported(cset)
  {
    ContainsLower(cset.description, word);
  }

  /** The log of a range is the log of its first part followed by the log of the rest. */
  lemma {:induction false} RangeActionsSplit(repo: seq<Changeset>, lo: nat, mid: nat, hi: nat)
    requires lo <= mid <= hi <= |repo|
    ensures RangeActions(repo, lo, hi) == RangeActions(repo, lo, mid) + RangeActions(repo, mid, hi)
    decreases hi
  {
    if mid < hi {
      RangeActionsSplit(repo, lo, mid, hi - 1);
      RangeActionsLast(repo, lo, hi);
      RangeActionsLast(repo, mid, hi);
      AppendRegroup(RangeActions(repo, lo, hi), RangeActions(repo, lo, hi - 1),
                    RangeActions(repo, lo, mid), RangeActions(repo, mid, hi - 1), PortActions(repo[hi - 1]));
    } else {
      assert RangeActions(repo, mid, hi) == [];
    }
  }

  /** `RangeActionsStep` seen from the end of the range: the last revision's log comes last. */
  lemma RangeActionsLast(repo: seq<Changeset>, lo: nat, hi: nat)
    requires lo < hi <= |repo|
    ensures RangeActions(repo, lo, hi) == RangeActions(repo, lo, hi - 1) + PortActions(repo[hi - 1])
  {
  }

  lemma AppendRegroup(x: seq<Action>, y: seq<Action>, a: seq<Action>, b: seq<Action>, c: seq<Action>)
    requires x == y + c && y == a + b
    ensures x == a + (b + c)
  {
  }

  /**
   * The changeset recorded in the latest-revision file (see `LatestRevRecorded`)
   * is visited again by the next run, which starts from that revision inclusive:
   * if it was ported, its writes and its commit are issued again, first thing.
   */
  lemma RecordedChangesetIsRevisited(repo: seq<Changeset>, lo: nat, last: nat, next: nat)
    requires lo <= last < next <= |repo| && Ported(repo[last])
    ensures last in PortedRevisions(repo, lo, last + 1) && last in PortedRevisions(repo, last, next)
    ensures CsetActions(repo[last]) + [CommitAction(repo[last])] <= ImportActions(repo, last, next)
  {
    PortedRevisionsComplete(repo, lo, last + 1, last);
    PortedRevisionsComplete(repo, last, next, last);
    RangeActionsSplit(repo, last, last + 1, next);
    RangeActionsSingle(repo, last);
    LeadingPart(ImportActions(repo, last, next), RangeActions(repo, last, next),
                PortActions(repo[last]), RangeActions(repo, last + 1, next),
                if AnyPorted(repo, last, next) then LatestRevActions(repo[next - 1]) else []);
  }

  /**
   * When the recorded changeset deleted an interesting file, the run that
   * ported it removed that file, and the next run removes it once more:
   * the same removal heads its log again.
   */
  lemma RevisitRemovesAgain(repo: seq<Changeset>, lo: nat, last: nat, next: nat, k: nat)
    requires lo <= last < next <= |repo| && Ported(repo[last])
    requires k < |repo[last].files| && InterestingFilename(repo[last].files[k])
    requires repo[last].files[k] !in repo[last].contents
    ensures RemoveFile(TranslateFilename(repo[last].files[k])) in CsetActions(repo[last])
    ensures RemoveFile(TranslateFilename(repo[last].files[k])) in ImportActions(repo, lo, last + 1)
    ensures CsetActions(repo[last]) <= ImportActions(repo, last, next)
  {
    var cset := repo[last];
    var removal := RemoveFile(TranslateFilename(cset.files[k]));
    FilesActionsCoverInterestingFiles(cset, cset.files, k);
    RecordedChangesetIsRevisited(repo, lo, last, next);
    RangeActionsLast(repo, lo, last + 1);
    var visit := CsetActions(cset) + [CommitAction(cset)];
    assert PortActions(cset) == visit;
    assert removal in visit;
    var earlier := RangeActions(repo, lo, last);
    var latest := if AnyPorted(repo, lo, last + 1) then LatestRevActions(repo[last]) else [];
    assert ImportActions(repo, lo, last + 1) == (earlier + visit) + latest;
    assert removal in (earlier + visit) + latest;
    assert CsetActions(cset) <= visit;
  }

  /** The log of a range of one revision is the log of visiting it. */
  lemma RangeActionsSingle(repo: seq<Changeset>, r: nat)
    requires r < |repo|
    ensures RangeActions(repo, r, r + 1) == PortActions(repo[r])
  {
    RangeActionsStep(repo, r, r);
    assert RangeActions(repo, r, r) == [];
  }

  lemma LeadingPart(x: seq<Action>, y: seq<Action>, p: seq<Action>, q: seq<Action>, t: seq<Action>)
    requires x == y + t && y == p + q
    ensures p <= x
  {
    assert x[..|p|] == p;
  }

  /** A run that ported something ends by writing the last visited changeset's id. */
  lemma LatestRevRecorded(repo: seq<Changeset>, lo: nat, hi: nat)
    requires lo < hi <= |repo| && AnyPorted(repo, lo, hi)
    ensures |ImportActions(repo, lo, hi)| >= 3
    ensures ImportActions(repo, lo, hi)[|ImportActions(repo, lo, hi)| - 3] ==
      WriteFile(LatestRevFile, repo[hi - 1].hex + "\n")
  {
    var range := RangeActions(repo, lo, hi);
    var latest := LatestRevActions(repo[hi - 1]);
    assert ImportActions(repo, lo, hi) == range + latest;
    assert (range + latest)[|range| + 0] == latest[0];
  }
}
