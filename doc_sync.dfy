/** The doc-sync checker: every required directory has a README.md, every
    script path an ADR mentions in backticks exists, and the exit code is 1
    exactly when some check reported an error. File and directory existence
    are the predicates `isFile` and `isDir` on paths relative to the
    repository root; the ADR texts are given in the order the directory
    listing yields them. */
module DocSync {
  import opened StringOrder
  import opened ScriptScanner

  const RequiredReadmeDirs: seq<string> := ["./", "ISA_SuperApp/", "frontend/", "scripts/", "docs/"]
  const AdrDir: string := "docs/ADR"

  const ReadmeErrorPrefix: string := "Missing README.md in directory: "
  const ScriptErrorPrefix: string := "Script mentioned in ADR does not exist: "

  function ReadmePath(dir: string): string {
    dir + "README.md"
  }

  // ---------------------------------------------------------------------
  // README presence
  // ---------------------------------------------------------------------

  /** One error per directory without a README, in the directories' order. */
  function ReadmeErrors(dirs: seq<string>, isFile: string -> bool): seq<string> {
    if dirs == [] then []
    else
      var dir := dirs[|dirs| - 1];
      ReadmeErrors(dirs[..|dirs| - 1], isFile) + (if isFile(ReadmePath(dir)) then [] else [ReadmeErrorPrefix + dir])
  }

  /** `check_readme_existence`. */
  method CheckReadmeExistence(isFile: string -> bool) returns (errors: seq<string>)
    ensures errors == ReadmeErrors(RequiredReadmeDirs, isFile)
  {
    errors := [];
    var dirs := RequiredReadmeDirs;
    for i := 0 to |dirs|
      invariant errors == ReadmeErrors(dirs[..i], isFile)
    {
      if !isFile(ReadmePath(dirs[i])) {
        errors := errors + [ReadmeErrorPrefix + dirs[i]];
      }
      assert dirs[..i + 1][..i] == dirs[..i];
    }
    assert dirs[..|dirs|] == dirs;
  }

  lemma PrefixInjective(prefix: string, a: string, b: string)
    requires prefix + a == prefix + b
    ensures a == b
  {
    assert a == (prefix + a)[|prefix|..];
    assert b == (prefix + b)[|prefix|..];
  }

  /** How many of the listed directories lack a README, counted from the
      front of the list. */
  function MissingCount(dirs: seq<string>, isFile: string -> bool): nat {
    if dirs == [] then 0
    else (if isFile(ReadmePath(dirs[0])) then 0 else 1) + MissingCount(dirs[1..], isFile)
  }

  lemma {:induction false} MissingCountSnoc(init: seq<string>, dir: string, isFile: string -> bool)
    ensures MissingCount(init + [dir], isFile) == MissingCount(init, isFile) + (if isFile(ReadmePath(dir)) then 0 else 1)
    decreases |init|
  {
    if init == [] {
      assert [] + [dir] == [dir];
    } else {
      assert (init + [dir])[1..] == init[1..] + [dir];
      MissingCountSnoc(init[1..], dir, isFile);
    }
  }

  /** The README errors name exactly the directories without a README, one
      error for each such directory, and there are no more of them than
      directories. */
  lemma {:induction false} ReadmeErrorsExact(dirs: seq<string>, isFile: string -> bool)
    ensures |ReadmeErrors(dirs, isFile)| == MissingCount(dirs, isFile) <= |dirs|
    ensures forall d :: ReadmeErrorPrefix + d in ReadmeErrors(dirs, isFile) <==> d in dirs && !isFile(ReadmePath(d))
    ensures forall e :: e in ReadmeErrors(dirs, isFile) ==> exists d :: d in dirs && e == ReadmeErrorPrefix + d
    decreases |dirs|
  {
    if dirs != [] {
      var init, dir := dirs[..|dirs| - 1], dirs[|dirs| - 1];
      ReadmeErrorsExact(init, isFile);
      assert dirs == init + [dir];
      MissingCountSnoc(init, dir, isFile);
      forall d | ReadmeErrorPrefix + d in ReadmeErrors(dirs, isFile)
        ensures d in dirs && !isFile(ReadmePath(d))
      {
        if ReadmeErrorPrefix + d == ReadmeErrorPrefix + dir {
          PrefixInjective(ReadmeErrorPrefix, d, dir);
        }
      }
    }
  }

  /** List order: the errors for the first `i` directories are the first
      errors reported. */
  lemma {:induction false} ReadmeErrorsInListOrder(dirs: seq<string>, isFile: string -> bool, i: nat)
    requires i <= |dirs|
    ensures ReadmeErrors(dirs[..i], isFile) <= ReadmeErrors(dirs, isFile)
    decreases |dirs| - i
  {
    if i < |dirs| {
      ReadmeErrorsInListOrder(dirs, isFile, i + 1);
      assert dirs[..i + 1][..i] == dirs[..i];
    } else {
      assert dirs[..i] == dirs;
    }
  }

  /** At most one error per required directory: never more than five. */
  lemma AtMostFiveReadmeErrors(isFile: string -> bool)
    ensures |ReadmeErrors(RequiredReadmeDirs, isFile)| <= 5
  {
    ReadmeErrorsExact(RequiredReadmeDirs, isFile);
  }

  // ---------------------------------------------------------------------
  // Script references in ADRs
  // ---------------------------------------------------------------------

  function Elements(xs: seq<string>): set<string> {
    set j | 0 <= j < |xs| :: xs[j]
  }

  /** The set of script paths found in a list of ADR texts. */
  function ReferencesIn(docs: seq<string>): set<string> {
    if docs == [] then {}
    else ReferencesIn(docs[..|docs| - 1]) + Elements(FindAll(docs[|docs| - 1]))
  }

  /** `find_script_references_in_adrs`: nothing when the ADR directory is
      missing, otherwise every match of every ADR text, collected in a set. */
  method FindScriptReferencesInAdrs(adrDir: string, isDir: string -> bool, adrDocs: seq<string>)
    returns (refs: set<string>)
    ensures refs == if isDir(adrDir) then ReferencesIn(adrDocs) else {}
  {
    refs := {};
    if !isDir(adrDir) {
      return;
    }
    for i := 0 to |adrDocs|
      invariant refs == ReferencesIn(adrDocs[..i])
    {
      var matches := FindAll(adrDocs[i]);
      for j := 0 to |matches|
        invariant refs == ReferencesIn(adrDocs[..i]) + Elements(matches[..j])
      {
        ElementsStep(matches, j);
        refs := refs + {matches[j]};
      }
      assert matches[..|matches|] == matches;
      ReferencesInStep(adrDocs, i);
    }
    assert adrDocs[..|adrDocs|] == adrDocs;
  }

  lemma ElementsStep(xs: seq<string>, j: nat)
    requires j < |xs|
    ensures Elements(xs[..j + 1]) == Elements(xs[..j]) + {xs[j]}
  {
    assert forall q :: 0 <= q < j ==> xs[..j + 1][q] == xs[..j][q];
  }

  lemma ReferencesInStep(docs: seq<string>, i: nat)
    requires i < |docs|
    ensures ReferencesIn(docs[..i + 1]) == ReferencesIn(docs[..i]) + Elements(FindAll(docs[i]))
  {
    assert docs[..i + 1][..i] == docs[..i];
  }

  /** A path is referenced exactly when some ADR text contains it as a
      match, however many times and in however many texts. */
  lemma {:induction false} ReferencesInExact(docs: seq<string>, r: string)
    ensures r in ReferencesIn(docs) <==> exists j :: 0 <= j < |docs| && r in FindAll(docs[j])
    decreases |docs|
  {
    if docs != [] {
      var init := docs[..|docs| - 1];
      ReferencesInExact(init, r);
      if exists j :: 0 <= j < |init| && r in FindAll(init[j]) {
        var j :| 0 <= j < |init| && r in FindAll(init[j]);
        assert docs[j] == init[j];
      }
      if exists j :: 0 <= j < |docs| && r in FindAll(docs[j]) {
        var j :| 0 <= j < |docs| && r in FindAll(docs[j]);
        if j < |init| {
          assert init[j] == docs[j];
        }
      }
    }
  }

  /** Every collected reference is a well-formed script path that stood
      between backticks in some ADR text. */
  lemma ReferencesWellFormed(docs: seq<string>, r: string)
    requires r in ReferencesIn(docs)
    ensures IsScriptPath(r)
    ensures exists j, i :: 0 <= j < |docs| && QuotedAt(docs[j], r, i)
  {
    ReferencesInExact(docs, r);
    var j :| 0 <= j < |docs| && r in FindAll(docs[j]);
    FoundReferenceShape(docs[j], r);
  }

  // ---------------------------------------------------------------------
  // Existence of the referenced scripts
  // ---------------------------------------------------------------------

  /** One error per path that is not a file, in the list's order. */
  function ScriptErrors(paths: seq<string>, isFile: string -> bool): seq<string> {
    if paths == [] then []
    else
      var path := paths[|paths| - 1];
      ScriptErrors(paths[..|paths| - 1], isFile) + (if isFile(path) then [] else [ScriptErrorPrefix + path])
  }

  /** `check_script_existence`: walk the paths in sorted order. */
  method CheckScriptExistence(isFile: string -> bool, scriptPaths: set<string>) returns (errors: seq<string>)
    ensures scriptPaths == {} ==> errors == []
    ensures errors == ScriptErrors(SortedPaths(scriptPaths), isFile)
  {
    errors := [];
    if scriptPaths == {} {
      return;
    }
    var ordered := Sorted(scriptPaths);
    for i := 0 to |ordered|
      invariant errors == ScriptErrors(ordered[..i], isFile)
    {
      if !isFile(ordered[i]) {
        errors := errors + [ScriptErrorPrefix + ordered[i]];
      }
      assert ordered[..i + 1][..i] == ordered[..i];
    }
    assert ordered[..|ordered|] == ordered;
  }

  /** The script errors name exactly the listed paths that are not files. */
  lemma {:induction false} ScriptErrorsExact(paths: seq<string>, isFile: string -> bool)
    ensures |ScriptErrors(paths, isFile)| <= |paths|
    ensures forall p :: ScriptErrorPrefix + p in ScriptErrors(paths, isFile) <==> p in paths && !isFile(p)
    ensures forall e :: e in ScriptErrors(paths, isFile) ==> exists p :: p in paths && e == ScriptErrorPrefix + p
    decreases |paths|
  {
    if paths != [] {
      var init, path := paths[..|paths| - 1], paths[|paths| - 1];
      ScriptErrorsExact(init, isFile);
      assert paths == init + [path];
      forall p | ScriptErrorPrefix + p in ScriptErrors(paths, isFile)
        ensures p in paths && !isFile(p)
      {
        if ScriptErrorPrefix + p == ScriptErrorPrefix + path {
          PrefixInjective(ScriptErrorPrefix, p, path);
        }
      }
    }
  }

  /** Errors for a sorted list of paths come out sorted as well. */
  lemma {:induction false} ScriptErrorsSorted(paths: seq<string>, isFile: string -> bool)
    requires StrictlySorted(paths)
    ensures StrictlySorted(ScriptErrors(paths, isFile))
    decreases |paths|
  {
    if paths != [] {
      var init, path := paths[..|paths| - 1], paths[|paths| - 1];
      var prev := ScriptErrors(init, isFile);
      ScriptErrorsSorted(init, isFile);
      ScriptErrorsExact(init, isFile);
      if !isFile(path) {
        var errs := prev + [ScriptErrorPrefix + path];
        forall a, b | 0 <= a < b < |errs| ensures LexLess(errs[a], errs[b]) {
          if b == |errs| - 1 {
            assert errs[a] in prev;
            var p :| p in init && errs[a] == ScriptErrorPrefix + p;
            var q :| 0 <= q < |init| && init[q] == p;
            assert paths[q] == p;
            LexLessCommonPrefix(ScriptErrorPrefix, p, path);
          }
        }
      }
    }
  }

  /** What the existence check reports for a set of referenced paths: one
      error per missing path and none for an existing one, in ascending path
      order, no more errors than paths. */
  lemma ScriptCheckReport(scriptPaths: set<string>, isFile: string -> bool)
    ensures |ScriptErrors(SortedPaths(scriptPaths), isFile)| <= |scriptPaths|
    ensures forall p :: ScriptErrorPrefix + p in ScriptErrors(SortedPaths(scriptPaths), isFile) <==> p in scriptPaths && !isFile(p)
    ensures StrictlySorted(ScriptErrors(SortedPaths(scriptPaths), isFile))
  {
    var ordered := SortedPaths(scriptPaths);
    SortedPathsSpec(scriptPaths);
    ScriptErrorsExact(ordered, isFile);
    ScriptErrorsSorted(ordered, isFile);
  }

  // ---------------------------------------------------------------------
  // The whole check
  // ---------------------------------------------------------------------

  ghost function AdrReferences(isDir: string -> bool, adrDocs: seq<string>): set<string> {
    if isDir(AdrDir) then ReferencesIn(adrDocs) else {}
  }

  /** README errors first, then script errors. */
  ghost function AllErrors(isFile: string -> bool, isDir: string -> bool, adrDocs: seq<string>): seq<string> {
    ReadmeErrors(RequiredReadmeDirs, isFile) + ScriptErrors(SortedPaths(AdrReferences(isDir, adrDocs)), isFile)
  }

  /** `main`: run both checks and return 1 exactly when there is an error;
      `errors` is the list the checker reports. */
  method CheckDocsSync(isFile: string -> bool, isDir: string -> bool, adrDocs: seq<string>)
    returns (exitCode: int, errors: seq<string>)
    ensures errors == AllErrors(isFile, isDir, adrDocs)
    ensures exitCode == if errors == [] then 0 else 1
  {
    errors := [];
    var readmeErrors := CheckReadmeExistence(isFile);
    errors := errors + readmeErrors;
    assert errors == readmeErrors;
    var scriptRefs := FindScriptReferencesInAdrs(AdrDir, isDir, adrDocs);
    var scriptErrors := CheckScriptExistence(isFile, scriptRefs);
    errors := errors + scriptErrors;
    AllErrorsSplit(isFile, isDir, adrDocs, readmeErrors, scriptRefs, scriptErrors);
    if errors != [] {
      exitCode := 1;
    } else {
      exitCode := 0;
    }
  }

  lemma AllErrorsSplit(isFile: string -> bool, isDir: string -> bool, adrDocs: seq<string>,
                       readmeErrors: seq<string>, scriptRefs: set<string>, scriptErrors: seq<string>)
    requires readmeErrors == ReadmeErrors(RequiredReadmeDirs, isFile)
    requires scriptRefs == if isDir(AdrDir) then ReferencesIn(adrDocs) else {}
    requires scriptErrors == ScriptErrors(SortedPaths(scriptRefs), isFile)
    ensures readmeErrors + scriptErrors == AllErrors(isFile, isDir, adrDocs)
  {
    assert scriptRefs == AdrReferences(isDir, adrDocs);
  }

  /** The check passes exactly when every required README is present and,
      when the ADR directory exists, every script it references exists. */
  lemma DocsSyncPassesIff(isFile: string -> bool, isDir: string -> bool, adrDocs: seq<string>)
    ensures AllErrors(isFile, isDir, adrDocs) == [] <==>
      (forall d :: d in RequiredReadmeDirs ==> isFile(ReadmePath(d)))
      && (isDir(AdrDir) ==> forall r :: r in ReferencesIn(adrDocs) ==> isFile(r))
  {
    var refs := AdrReferences(isDir, adrDocs);
    ReadmeErrorsEmptyIff(RequiredReadmeDirs, isFile);
    SortedPathsSpec(refs);
    ScriptErrorsEmptyIff(SortedPaths(refs), isFile);
  }

  lemma ReadmeErrorsEmptyIff(dirs: seq<string>, isFile: string -> bool)
    ensures ReadmeErrors(dirs, isFile) == [] <==> forall d :: d in dirs ==> isFile(ReadmePath(d))
  {
    var errs := ReadmeErrors(dirs, isFile);
    ReadmeErrorsExact(dirs, isFile);
    if errs != [] {
      assert errs[0] in errs;
      var d :| d in dirs && errs[0] == ReadmeErrorPrefix + d;
      assert !isFile(ReadmePath(d));
    }
  }

  lemma ScriptErrorsEmptyIff(paths: seq<string>, isFile: string -> bool)
    ensures ScriptErrors(paths, isFile) == [] <==> forall p :: p in paths ==> isFile(p)
  {
    var errs := ScriptErrors(paths, isFile);
    ScriptErrorsExact(paths, isFile);
    if errs != [] {
      assert errs[0] in errs;
      var p :| p in paths && errs[0] == ScriptErrorPrefix + p;
      assert !isFile(p);
    }
  }
}
