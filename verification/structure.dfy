/** The structural analyzer: one pass over the tree listing computing the
    maximum path depth, the key files and directories, and the suspicious-file
    warnings, then an existence check for GitHub Actions workflow files and
    the depth issue. */
module Structure {
  import opened Text
  import opened GitTree
  import opened Patterns

  datatype RepoStructure = RepoStructure(
    depth: nat,
    keyFiles: seq<string>,
    keyDirs: seq<string>,
    issues: seq<string>,
    securityWarnings: seq<string>,
    ciTools: seq<string>)

  /** Depths above this produce an issue. */
  const DepthLimit: nat := 10

  const GitHubActions: string := "GitHub Actions"

  /** A file named `README.md` or `package.json` at the root. */
  predicate IsKeyFile(e: Entry) {
    e.kind == Blob && (e.path == "README.md" || e.path == "package.json")
  }

  /** A directory `.github` or `.github/workflows`. */
  predicate IsKeyDir(e: Entry) {
    e.kind == Tree && (e.path == ".github" || e.path == ".github/workflows")
  }

  /** A file whose path matches one of the three suspicious patterns. */
  predicate IsSuspiciousFile(e: Entry) {
    e.kind == Blob && Suspicious(e.path)
  }

  /** A YAML file anywhere below `.github/workflows/`. */
  predicate IsWorkflowFile(e: Entry) {
    && e.kind == Blob
    && StartsWith(e.path, ".github/workflows/")
    && (EndsWith(e.path, ".yml") || EndsWith(e.path, ".yaml"))
  }

  function Warning(path: string): string {
    "Suspicious file detected: " + path
  }

  /** One warning per path, in order. */
  function Warnings(paths: seq<string>): (ws: seq<string>)
    ensures |ws| == |paths|
    ensures forall k :: 0 <= k < |paths| ==> ws[k] == Warning(paths[k])
  {
    seq(|paths|, k requires 0 <= k < |paths| => Warning(paths[k]))
  }

  /** Warning lists concatenate like the path lists they come from. */
  lemma WarningsAppend(a: seq<string>, b: seq<string>)
    ensures Warnings(a + b) == Warnings(a) + Warnings(b)
  {
  }

  function DepthIssue(depth: nat): string {
    "Tree is too deep (" + NatToDecimal(depth) + " levels)"
  }

  /** The accumulators of the per-entry loop. */
  datatype Scan = Scan(maxDepth: nat, keyFiles: seq<string>, keyDirs: seq<string>, warnings: seq<string>)

  /** One iteration of the per-entry loop. */
  function Visit(acc: Scan, item: Entry): Scan {
    var d := Depth(item.path);
    Scan(
      if d > acc.maxDepth then d else acc.maxDepth,
      acc.keyFiles + (if IsKeyFile(item) then [item.path] else []),
      acc.keyDirs + (if IsKeyDir(item) then [item.path] else []),
      acc.warnings + (if IsSuspiciousFile(item) then [Warning(item.path)] else []))
  }

  /** `m` is the maximum depth over the entries of `tree`, or 0 for none. */
  predicate IsMaxDepth(tree: seq<Entry>, m: nat) {
    && (forall i :: 0 <= i < |tree| ==> Depth(tree[i].path) <= m)
    && (|tree| == 0 ==> m == 0)
    && (|tree| > 0 ==> exists i :: 0 <= i < |tree| && Depth(tree[i].path) == m)
  }

  /** What the loop has accumulated after visiting exactly the entries of `tree`. */
  predicate Summarizes(tree: seq<Entry>, acc: Scan) {
    && IsMaxDepth(tree, acc.maxDepth)
    && acc.keyFiles == Select(tree, IsKeyFile)
    && acc.keyDirs == Select(tree, IsKeyDir)
    && acc.warnings == Warnings(Select(tree, IsSuspiciousFile))
  }

  /** Taking the larger of the running maximum and the next depth keeps the maximum. */
  lemma MaxDepthStep(init: seq<Entry>, item: Entry, m: nat)
    requires IsMaxDepth(init, m)
    ensures IsMaxDepth(init + [item], if Depth(item.path) > m then Depth(item.path) else m)
  {
    var tree := init + [item];
    assert forall i :: 0 <= i < |init| ==> tree[i] == init[i];
    assert tree[|init|] == item;
  }

  /** The warning list grows with the selection of suspicious files. */
  lemma WarningsStep(init: seq<Entry>, item: Entry)
    ensures Warnings(Select(init + [item], IsSuspiciousFile))
         == Warnings(Select(init, IsSuspiciousFile)) + (if IsSuspiciousFile(item) then [Warning(item.path)] else [])
  {
    SelectSnoc(init, item, IsSuspiciousFile);
    WarningsAppend(Select(init, IsSuspiciousFile), if IsSuspiciousFile(item) then [item.path] else []);
  }

  /** One loop iteration extends the summary of a prefix by one entry. */
  lemma VisitStep(init: seq<Entry>, item: Entry, acc: Scan)
    requires Summarizes(init, acc)
    ensures Summarizes(init + [item], Visit(acc, item))
  {
    MaxDepthStep(init, item, acc.maxDepth);
    SelectSnoc(init, item, IsKeyFile);
    SelectSnoc(init, item, IsKeyDir);
    WarningsStep(init, item);
  }

  /** The accumulators after the loop has visited every entry of `tree`:
      the depth is the maximum over all entries, and each list is the
      order-preserving selection of the entries of its kind. */
  function ScanTree(tree: seq<Entry>): (acc: Scan)
    ensures forall i :: 0 <= i < |tree| ==> Depth(tree[i].path) <= acc.maxDepth
    ensures |tree| == 0 ==> acc.maxDepth == 0
    ensures |tree| > 0 ==> exists i :: 0 <= i < |tree| && Depth(tree[i].path) == acc.maxDepth
    ensures acc.keyFiles == Select(tree, IsKeyFile)
    ensures acc.keyDirs == Select(tree, IsKeyDir)
    ensures acc.warnings == Warnings(Select(tree, IsSuspiciousFile))
  {
    if |tree| == 0 then Scan(0, [], [], [])
    else
      var init, item := tree[..|tree| - 1], tree[|tree| - 1];
      assert tree == init + [item];
      var prev := ScanTree(init);
      VisitStep(init, item, prev);
      Visit(prev, item)
  }

  /** `analyzeRepoStructure` */
  function AnalyzeRepoStructure(tree: seq<Entry>): (r: RepoStructure)
    ensures forall i :: 0 <= i < |tree| ==> Depth(tree[i].path) <= r.depth
    ensures |tree| > 0 ==> exists i :: 0 <= i < |tree| && Depth(tree[i].path) == r.depth
    ensures r.depth == 0 <==> |tree| == 0
    ensures r.keyFiles == Select(tree, IsKeyFile)
    ensures r.keyDirs == Select(tree, IsKeyDir)
    ensures r.securityWarnings == Warnings(Select(tree, IsSuspiciousFile))
    ensures r.ciTools == if exists i :: 0 <= i < |tree| && IsWorkflowFile(tree[i]) then [GitHubActions] else []
    ensures r.issues == if r.depth > DepthLimit then [DepthIssue(r.depth)] else []
  {
    var acc := ScanTree(tree);
    var issues := if acc.maxDepth > DepthLimit then [DepthIssue(acc.maxDepth)] else [];
    var ciTools := if Some(tree, IsWorkflowFile) then [GitHubActions] else [];
    RepoStructure(acc.maxDepth, acc.keyFiles, acc.keyDirs, issues, acc.warnings, ciTools)
  }

  /** The depth issue is reported exactly when some entry is more than
      `DepthLimit` segments deep, and it then names the maximum depth. */
  lemma DepthIssueIff(tree: seq<Entry>)
    ensures var r := AnalyzeRepoStructure(tree);
      r.issues == [] <==> forall i :: 0 <= i < |tree| ==> Depth(tree[i].path) <= DepthLimit
    ensures var r := AnalyzeRepoStructure(tree);
      (exists i :: 0 <= i < |tree| && Depth(tree[i].path) > DepthLimit) ==>
        && r.issues == ["Tree is too deep (" + NatToDecimal(r.depth) + " levels)"]
        && DecimalValue(NatToDecimal(r.depth)) == r.depth
  {
    DecimalRoundTrip(AnalyzeRepoStructure(tree).depth);
  }

  /** Each warning names a suspicious file of the tree, and each suspicious
      file is named by a warning; directories never warn. */
  lemma WarningMembers(tree: seq<Entry>, w: string)
    ensures w in AnalyzeRepoStructure(tree).securityWarnings <==>
      exists i :: 0 <= i < |tree| && tree[i].kind == Blob && Suspicious(tree[i].path) && w == Warning(tree[i].path)
  {
    var paths := Select(tree, IsSuspiciousFile);
    var ws := AnalyzeRepoStructure(tree).securityWarnings;
    if w in ws {
      var k :| 0 <= k < |ws| && ws[k] == w;
      SelectMembers(tree, IsSuspiciousFile, paths[k]);
    }
    if exists i :: 0 <= i < |tree| && tree[i].kind == Blob && Suspicious(tree[i].path) && w == Warning(tree[i].path) {
      var i :| 0 <= i < |tree| && tree[i].kind == Blob && Suspicious(tree[i].path) && w == Warning(tree[i].path);
      SelectMembers(tree, IsSuspiciousFile, tree[i].path);
      var k :| 0 <= k < |paths| && paths[k] == tree[i].path;
      assert ws[k] == w;
    }
  }

  /** A key file is a file entry named `README.md` or `package.json`, and a
      key directory a directory entry named `.github` or `.github/workflows`;
      entries of the other kind with those names are not listed. */
  lemma KeyMembers(tree: seq<Entry>, path: string)
    ensures path in AnalyzeRepoStructure(tree).keyFiles <==>
      (path == "README.md" || path == "package.json") && Entry(path, Blob) in tree
    ensures path in AnalyzeRepoStructure(tree).keyDirs <==>
      (path == ".github" || path == ".github/workflows") && Entry(path, Tree) in tree
  {
    SelectMembers(tree, IsKeyFile, path);
    SelectMembers(tree, IsKeyDir, path);
    if Entry(path, Blob) in tree {
      var i :| 0 <= i < |tree| && tree[i] == Entry(path, Blob);
      assert tree[i].path == path;
    }
    if Entry(path, Tree) in tree {
      var i :| 0 <= i < |tree| && tree[i] == Entry(path, Tree);
      assert tree[i].path == path;
    }
  }

  /** Adding directory entries changes neither the key files nor the warnings,
      and adding file entries does not change the key directories. */
  lemma OtherKindIgnored(tree: seq<Entry>, more: seq<Entry>)
    ensures (forall i :: 0 <= i < |more| ==> more[i].kind == Tree) ==>
      && AnalyzeRepoStructure(tree + more).keyFiles == AnalyzeRepoStructure(tree).keyFiles
      && AnalyzeRepoStructure(tree + more).securityWarnings == AnalyzeRepoStructure(tree).securityWarnings
    ensures (forall i :: 0 <= i < |more| ==> more[i].kind == Blob) ==>
      AnalyzeRepoStructure(tree + more).keyDirs == AnalyzeRepoStructure(tree).keyDirs
  {
    SelectAppend(tree, more, IsKeyFile);
    SelectAppend(tree, more, IsKeyDir);
    SelectAppend(tree, more, IsSuspiciousFile);
    if forall i :: 0 <= i < |more| ==> more[i].kind == Tree {
      SelectNone(more, IsKeyFile);
      SelectNone(more, IsSuspiciousFile);
      assert Select(tree + more, IsSuspiciousFile) == Select(tree, IsSuspiciousFile);
    }
    if forall i :: 0 <= i < |more| ==> more[i].kind == Blob {
      SelectNone(more, IsKeyDir);
    }
  }

  /** Entries listed in any order, possibly repeated, give the same depth. */
  lemma ReorderDepth(t1: seq<Entry>, t2: seq<Entry>)
    requires forall e :: e in t1 <==> e in t2
    ensures AnalyzeRepoStructure(t1).depth == AnalyzeRepoStructure(t2).depth
  {
    var r1, r2 := AnalyzeRepoStructure(t1), AnalyzeRepoStructure(t2);
    assert |t1| > 0 ==> t1[0] in t2;
    assert |t2| > 0 ==> t2[0] in t1;
    if |t1| > 0 {
      var i :| 0 <= i < |t1| && Depth(t1[i].path) == r1.depth;
      assert t1[i] in t2;
      var j :| 0 <= j < |t2| && Depth(t2[j].path) == r2.depth;
      assert t2[j] in t1;
    }
  }

  /** ... and the same issues and CI tools. */
  lemma ReorderIssuesAndCi(t1: seq<Entry>, t2: seq<Entry>)
    requires forall e :: e in t1 <==> e in t2
    ensures AnalyzeRepoStructure(t1).issues == AnalyzeRepoStructure(t2).issues
    ensures AnalyzeRepoStructure(t1).ciTools == AnalyzeRepoStructure(t2).ciTools
  {
    ReorderDepth(t1, t2);
    if exists i :: 0 <= i < |t1| && IsWorkflowFile(t1[i]) {
      var i :| 0 <= i < |t1| && IsWorkflowFile(t1[i]);
      assert t1[i] in t2;
    }
    if exists j :: 0 <= j < |t2| && IsWorkflowFile(t2[j]) {
      var j :| 0 <= j < |t2| && IsWorkflowFile(t2[j]);
      assert t2[j] in t1;
    }
  }

  /** ... and lists with the same members. */
  lemma ReorderMembers(t1: seq<Entry>, t2: seq<Entry>, x: string)
    requires forall e :: e in t1 <==> e in t2
    ensures x in AnalyzeRepoStructure(t1).keyFiles <==> x in AnalyzeRepoStructure(t2).keyFiles
    ensures x in AnalyzeRepoStructure(t1).keyDirs <==> x in AnalyzeRepoStructure(t2).keyDirs
    ensures x in AnalyzeRepoStructure(t1).securityWarnings <==> x in AnalyzeRepoStructure(t2).securityWarnings
  {
    KeyMembers(t1, x);
    KeyMembers(t2, x);
    WarningMembers(t1, x);
    WarningMembers(t2, x);
    if exists i :: 0 <= i < |t1| && t1[i].kind == Blob && Suspicious(t1[i].path) && x == Warning(t1[i].path) {
      var i :| 0 <= i < |t1| && t1[i].kind == Blob && Suspicious(t1[i].path) && x == Warning(t1[i].path);
      assert t1[i] in t2;
    }
    if exists j :: 0 <= j < |t2| && t2[j].kind == Blob && Suspicious(t2[j].path) && x == Warning(t2[j].path) {
      var j :| 0 <= j < |t2| && t2[j].kind == Blob && Suspicious(t2[j].path) && x == Warning(t2[j].path);
      assert t2[j] in t1;
    }
  }

  lemma SecretMatchInExample()
    ensures SecretMatchAt("a.env.secret.config", 6)
  {
    var p := "a.env.secret.config";
    var low := Lower(p);
    assert p[6..12] == "secret" && p[12] == '.';
    assert forall k :: 6 <= k < 12 ==> low[k] == p[k];
    assert low[6..12] == "secret";
    assert low[12] == '.' && low[12..13] == [low[12]];
  }

  /** The path `a.env.secret.config` matches all three patterns. */
  lemma TripleMatch()
    ensures EnvPattern("a.env.secret.config")
    ensures SecretPattern("a.env.secret.config")
    ensures ConfigPattern("a.env.secret.config")
  {
    var p := "a.env.secret.config";
    assert OccursAt(p, ".env", 1) && p[5] == '.';
    assert NoLineTerminatorFrom(p, 6);
    assert EnvMatchAt(p, 1);
    SecretMatchInExample();
    assert ConfigMatchAt(p, 13);
  }

  /** A file entry matching one or more of the patterns adds exactly one
      warning after those of the entries before it. */
  lemma OneWarningPerFile(tree: seq<Entry>, p: string)
    requires Suspicious(p)
    ensures AnalyzeRepoStructure(tree + [Entry(p, Blob)]).securityWarnings
         == AnalyzeRepoStructure(tree).securityWarnings + [Warning(p)]
  {
    WarningsStep(tree, Entry(p, Blob));
  }

  /** The file `a.env.secret.config` matches all three patterns and is still
      warned about once. */
  lemma TripleMatchWarnsOnce()
    ensures AnalyzeRepoStructure([Entry("a.env.secret.config", Blob)]).securityWarnings
         == [Warning("a.env.secret.config")]
  {
    TripleMatch();
    OneWarningPerFile([], "a.env.secret.config");
    assert [] + [Entry("a.env.secret.config", Blob)] == [Entry("a.env.secret.config", Blob)];
  }

  /** Any `.yml` or `.yaml` file below `.github/workflows/`, at any folder
      depth, makes the analyzer report GitHub Actions. */
  lemma NestedWorkflowCounts(tree: seq<Entry>, i: nat, sub: string, ext: string)
    requires i < |tree|
    requires ext == ".yml" || ext == ".yaml"
    requires tree[i] == Entry(".github/workflows/" + sub + ext, Blob)
    ensures AnalyzeRepoStructure(tree).ciTools == [GitHubActions]
  {
    WorkflowPath(sub, ext);
  }

  lemma WorkflowPath(sub: string, ext: string)
    requires ext == ".yml" || ext == ".yaml"
    ensures IsWorkflowFile(Entry(".github/workflows/" + sub + ext, Blob))
  {
    var dir := ".github/workflows/";
    assert dir + sub + ext == dir + (sub + ext);
    AffixesOfConcat(dir, sub + ext);
    AffixesOfConcat(dir + sub, ext);
  }

  /** No GitHub Actions exactly when every entry is a directory, lies outside
      `.github/workflows/`, or has neither a `.yml` nor a `.yaml` ending. */
  lemma NonWorkflowEntriesIgnored(tree: seq<Entry>)
    ensures AnalyzeRepoStructure(tree).ciTools == [] <==>
      forall i :: 0 <= i < |tree| ==>
        || tree[i].kind == Tree
        || !StartsWith(tree[i].path, ".github/workflows/")
        || (!EndsWith(tree[i].path, ".yml") && !EndsWith(tree[i].path, ".yaml"))
  {
    if AnalyzeRepoStructure(tree).ciTools == [] {
      forall i | 0 <= i < |tree|
        ensures !IsWorkflowFile(tree[i])
      {
      }
    }
  }

  /** A file name without `v`, without one of the letters `s` and `e` in
      either case, and without a config ending is not suspicious. */
  lemma NotSuspiciousWhen(p: string)
    requires 'v' !in p
    requires ('s' !in p && 'S' !in p) || ('e' !in p && 'E' !in p)
    requires !EndsWith(p, "config") && !EndsWith(p, "config.js") && !EndsWith(p, "config.ts")
    ensures !Suspicious(p)
  {
    EnvNeedsV(p);
    SecretNeedsLetters(p);
    ConfigPatternReading(p);
  }

  /** `README.md` matches none of the three patterns. */
  lemma ReadmeNotSuspicious()
    ensures !Suspicious("README.md")
  {
    NotSuspiciousWhen("README.md");
  }

  /** A `.yml` workflow file whose stem has no `v` and no `e` in either case,
      such as `ci.yml`, matches none of the three patterns. */
  lemma WorkflowNotSuspicious(stem: string)
    requires 'v' !in stem && 'e' !in stem && 'E' !in stem
    ensures !Suspicious(".github/workflows/" + stem + ".yml")
  {
    var dir := ".github/workflows/";
    var p := dir + stem + ".yml";
    assert 'v' !in dir && 'e' !in dir && 'E' !in dir;
    assert forall c :: c in p ==> c in dir || c in stem || c in ".yml";
    var last := p[|p| - 1];
    assert last == 'l';
    assert EndsWith(p, "config") ==> last == 'g';
    assert EndsWith(p, "config.js") || EndsWith(p, "config.ts") ==> last == 's';
    NotSuspiciousWhen(p);
  }

  /** `.env` matches the env rule. */
  lemma EnvSuspicious()
    ensures Suspicious(".env")
  {
    assert EnvMatchAt(".env", 0);
  }

  /** The rendered warning for `.env`. */
  lemma EnvWarningText()
    ensures Warning(".env") == "Suspicious file detected: .env"
  {
  }

  /* The example below is a readme, one workflow file and an env file. It is
     assembled from one lemma per field over a symbolic three-entry tree, so
     that the solver never has to evaluate the analyzer on literal paths. */

  lemma ExampleDepth(a: Entry, b: Entry, c: Entry)
    requires Depth(a.path) == 1 && Depth(b.path) == 3 && Depth(c.path) == 1
    ensures AnalyzeRepoStructure([a, b, c]).depth == 3
  {
    assert [a, b, c][1] == b;
  }

  lemma ExampleKeyFiles(a: Entry, b: Entry, c: Entry)
    requires IsKeyFile(a) && !IsKeyFile(b) && !IsKeyFile(c)
    ensures AnalyzeRepoStructure([a, b, c]).keyFiles == [a.path]
  {
    SelectThree(a, b, c, IsKeyFile);
  }

  lemma ExampleKeyDirs(a: Entry, b: Entry, c: Entry)
    requires !IsKeyDir(a) && !IsKeyDir(b) && !IsKeyDir(c)
    ensures AnalyzeRepoStructure([a, b, c]).keyDirs == []
  {
    SelectThree(a, b, c, IsKeyDir);
  }

  lemma ExampleWarnings(a: Entry, b: Entry, c: Entry)
    requires !IsSuspiciousFile(a) && !IsSuspiciousFile(b) && IsSuspiciousFile(c)
    ensures AnalyzeRepoStructure([a, b, c]).securityWarnings == [Warning(c.path)]
  {
    SelectThree(a, b, c, IsSuspiciousFile);
  }

  lemma ExampleCiTools(a: Entry, b: Entry, c: Entry)
    requires IsWorkflowFile(b)
    ensures AnalyzeRepoStructure([a, b, c]).ciTools == [GitHubActions]
  {
    assert [a, b, c][1] == b;
  }

  /** A three-entry tree whose first entry is a key file, whose second is a
      workflow file three levels deep and whose third is suspicious. */
  lemma ExampleShape(a: Entry, b: Entry, c: Entry)
    requires Depth(a.path) == 1 && Depth(b.path) == 3 && Depth(c.path) == 1
    requires IsKeyFile(a) && !IsKeyFile(b) && !IsKeyFile(c)
    requires !IsKeyDir(a) && !IsKeyDir(b) && !IsKeyDir(c)
    requires !IsSuspiciousFile(a) && !IsSuspiciousFile(b) && IsSuspiciousFile(c)
    requires IsWorkflowFile(b)
    ensures AnalyzeRepoStructure([a, b, c]) == RepoStructure(3, [a.path], [], [], [Warning(c.path)], [GitHubActions])
  {
    ExampleDepth(a, b, c);
    ExampleKeyFiles(a, b, c);
    ExampleKeyDirs(a, b, c);
    ExampleWarnings(a, b, c);
    ExampleCiTools(a, b, c);
  }

  predicate IsExampleTree(tree: seq<Entry>) {
    tree == [Entry("README.md", Blob), Entry(".github/workflows/ci.yml", Blob), Entry(".env", Blob)]
  }

  lemma WorkflowPathSegments()
    ensures ".github/workflows/ci.yml" == ".github" + "/" + "workflows" + "/" + "ci.yml"
    ensures '/' !in ".github" && '/' !in "workflows" && '/' !in "ci.yml"
  {
  }

  lemma ExamplePathDepths(tree: seq<Entry>)
    requires IsExampleTree(tree)
    ensures Depth(tree[0].path) == 1 && Depth(tree[1].path) == 3 && Depth(tree[2].path) == 1
  {
    DepthOfSegment(tree[0].path);
    DepthOfSegment(tree[2].path);
    WorkflowPathSegments();
    DepthOfSegment(".github");
    DepthAppendSegment(".github", "workflows");
    DepthAppendSegment(".github" + "/" + "workflows", "ci.yml");
  }

  lemma ExampleClassification(tree: seq<Entry>)
    requires IsExampleTree(tree)
    ensures IsKeyFile(tree[0]) && !IsKeyFile(tree[1]) && !IsKeyFile(tree[2])
    ensures !IsKeyDir(tree[0]) && !IsKeyDir(tree[1]) && !IsKeyDir(tree[2])
    ensures !IsSuspiciousFile(tree[0]) && !IsSuspiciousFile(tree[1]) && IsSuspiciousFile(tree[2])
    ensures IsWorkflowFile(tree[1])
  {
    ReadmeNotSuspicious();
    WorkflowNotSuspicious("ci");
    assert ".github/workflows/" + "ci" + ".yml" == ".github/workflows/ci.yml";
    EnvSuspicious();
    assert StartsWith(tree[1].path, ".github/workflows/");
    assert EndsWith(tree[1].path, ".yml");
  }

  /** The example tree: depth 3, `README.md` as the only key file, no key
      directories and no issues, one warning for `.env`, and GitHub Actions. */
  lemma Scenario(tree: seq<Entry>)
    requires IsExampleTree(tree)
    ensures AnalyzeRepoStructure(tree) == RepoStructure(3, ["README.md"], [], [], [Warning(".env")], [GitHubActions])
  {
    ExamplePathDepths(tree);
    ExampleClassification(tree);
    ExampleShape(tree[0], tree[1], tree[2]);
    assert tree == [tree[0], tree[1], tree[2]];
  }
}
