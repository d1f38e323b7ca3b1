/** The label assembly of the tech-stack detector. Each known manifest file is
    probed in table order; a probe that yields string content pushes the
    file's label, preceded, for `package.json`, by one label per framework
    found in the merged dependency map. The pushed labels are then
    de-duplicated keeping first occurrences.

    The remote probes and the decoding and parsing of their content are not
    computed here: a repository is given as the outcome of each probe. */
module TechStack {
  import opened Sequences

  /** A parsed JSON value, detailed as far as truthiness needs. */
  datatype JsonValue =
    | JNull
    | JBool(b: bool)
    | JNumber(value: real)
    | JString(s: string)
    | JArray
    | JObject

  /** JavaScript truthiness: `null`, `false`, zero and the empty string are
      falsy; arrays and objects are truthy even when empty. */
  predicate Truthy(v: JsonValue) {
    match v
    case JNull => false
    case JBool(b) => b
    case JNumber(x) => x != 0.0
    case JString(s) => |s| > 0
    case JArray => true
    case JObject => true
  }

  /** The own properties of a dependency section. A section that is not an
      object is given as the empty map: spreading a string, an array or a
      primitive adds only index keys or nothing, never a package name. */
  type Section = map<string, JsonValue>

  /** The outcome of decoding and parsing `package.json`. `ParseFailed` also
      covers a document that is the literal `null`, whose property access
      throws inside the same `try`. Any other document that is not an object
      has no dependency sections: `Parsed` with both sections empty. */
  datatype Manifest =
    | ParseFailed
    | Parsed(dependencies: Section, devDependencies: Section)

  /** The outcome of one content probe. `Content` means the file has string
      content. Its `manifest` is what parsing that content gives. Only
      `package.json` is parsed, so for every other file the field is ignored:
      any `Manifest` there means the same thing. */
  datatype Probe =
    | NotFound
    | OtherError
    | NoStringContent
    | Content(manifest: Manifest)

  /** The repository as seen by the probes; a name without an entry answers 404. */
  type Repository = map<string, Probe>

  function Lookup(repo: Repository, name: string): Probe {
    if name in repo then repo[name] else NotFound
  }

  datatype KnownFile = KnownFile(name: string, technology: string)

  const PackageJson: string := "package.json"
  const NodeJs: string := "Node.js"

  /** The probed files, in probing order. */
  const KnownFiles: seq<KnownFile> := [
    KnownFile(PackageJson, NodeJs),
    KnownFile("requirements.txt", "Python"),
    KnownFile("pyproject.toml", "Python"),
    KnownFile("Gemfile", "Ruby"),
    KnownFile("composer.json", "PHP"),
    KnownFile("build.gradle", "Java"),
    KnownFile("pom.xml", "Java"),
    KnownFile("Cargo.toml", "Rust"),
    KnownFile("go.mod", "Go"),
    KnownFile("Dockerfile", "Docker")
  ]

  datatype Framework = Framework(package: string, technology: string)

  /** The dependency names looked up, in lookup order, with their labels. */
  const Frameworks: seq<Framework> := [
    Framework("next", "Next.js"),
    Framework("react", "React"),
    Framework("express", "Express"),
    Framework("nestjs", "NestJS")
  ]

  /** `{ ...dependencies, ...devDependencies }` */
  function Merge(dependencies: Section, devDependencies: Section): (deps: Section)
    ensures deps.Keys == dependencies.Keys + devDependencies.Keys
    ensures forall k :: k in devDependencies ==> deps[k] == devDependencies[k]
    ensures forall k :: k in dependencies && k !in devDependencies ==> deps[k] == dependencies[k]
  {
    dependencies + devDependencies
  }

  /** `deps[name]` is truthy; a missing name reads as `undefined`. */
  predicate Enabled(deps: Section, name: string) {
    name in deps && Truthy(deps[name])
  }

  /** The framework labels pushed for a dependency map, in lookup order. */
  function FrameworkLabels(deps: Section, fws: seq<Framework>): (labels: seq<string>)
    ensures |labels| <= |fws|
  {
    if |fws| == 0 then []
    else
      var n := |fws| - 1;
      FrameworkLabels(deps, fws[..n]) + (if Enabled(deps, fws[n].package) then [fws[n].technology] else [])
  }

  /** The labels one iteration of the probing loop pushes. */
  function Contribution(file: KnownFile, probe: Probe): seq<string> {
    match probe
    case Content(manifest) =>
      if file.name == PackageJson then
        match manifest
        case ParseFailed => []
        case Parsed(d, dd) => FrameworkLabels(Merge(d, dd), Frameworks) + [file.technology]
      else [file.technology]
    case _ => []
  }

  /** The stack after the loop has probed every file of `files`, in order. */
  function Pushed(files: seq<KnownFile>, repo: Repository): (stack: seq<string>)
  {
    if |files| == 0 then []
    else
      var n := |files| - 1;
      Pushed(files[..n], repo) + Contribution(files[n], Lookup(repo, files[n].name))
  }

  /** `detectTechStack`, after the probes: `[...new Set(stack)]`. */
  function DetectTechStack(repo: Repository): (labels: seq<string>)
    ensures NoDup(labels)
    ensures InOrderOf(labels, Pushed(KnownFiles, repo))
    ensures forall t :: t in labels <==> t in Pushed(KnownFiles, repo)
  {
    Dedup(Pushed(KnownFiles, repo))
  }

  /** Later sections override earlier ones: whether a name is enabled in the
      merged map is decided by `devDependencies` whenever it lists the name. */
  lemma MergeOverride(d: Section, dd: Section, name: string)
    ensures name in dd ==> (Enabled(Merge(d, dd), name) <==> Truthy(dd[name]))
    ensures name !in dd ==> (Enabled(Merge(d, dd), name) <==> Enabled(d, name))
  {
  }

  /** A framework label is pushed exactly when its package is enabled. */
  lemma {:induction false} FrameworkLabelsMembers(deps: Section, fws: seq<Framework>, t: string)
    ensures t in FrameworkLabels(deps, fws) <==>
      exists i :: 0 <= i < |fws| && fws[i].technology == t && Enabled(deps, fws[i].package)
  {
    if |fws| > 0 {
      var n := |fws| - 1;
      FrameworkLabelsMembers(deps, fws[..n], t);
      assert forall i :: 0 <= i < n ==> fws[..n][i] == fws[i];
    }
  }

  /** The technologies of a framework table. */
  function Technologies(fws: seq<Framework>): (ts: seq<string>)
    ensures |ts| == |fws|
    ensures forall i :: 0 <= i < |fws| ==> ts[i] == fws[i].technology
  {
    seq(|fws|, i requires 0 <= i < |fws| => fws[i].technology)
  }

  /** With distinct technologies no framework label is pushed twice. */
  lemma {:induction false} FrameworkLabelsNoDup(deps: Section, fws: seq<Framework>)
    requires NoDup(Technologies(fws))
    ensures NoDup(FrameworkLabels(deps, fws))
  {
    if |fws| > 0 {
      var n := |fws| - 1;
      assert Technologies(fws[..n]) == Technologies(fws)[..n];
      FrameworkLabelsNoDup(deps, fws[..n]);
      FrameworkLabelsMembers(deps, fws[..n], fws[n].technology);
    }
  }

  /** The stack of a table split in two is the two stacks one after the other. */
  lemma {:induction false} PushedAppend(a: seq<KnownFile>, b: seq<KnownFile>, repo: Repository)
    ensures Pushed(a + b, repo) == Pushed(a, repo) + Pushed(b, repo)
  {
    if |b| > 0 {
      var n := |b| - 1;
      PushedAppend(a, b[..n], repo);
      assert (a + b)[..|a + b| - 1] == a + b[..n];
    } else {
      assert a + b == a;
    }
  }

  /** A label is on the stack exactly when some file's probe pushed it. */
  lemma {:induction false} PushedMembers(files: seq<KnownFile>, repo: Repository, t: string)
    ensures t in Pushed(files, repo) <==>
      exists i :: 0 <= i < |files| && t in Contribution(files[i], Lookup(repo, files[i].name))
  {
    if |files| > 0 {
      var n := |files| - 1;
      PushedMembers(files[..n], repo, t);
      assert forall i :: 0 <= i < n ==> files[..n][i] == files[i];
    }
  }

  /** When no probe yields content the stack is empty. */
  lemma {:induction false} PushedNone(files: seq<KnownFile>, repo: Repository)
    requires forall i :: 0 <= i < |files| ==> !Lookup(repo, files[i].name).Content?
    ensures Pushed(files, repo) == []
  {
    if |files| > 0 {
      PushedNone(files[..|files| - 1], repo);
    }
  }

  /** Failing probes contribute nothing: with no content anywhere no label is
      reported. */
  lemma NoContentNoLabels(repo: Repository)
    requires forall i :: 0 <= i < |KnownFiles| ==> !Lookup(repo, KnownFiles[i].name).Content?
    ensures DetectTechStack(repo) == []
  {
    PushedNone(KnownFiles, repo);
  }

  /** The order of the probe table does not change which labels are reported. */
  lemma ProbeOrderIrrelevant(f1: seq<KnownFile>, f2: seq<KnownFile>, repo: Repository, t: string)
    requires forall f :: f in f1 <==> f in f2
    ensures t in Dedup(Pushed(f1, repo)) <==> t in Dedup(Pushed(f2, repo))
  {
    PushedMembers(f1, repo, t);
    PushedMembers(f2, repo, t);
    if exists i :: 0 <= i < |f1| && t in Contribution(f1[i], Lookup(repo, f1[i].name)) {
      var i :| 0 <= i < |f1| && t in Contribution(f1[i], Lookup(repo, f1[i].name));
      assert f1[i] in f2;
    }
    if exists j :: 0 <= j < |f2| && t in Contribution(f2[j], Lookup(repo, f2[j].name)) {
      var j :| 0 <= j < |f2| && t in Contribution(f2[j], Lookup(repo, f2[j].name));
      assert f2[j] in f1;
    }
  }

  /** The facts about the two tables the label lemmas rely on. */
  lemma TableFacts()
    ensures |KnownFiles| == 10 && KnownFiles[0] == KnownFile(PackageJson, NodeJs)
    ensures forall i :: 1 <= i < |KnownFiles| ==> KnownFiles[i].name != PackageJson
    ensures forall i :: 1 <= i < |KnownFiles| ==> KnownFiles[i].technology != NodeJs
    ensures forall i :: 1 <= i < |KnownFiles| ==> KnownFiles[i].technology !in Technologies(Frameworks)
    ensures NodeJs !in Technologies(Frameworks)
    ensures NoDup(Technologies(Frameworks))
  {
    assert Technologies(Frameworks) == ["Next.js", "React", "Express", "NestJS"];
  }

  /** The probe of `package.json` parsed to a manifest. */
  predicate PackageParsed(repo: Repository) {
    Lookup(repo, PackageJson).Content? && Lookup(repo, PackageJson).manifest.Parsed?
  }

  /** The merged dependency map of a parsed `package.json`. */
  function PackageDeps(repo: Repository): Section
    requires PackageParsed(repo)
  {
    var m := Lookup(repo, PackageJson).manifest;
    Merge(m.dependencies, m.devDependencies)
  }

  /** A label is reported exactly when some probe pushed it. */
  lemma TechStackMembers(repo: Repository, t: string)
    ensures t in DetectTechStack(repo) <==>
      exists i :: 0 <= i < |KnownFiles| && t in Contribution(KnownFiles[i], Lookup(repo, KnownFiles[i].name))
  {
    PushedMembers(KnownFiles, repo, t);
  }

  /** `Node.js` is reported exactly when `package.json` has content that parses. */
  lemma NodeJsIff(repo: Repository)
    ensures NodeJs in DetectTechStack(repo) <==> PackageParsed(repo)
  {
    TableFacts();
    TechStackMembers(repo, NodeJs);
    if PackageParsed(repo) {
      assert NodeJs in Contribution(KnownFiles[0], Lookup(repo, KnownFiles[0].name));
    }
    if NodeJs in DetectTechStack(repo) {
      var i :| 0 <= i < |KnownFiles| && NodeJs in Contribution(KnownFiles[i], Lookup(repo, KnownFiles[i].name));
      assert i == 0;
    }
  }

  /** A framework is reported exactly when `package.json` parses and its
      package is truthy in the merged dependency map. */
  lemma FrameworkIff(repo: Repository, k: nat)
    requires k < |Frameworks|
    ensures Frameworks[k].technology in DetectTechStack(repo) <==>
      PackageParsed(repo) && Enabled(PackageDeps(repo), Frameworks[k].package)
  {
    TableFacts();
    var t := Frameworks[k].technology;
    assert t == Technologies(Frameworks)[k];
    TechStackMembers(repo, t);
    if PackageParsed(repo) {
      FrameworkLabelsMembers(PackageDeps(repo), Frameworks, t);
      if Enabled(PackageDeps(repo), Frameworks[k].package) {
        assert t in Contribution(KnownFiles[0], Lookup(repo, KnownFiles[0].name));
      }
    }
    if t in DetectTechStack(repo) {
      var i :| 0 <= i < |KnownFiles| && t in Contribution(KnownFiles[i], Lookup(repo, KnownFiles[i].name));
      assert i == 0;
      assert t in FrameworkLabels(PackageDeps(repo), Frameworks);
      FrameworkLabelsMembers(PackageDeps(repo), Frameworks, t);
      var j :| 0 <= j < |Frameworks| && Frameworks[j].technology == t && Enabled(PackageDeps(repo), Frameworks[j].package);
      assert Technologies(Frameworks)[j] == Technologies(Frameworks)[k];
    }
  }

  /** `package.json` pushes only framework labels and `Node.js`. */
  lemma PackageContributionLabels(probe: Probe, t: string)
    requires t != NodeJs && t !in Technologies(Frameworks)
    ensures t !in Contribution(KnownFile(PackageJson, NodeJs), probe)
  {
    if probe.Content? && probe.manifest.Parsed? {
      var m := probe.manifest;
      FrameworkLabelsMembers(Merge(m.dependencies, m.devDependencies), Frameworks, t);
    }
  }

  /** Any other label is reported exactly when some file carrying it has
      string content; for these files the content is never parsed. */
  lemma OtherTechnologyIff(repo: Repository, t: string)
    requires t != NodeJs && t !in Technologies(Frameworks)
    ensures t in DetectTechStack(repo) <==>
      exists i :: 1 <= i < |KnownFiles| && KnownFiles[i].technology == t && Lookup(repo, KnownFiles[i].name).Content?
  {
    TableFacts();
    TechStackMembers(repo, t);
    PackageContributionLabels(Lookup(repo, PackageJson), t);
    if t in DetectTechStack(repo) {
      var i :| 0 <= i < |KnownFiles| && t in Contribution(KnownFiles[i], Lookup(repo, KnownFiles[i].name));
      assert i != 0;
    }
    if exists i :: 1 <= i < |KnownFiles| && KnownFiles[i].technology == t && Lookup(repo, KnownFiles[i].name).Content? {
      var i :| 1 <= i < |KnownFiles| && KnownFiles[i].technology == t && Lookup(repo, KnownFiles[i].name).Content?;
      assert t in Contribution(KnownFiles[i], Lookup(repo, KnownFiles[i].name));
    }
  }

  /** For a parsed `package.json` the report starts with the framework labels
      in lookup order, followed by `Node.js`. */
  lemma FrameworksFirst(repo: Repository)
    requires PackageParsed(repo)
    ensures var head := FrameworkLabels(PackageDeps(repo), Frameworks) + [NodeJs];
      |head| <= |DetectTechStack(repo)| && DetectTechStack(repo)[..|head|] == head
  {
    TableFacts();
    var fl := FrameworkLabels(PackageDeps(repo), Frameworks);
    var head := fl + [NodeJs];
    FrameworkLabelsNoDup(PackageDeps(repo), Frameworks);
    FrameworkLabelsMembers(PackageDeps(repo), Frameworks, NodeJs);
    assert NoDup(head) by {
      assert forall i :: 0 <= i < |fl| ==> head[i] == fl[i];
    }
    assert KnownFiles == KnownFiles[..1] + KnownFiles[1..];
    PushedAppend(KnownFiles[..1], KnownFiles[1..], repo);
    assert KnownFiles[..1][..0] == [];
    assert Pushed(KnownFiles[..1], repo) == head;
    DedupKeepsPrefix(head, Pushed(KnownFiles[1..], repo));
  }

  /** Only `react` enabled: the framework labels are `["React"]`. */
  lemma OnlyReactEnabled(deps: Section)
    requires !Enabled(deps, "next") && Enabled(deps, "react")
    requires !Enabled(deps, "express") && !Enabled(deps, "nestjs")
    ensures FrameworkLabels(deps, Frameworks) == ["React"]
  {
    assert Frameworks[..1][..0] == [];
    assert FrameworkLabels(deps, Frameworks[..1]) == [];
    assert Frameworks[..2][..1] == Frameworks[..1];
    assert FrameworkLabels(deps, Frameworks[..2]) == ["React"];
    assert Frameworks[..3][..2] == Frameworks[..2];
    assert FrameworkLabels(deps, Frameworks[..3]) == ["React"];
    assert Frameworks[..4][..3] == Frameworks[..3] && Frameworks[..4] == Frameworks;
  }

  /** The stack of a table is the concatenation of its files' contributions. */
  lemma {:induction false} PushedContributions(files: seq<KnownFile>, repo: Repository, contributions: seq<seq<string>>)
    requires |contributions| == |files|
    requires forall i :: 0 <= i < |files| ==> Contribution(files[i], Lookup(repo, files[i].name)) == contributions[i]
    ensures Pushed(files, repo) == Concat(contributions)
  {
    if |files| > 0 {
      var n := |files| - 1;
      PushedContributions(files[..n], repo, contributions[..n]);
    }
  }

  /** The example repository: `react` in the dependencies, `express` in both
      sections but falsy in the development one, a `Dockerfile` probe without
      string content, and a `go.mod` with string content (its manifest
      field is ignored, as for every file other than `package.json`). */
  predicate IsExampleRepo(repo: Repository) {
    repo == map[
      PackageJson := Content(Parsed(map["react" := JString("^18.2.0"), "express" := JString("^4")], map["express" := JBool(false)])),
      "Dockerfile" := NoStringContent,
      "go.mod" := Content(ParseFailed)]
  }

  lemma ExampleDeps(repo: Repository)
    requires IsExampleRepo(repo)
    ensures PackageParsed(repo)
    ensures !Enabled(PackageDeps(repo), "next") && Enabled(PackageDeps(repo), "react")
    ensures !Enabled(PackageDeps(repo), "express") && !Enabled(PackageDeps(repo), "nestjs")
  {
  }

  lemma ExampleContributions(repo: Repository)
    requires IsExampleRepo(repo)
    ensures Contribution(KnownFiles[0], Lookup(repo, KnownFiles[0].name)) == ["React", NodeJs]
    ensures Contribution(KnownFiles[8], Lookup(repo, KnownFiles[8].name)) == ["Go"]
    ensures forall i :: 1 <= i < |KnownFiles| && i != 8 ==> Contribution(KnownFiles[i], Lookup(repo, KnownFiles[i].name)) == []
  {
    ExampleDeps(repo);
    OnlyReactEnabled(PackageDeps(repo));
  }

  /** A development entry overrides a production one, an unparsable
      non-`package.json` file still counts, and a probe without string
      content adds nothing. */
  lemma ExampleStack(repo: Repository)
    requires IsExampleRepo(repo)
    ensures DetectTechStack(repo) == ["React", NodeJs, "Go"]
  {
    var cs := [["React", NodeJs], [], [], [], [], [], [], [], ["Go"], []];
    ExampleContributions(repo);
    PushedContributions(KnownFiles, repo, cs);
    assert forall i :: 0 <= i < |KnownFiles| ==> Contribution(KnownFiles[i], Lookup(repo, KnownFiles[i].name)) == cs[i];
    assert cs[..9][..8] == cs[..8] && cs[..10][..9] == cs[..9] && cs[..10] == cs;
    assert Concat(cs[..8]) == ["React", NodeJs] by {
      ConcatOfEmpties(cs[..8], 1);
    }
    assert Concat(cs) == ["React", NodeJs, "Go"];
    DedupOfNoDup(Pushed(KnownFiles, repo));
  }
}
