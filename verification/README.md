# github-repo-analyzer: the repository analyzers in Dafny

The analyzer service inspects a GitHub repository. This project models the three
parts of it that are pure logic over data already fetched:

- **Structural analysis** (`analyzeRepoStructure`). The input is the flattened
  tree listing, where each entry is a path plus a kind (`blob` for a file,
  `tree` for a directory). One pass computes four things:
  - the maximum path depth;
  - the key files (`README.md`, `package.json`);
  - the key directories (`.github`, `.github/workflows`);
  - a "Suspicious file detected" warning for every file that matches one of
    three regular expressions.

  A second pass detects GitHub Actions workflow files. A tree deeper than 10
  levels is reported as an issue.
- **Community health** (`analyzeCommunityHealth`). Five checklist paths are
  each marked present when some entry's path starts with them. The checklist
  is split into present and missing keys in declaration order. The score is
  the number of present keys.
- **Tech-stack labels** (`detectTechStack`, after its probes). Ten known
  manifest files are probed in table order. A probe that yields string content
  pushes the file's technology label. For `package.json` the content is
  parsed first, and one label is pushed for each of `next`, `react`,
  `express` and `nestjs` that is truthy in the merged dependency map. The
  stack is then de-duplicated, keeping first occurrences.

Modules:

- `Sequences`: distinctness, first occurrences, and the first-occurrence
  de-duplication of `[...new Set(xs)]`.
- `Text`: prefix, suffix and substring tests, ASCII lower-casing,
  `split`/`join` on one character, and decimal rendering.
- `GitTree`: tree entries, path depth, and order-preserving selection.
- `Patterns`: the three suspicious-file regular expressions, each given by
  what it matches at a position, with lemmas that read each one as a plain
  string test.
- `Structure`, `Community`, `TechStack`: the three analyzers.

Every analyzer is a pure function. Each source loop appears as a left fold over
the entries (`ScanTree`, `Flags`, `Partition`, `Pushed`). The lemmas connect
each fold to a declarative description: a maximum, a membership condition, an
order.

Inputs that come from outside the code are parameters:

- The tree listing is a `seq<Entry>`.
- Each content probe of the tech-stack detector is an input outcome, of type
  `Probe`:
  - not found;
  - another error;
  - no string content;
  - content, carrying what decoding and `JSON.parse` make of it (`Manifest`).

## Model

| member | source | states |
|---|---|---|
| `Structure.AnalyzeRepoStructure` | src/services/repoAnalyzerService.ts:119-176 | The depth bounds every entry's segment count and equals one of them, and it is 0 exactly for an empty tree. The key file and key directory lists are the tree-order selections of their kind. There is one warning per suspicious file, in order. The CI tools are `["GitHub Actions"]` exactly when a workflow file exists. The issue appears exactly when the depth exceeds 10 |
| `Structure.ScanTree` | src/services/repoAnalyzerService.ts:124-149 | After the loop, the running maximum is the maximum depth over all entries (0 for none), and each accumulated list is the order-preserving selection of entries of its kind |
| `Structure.DepthIssueIff` | src/services/repoAnalyzerService.ts:163-166 | No issue exactly when every entry is at most 10 levels deep; otherwise the one issue names the maximum depth in decimal, which reads back as that depth |
| `Structure.WarningMembers` | src/services/repoAnalyzerService.ts:130-141 | A warning is in the list exactly when it is `"Suspicious file detected: "` plus the path of a file entry matching one of the patterns; directories never warn |
| `Structure.OneWarningPerFile` | src/services/repoAnalyzerService.ts:135-141 | Appending a file whose path matches one or more of the three patterns adds exactly one warning, for that path, after the warnings already listed |
| `Structure.TripleMatchWarnsOnce` | src/services/repoAnalyzerService.ts:135-141 | The one-file tree `a.env.secret.config`, which matches all three patterns, yields exactly one warning |
| `Structure.TripleMatch` | src/services/repoAnalyzerService.ts:136-138 | `a.env.secret.config` matches the env, secrets and config patterns |
| `Structure.KeyMembers` | src/services/repoAnalyzerService.ts:130-148 | A path is a key file exactly when it is `README.md` or `package.json` and a file entry has it; it is a key directory exactly when it is `.github` or `.github/workflows` and a directory entry has it |
| `Structure.OtherKindIgnored` | src/services/repoAnalyzerService.ts:130-148 | Appending only directories leaves the key files and warnings unchanged; appending only files leaves the key directories unchanged |
| `Structure.ReorderDepth` | src/services/repoAnalyzerService.ts:124-128 | Two listings with the same entries, in any order and with any repetition, have the same depth |
| `Structure.ReorderIssuesAndCi` | src/services/repoAnalyzerService.ts:151-166 | Such listings have the same issues and CI tools |
| `Structure.ReorderMembers` | src/services/repoAnalyzerService.ts:126-149 | Such listings have key files, key directories and warnings with the same members |
| `Structure.NestedWorkflowCounts` | src/services/repoAnalyzerService.ts:151-161 | A tree holding any file `.github/workflows/` + anything + `.yml` or `.yaml` (nested folders included) reports GitHub Actions |
| `Structure.WorkflowPath` | src/services/repoAnalyzerService.ts:152-156 | Every file `.github/workflows/` + anything + `.yml` or `.yaml` passes the workflow-file test |
| `Structure.NonWorkflowEntriesIgnored` | src/services/repoAnalyzerService.ts:151-161 | No CI tool is reported exactly when every entry is a directory, lies outside `.github/workflows/`, or ends in neither `.yml` nor `.yaml` |
| `Structure.NotSuspiciousWhen` | src/services/repoAnalyzerService.ts:135-139 | A path with no `v`, lacking `s` or `e` in both cases, and with no config ending raises no warning |
| `Structure.ReadmeNotSuspicious` | src/services/repoAnalyzerService.ts:136-138 | `README.md` matches none of the three patterns |
| `Structure.WorkflowNotSuspicious` | src/services/repoAnalyzerService.ts:136-138 | A `.yml` file directly in `.github/workflows/` whose stem has no `v` and no `e` in either case (such as `ci.yml`) matches none of the three patterns |
| `Structure.EnvWarningText` | src/services/repoAnalyzerService.ts:140 | The warning text for `.env` is `Suspicious file detected: .env` |
| `Structure.ExampleShape` | src/services/repoAnalyzerService.ts:119-176 | Take a three-entry tree whose depths are 1, 3 and 1. Only the first entry is a key file, none is a key directory, only the third is suspicious, and the second is a workflow file. Then the depth is 3, the key files are the first path, there are no key directories and no issues, the one warning names the third path, and the CI tools are GitHub Actions |
| `Structure.Scenario` | src/services/repoAnalyzerService.ts:119-176 | The tree `README.md`, `.github/workflows/ci.yml`, `.env` (all files) gives depth 3, key files `["README.md"]`, no key directories and no issues, a warning for `.env`, and `["GitHub Actions"]` |
| `GitTree.DepthIsSplitLength` | src/services/repoAnalyzerService.ts:127 | The depth of a path, one more than its number of `/`, is the length of `path.split('/')`, and at least 1 |
| `GitTree.DepthAppendSegment` | src/services/repoAnalyzerService.ts:127 | Appending a `/`-separated segment without `/` adds exactly one level |
| `GitTree.SelectMembers` | src/services/repoAnalyzerService.ts:130-133 | A path is selected exactly when some entry with that path satisfies the filter |
| `GitTree.SelectAppend` | src/services/repoAnalyzerService.ts:126-149 | Selection distributes over concatenation of listings, so pushes keep tree order |
| `GitTree.Some` | src/services/repoAnalyzerService.ts:151-156 | `tree.some(p)` holds exactly when some entry satisfies `p` |
| `Text.Split` | src/services/repoAnalyzerService.ts:127 | Splitting on a character gives one more piece than there are separators, and no piece contains the separator |
| `Text.SplitJoin` | src/services/repoAnalyzerService.ts:127 | Joining the pieces of a split with the separator restores the string |
| `Text.DecimalRoundTrip` | src/services/repoAnalyzerService.ts:165 | The decimal digits interpolated into the issue read back as the number |
| `Patterns.EnvPatternReading` | src/services/repoAnalyzerService.ts:136 | `/\.env(\..*)?$/` matches exactly when the path ends in `.env` or contains `.env.` with no line terminator after it |
| `Patterns.EnvPatternSingleLine` | src/services/repoAnalyzerService.ts:136 | On a path without line terminators the env rule is "ends in `.env` or contains `.env.`" |
| `Patterns.SecretPatternReading` | src/services/repoAnalyzerService.ts:137 | `/secrets?\./i` matches exactly when the ASCII-lower-cased path contains `secret.` or `secrets.` |
| `Patterns.ConfigPatternReading` | src/services/repoAnalyzerService.ts:138 | The config expression matches exactly when the path ends in `config`, `config.js` or `config.ts`, case-sensitively |
| `Patterns.EnvNeedsV` | src/services/repoAnalyzerService.ts:136 | A path without `v` never matches the env rule |
| `Patterns.SecretNeedsLetters` | src/services/repoAnalyzerService.ts:137 | A path lacking `s` (in either case), or lacking `e` (in either case), never matches the secrets rule |
| `Patterns.EnvMatchExamples` | src/services/repoAnalyzerService.ts:136 | `foo.env` and `.env.local` match the env rule |
| `Patterns.EnvironmentNotMatched` | src/services/repoAnalyzerService.ts:136 | `.environment` does not match the env rule |
| `Patterns.SecretExamples` | src/services/repoAnalyzerService.ts:137 | `SECRETS.json` matches the secrets rule, whatever the case; a bare `secret` without a dot does not |
| `Patterns.ConfigExamples` | src/services/repoAnalyzerService.ts:138 | `webpack.config.js` and `config` match the config rule; `config.json` does not |
| `Community.AnalyzeCommunityHealth` | src/services/repoAnalyzerService.ts:192-228 | The score is the number of present keys, at most 5. Present and missing together number 5. A checklist key is present exactly when some entry's path starts with it, and missing exactly when none does. Both lists follow checklist order |
| `Community.ChecklistNoDup` | src/services/repoAnalyzerService.ts:193-199 | The five checklist keys are distinct |
| `Community.Flags` | src/services/repoAnalyzerService.ts:204-212 | After the nested loops a key's flag is set exactly when some entry's path, of either kind, starts with the key |
| `Community.Partition` | src/services/repoAnalyzerService.ts:214-220 | The loop over the record's entries splits the keys by flag. Every key lands in exactly one list, both lists keep key order, and the present list is as long as the number of set flags |
| `Community.ScoreCountsFlags` | src/services/repoAnalyzerService.ts:222 | The score is the number of set flags |
| `Community.EmptyTreeHealth` | src/services/repoAnalyzerService.ts:192-228 | An empty tree scores 0, with nothing present and all five keys missing in declaration order |
| `Community.ScoreExtremes` | src/services/repoAnalyzerService.ts:214-222 | Score 5 exactly when every key is present in declaration order and none is missing; score 0 exactly when every key is missing in declaration order |
| `Community.PathSetDetermines` | src/services/repoAnalyzerService.ts:204-212 | Two trees with the same set of paths get the same report, whatever the order, repetition or kinds of their entries |
| `Community.AppendMonotone` | src/services/repoAnalyzerService.ts:204-222 | Appending entries never removes a present key and never lowers the score |
| `Community.CountTrueMonotone` | src/services/repoAnalyzerService.ts:222 | Setting more flags never lowers the number of set flags |
| `Community.PrefixMatchExample` | src/services/repoAnalyzerService.ts:208 | `README.md.bak` counts as `README.md`, and a directory `.github/ISSUE_TEMPLATE` counts as that key |
| `TechStack.DetectTechStack` | src/services/repoAnalyzerService.ts:70-117 | The labels have no duplicates. They are exactly the labels pushed, listed in order of first push |
| `TechStack.Merge` | src/services/repoAnalyzerService.ts:99 | The merged dependency map has the keys of both sections; where both list a package, the `devDependencies` value wins |
| `TechStack.MergeOverride` | src/services/repoAnalyzerService.ts:99-104 | Whether a package is enabled is decided by `devDependencies` whenever it lists the package, and by `dependencies` otherwise |
| `TechStack.FrameworkLabelsMembers` | src/services/repoAnalyzerService.ts:101-104 | A framework label is pushed exactly when its package is truthy in the merged map |
| `TechStack.FrameworkLabelsNoDup` | src/services/repoAnalyzerService.ts:101-104 | Framework labels are pushed at most once each |
| `TechStack.PushedMembers` | src/services/repoAnalyzerService.ts:86-114 | A label is on the stack exactly when some file's probe pushed it |
| `TechStack.PushedAppend` | src/services/repoAnalyzerService.ts:86-114 | Probing a table in two parts stacks the two parts' labels one after the other |
| `TechStack.NoContentNoLabels` | src/services/repoAnalyzerService.ts:86-116 | When no probe yields content (404, another error, or non-string content) the result is empty |
| `TechStack.ProbeOrderIrrelevant` | src/services/repoAnalyzerService.ts:86-116 | Probing the same files in another order reports the same set of labels |
| `TechStack.TableFacts` | src/services/repoAnalyzerService.ts:73-84 | `package.json` comes first and is the only file named so or labelled `Node.js`; framework labels are distinct and differ from every file label |
| `TechStack.TechStackMembers` | src/services/repoAnalyzerService.ts:86-116 | A label is reported exactly when the probe of some known file pushed it |
| `TechStack.NodeJsIff` | src/services/repoAnalyzerService.ts:94-108 | `Node.js` is reported exactly when `package.json` has string content that parses to a manifest |
| `TechStack.FrameworkIff` | src/services/repoAnalyzerService.ts:97-104 | Each framework label is reported exactly when `package.json` parses and the framework's package is truthy in the merged map |
| `TechStack.OtherTechnologyIff` | src/services/repoAnalyzerService.ts:94-108 | Any other label is reported exactly when some non-`package.json` file with that label has string content, parsable or not |
| `TechStack.FrameworksFirst` | src/services/repoAnalyzerService.ts:97-116 | For a parsed `package.json` the result starts with the framework labels in lookup order, then `Node.js` |
| `TechStack.OnlyReactEnabled` | src/services/repoAnalyzerService.ts:101-104 | With only `react` enabled the framework labels are `["React"]` |
| `TechStack.ExampleStack` | src/services/repoAnalyzerService.ts:70-117 | With `react` in the dependencies, `express` overridden by a falsy development entry, a `Dockerfile` without string content and an unparsable `go.mod`, the result is `["React", "Node.js", "Go"]` |
| `Sequences.Dedup` | src/services/repoAnalyzerService.ts:116 | De-duplication yields no duplicates, keeps every element, and lists elements in order of first occurrence |
| `Sequences.DedupIdempotent` | src/services/repoAnalyzerService.ts:116 | De-duplicating twice is de-duplicating once |
| `Sequences.DedupKeepsPrefix` | src/services/repoAnalyzerService.ts:116 | A duplicate-free prefix survives de-duplication unchanged at the front |

## Left out

- The Octokit calls are remote I/O: `fetchRepoMetadata` (src/services/repoAnalyzerService.ts:9-31), the ref, commit and tree fetch chain of `analyzeRepoTree` (lines 33-68), the `getContent` probes of `detectTechStack`, and `detectGitHubPages` (lines 178-190). Each probe's outcome is an input instead.
- Base64 decoding and `JSON.parse` (lines 95-98) are library calls. Their result is an input: `Manifest`. A document that parses to `null` is folded into `ParseFailed`, because reading `null.dependencies` throws inside the same `try` and nothing is pushed.
- A dependency section that is not an object is given as the empty map. Spreading a string or array adds only index keys, and spreading a primitive adds none, so no framework name can appear either way. JSON numbers are given as the `real` that parsing produces; underflow to zero happens inside the parser.
- Logging through `console.error` (lines 111 and 187) has no effect on results.
- `async`: `analyzeRepoStructure` awaits nothing and `detectTechStack` awaits only the probes, so both are modelled as plain functions.
- Characters are Dafny `char`s, not UTF-16 code units. The analyzers compare, slice and count only ASCII characters (`/`, `.`, letters) and the line terminators U+2028 and U+2029 that the env rule's `.` excludes, each of which is one UTF-16 code unit. A character outside the Basic Multilingual Plane is never a line terminator, so `.*` consumes it whether it is one unit or two, and the results agree.
- Tree entries of any type other than `blob` and `tree` (submodule entries of type `commit`, which the listing at src/services/repoAnalyzerService.ts:61 passes through a cast) are outside the modelled input, since src/types/github.ts:3 declares only those two kinds. In the source such an entry would count only toward the depth and the community prefixes.
- `src/services/analyzeRepo.ts` only composes the calls in sequence. The HTTP route, validation, error handler, server and configuration files are plumbing with no analyzer logic.
- `src/__tests__/repoAnalyzerService.test.ts` expects `fetchRepoMetadata` to return a `{name, description, url}` shape. The function (lines 13-24) returns a different shape, so that test says nothing about the modelled functions.
- `Structure.Scenario`: the warning is stated as `Warning(".env")`, and its literal text is stated separately by `Structure.EnvWarningText`.
