/** The community health scorer: a fixed checklist of five paths, each marked
    present when some entry of the tree, file or directory, has it as a prefix;
    the checklist is then split into present and missing keys in declaration
    order, and the score is the number of present keys. */
module Community {
  import opened Text
  import opened GitTree
  import opened Sequences

  /** The keys of the checklist record, in declaration order. */
  const Checklist: seq<string> := [
    "README.md",
    ".github/CONTRIBUTING.md",
    ".github/CODE_OF_CONDUCT.md",
    ".github/ISSUE_TEMPLATE",
    ".github/PULL_REQUEST_TEMPLATE.md"
  ]

  datatype CommunityHealth = CommunityHealth(
    communityHealthScore: nat,
    presentFiles: seq<string>,
    missingFiles: seq<string>)

  /** Some entry, of either kind, has `key` as a prefix of its path. */
  predicate IsPresent(tree: seq<Entry>, key: string) {
    exists i :: 0 <= i < |tree| && StartsWith(tree[i].path, key)
  }

  /** Record keys are distinct; here the five lengths already differ. */
  lemma ChecklistNoDup()
    ensures NoDup(Checklist)
  {
    assert |Checklist[0]| == 9 && |Checklist[1]| == 23 && |Checklist[2]| == 26;
    assert |Checklist[3]| == 22 && |Checklist[4]| == 32;
  }

  /** The inner loop over the keys for one path: a key already marked stays
      marked, and a key that prefixes `path` becomes marked. */
  function Mark(flags: seq<bool>, keys: seq<string>, path: string): (r: seq<bool>)
    requires |flags| == |keys|
    ensures |r| == |keys|
  {
    seq(|keys|, k requires 0 <= k < |keys| => flags[k] || StartsWith(path, keys[k]))
  }

  /** The flags after the outer loop has visited every entry of `tree`,
      starting from all keys unmarked: exactly the keys some path starts with. */
  function Flags(tree: seq<Entry>, keys: seq<string>): (flags: seq<bool>)
    ensures |flags| == |keys|
    ensures forall k :: 0 <= k < |keys| ==> (flags[k] <==> IsPresent(tree, keys[k]))
  {
    if |tree| == 0 then seq(|keys|, k => false)
    else
      var init, item := tree[..|tree| - 1], tree[|tree| - 1];
      var prev := Flags(init, keys);
      assert forall k :: 0 <= k < |keys| ==>
        (IsPresent(tree, keys[k]) <==> IsPresent(init, keys[k]) || StartsWith(item.path, keys[k])) by {
        assert forall i :: 0 <= i < |init| ==> tree[i] == init[i];
      }
      Mark(prev, keys, item.path)
  }

  /** Number of set flags. */
  function CountTrue(flags: seq<bool>): nat {
    if |flags| == 0 then 0 else CountTrue(flags[..|flags| - 1]) + (if flags[|flags| - 1] then 1 else 0)
  }

  /** `present` and `missing` split `keys` by `flags`, each in key order. */
  predicate Splits(keys: seq<string>, flags: seq<bool>, present: seq<string>, missing: seq<string>)
    requires |flags| == |keys|
  {
    && |present| + |missing| == |keys|
    && |present| == CountTrue(flags)
    && (forall k :: 0 <= k < |keys| ==> (keys[k] in present <==> flags[k]))
    && (forall k :: 0 <= k < |keys| ==> (keys[k] in missing <==> !flags[k]))
    && InOrderOf(present, keys) && InOrderOf(missing, keys)
  }

  /** Appending a key that was not there before keeps a list of earlier
      keys in key order. */
  lemma InOrderOfSnoc(xs: seq<string>, init: seq<string>, key: string)
    requires InOrderOf(xs, init) && key !in init
    ensures InOrderOf(xs, init + [key])
    ensures InOrderOf(xs + [key], init + [key])
  {
    FirstIndexSnoc(init, key);
    var ys := xs + [key];
    forall i | 0 <= i < |xs|
      ensures FirstIndex(init + [key], ys[i]) < FirstIndex(init + [key], key)
    {
      assert ys[i] == xs[i];
    }
  }

  /** One iteration of the partition loop. */
  lemma SplitsStep(init: seq<string>, key: string, flags: seq<bool>, flag: bool, present: seq<string>, missing: seq<string>)
    requires |flags| == |init| && key !in init
    requires Splits(init, flags, present, missing)
    ensures flag ==> Splits(init + [key], flags + [flag], present + [key], missing)
    ensures !flag ==> Splits(init + [key], flags + [flag], present, missing + [key])
  {
    var keys := init + [key];
    assert (flags + [flag])[..|flags|] == flags;
    assert forall k :: 0 <= k < |init| ==> keys[k] == init[k];
    InOrderOfSnoc(present, init, key);
    InOrderOfSnoc(missing, init, key);
  }

  /** The loop over the record's entries: each key is pushed onto the present
      or the missing list according to its flag. */
  function Partition(keys: seq<string>, flags: seq<bool>): (r: (seq<string>, seq<string>))
    requires |flags| == |keys| && NoDup(keys)
    ensures Splits(keys, flags, r.0, r.1)
  {
    if |keys| == 0 then ([], [])
    else
      var n := |keys| - 1;
      var init, key := keys[..n], keys[n];
      assert keys == init + [key];
      assert flags == flags[..n] + [flags[n]];
      var prev := Partition(init, flags[..n]);
      SplitsStep(init, key, flags[..n], flags[n], prev.0, prev.1);
      if flags[n] then (prev.0 + [key], prev.1) else (prev.0, prev.1 + [key])
  }

  /** `analyzeCommunityHealth` */
  function AnalyzeCommunityHealth(tree: seq<Entry>): (h: CommunityHealth)
    ensures h.communityHealthScore == |h.presentFiles| <= |Checklist|
    ensures |h.presentFiles| + |h.missingFiles| == |Checklist|
    ensures forall k :: 0 <= k < |Checklist| ==> (Checklist[k] in h.presentFiles <==> IsPresent(tree, Checklist[k]))
    ensures forall k :: 0 <= k < |Checklist| ==> (Checklist[k] in h.missingFiles <==> !IsPresent(tree, Checklist[k]))
    ensures InOrderOf(h.presentFiles, Checklist) && InOrderOf(h.missingFiles, Checklist)
  {
    ChecklistNoDup();
    var r := Partition(Checklist, Flags(tree, Checklist));
    CommunityHealth(|r.0|, r.0, r.1)
  }

  /** With no flag set the count is zero. */
  lemma {:induction false} CountTrueNone(flags: seq<bool>)
    requires forall k :: 0 <= k < |flags| ==> !flags[k]
    ensures CountTrue(flags) == 0
  {
    if |flags| > 0 {
      CountTrueNone(flags[..|flags| - 1]);
    }
  }

  /** Setting more flags never lowers the count. */
  lemma {:induction false} CountTrueMonotone(f1: seq<bool>, f2: seq<bool>)
    requires |f1| == |f2|
    requires forall k :: 0 <= k < |f1| ==> (f1[k] ==> f2[k])
    ensures CountTrue(f1) <= CountTrue(f2)
  {
    if |f1| > 0 {
      CountTrueMonotone(f1[..|f1| - 1], f2[..|f2| - 1]);
    }
  }

  /** The score counts the checklist keys that are present. */
  lemma ScoreCountsFlags(tree: seq<Entry>)
    ensures AnalyzeCommunityHealth(tree).communityHealthScore == CountTrue(Flags(tree, Checklist))
  {
    ChecklistNoDup();
  }

  /** An empty tree scores 0 and misses every key, in declaration order. */
  lemma EmptyTreeHealth()
    ensures AnalyzeCommunityHealth([]) == CommunityHealth(0, [], Checklist)
  {
    var h := AnalyzeCommunityHealth([]);
    ScoreCountsFlags([]);
    CountTrueNone(Flags([], Checklist));
    ChecklistNoDup();
    InOrderOfAll(h.missingFiles, Checklist);
  }

  /** Every key is present when the score is full, and every key is missing
      when it is zero. */
  lemma ScoreExtremes(tree: seq<Entry>)
    ensures var h := AnalyzeCommunityHealth(tree);
      h.communityHealthScore == |Checklist| <==> h.presentFiles == Checklist && h.missingFiles == []
    ensures var h := AnalyzeCommunityHealth(tree);
      h.communityHealthScore == 0 <==> h.presentFiles == [] && h.missingFiles == Checklist
  {
    var h := AnalyzeCommunityHealth(tree);
    ChecklistNoDup();
    if h.communityHealthScore == |Checklist| {
      InOrderOfAll(h.presentFiles, Checklist);
    }
    if h.communityHealthScore == 0 {
      InOrderOfAll(h.missingFiles, Checklist);
    }
  }

  /** Only the set of paths matters: order, repetition and entry kinds do not. */
  lemma PathSetDetermines(t1: seq<Entry>, t2: seq<Entry>)
    requires PathSet(t1) == PathSet(t2)
    ensures AnalyzeCommunityHealth(t1) == AnalyzeCommunityHealth(t2)
  {
    var f1, f2 := Flags(t1, Checklist), Flags(t2, Checklist);
    forall k | 0 <= k < |Checklist|
      ensures f1[k] == f2[k]
    {
      if IsPresent(t1, Checklist[k]) {
        var i :| 0 <= i < |t1| && StartsWith(t1[i].path, Checklist[k]);
        assert t1[i].path in PathSet(t2);
      }
      if IsPresent(t2, Checklist[k]) {
        var j :| 0 <= j < |t2| && StartsWith(t2[j].path, Checklist[k]);
        assert t2[j].path in PathSet(t1);
      }
    }
    assert f1 == f2;
  }

  /** Adding entries never removes a present key, so the score never drops. */
  lemma AppendMonotone(tree: seq<Entry>, more: seq<Entry>)
    ensures forall k :: 0 <= k < |Checklist| && Checklist[k] in AnalyzeCommunityHealth(tree).presentFiles ==>
      Checklist[k] in AnalyzeCommunityHealth(tree + more).presentFiles
    ensures AnalyzeCommunityHealth(tree).communityHealthScore <= AnalyzeCommunityHealth(tree + more).communityHealthScore
  {
    var f1, f2 := Flags(tree, Checklist), Flags(tree + more, Checklist);
    forall k | 0 <= k < |Checklist| && IsPresent(tree, Checklist[k])
      ensures IsPresent(tree + more, Checklist[k])
    {
      var i :| 0 <= i < |tree| && StartsWith(tree[i].path, Checklist[k]);
      assert (tree + more)[i] == tree[i];
    }
    CountTrueMonotone(f1, f2);
    ScoreCountsFlags(tree);
    ScoreCountsFlags(tree + more);
  }

  /** Keys are matched by prefix and regardless of kind: a backup of the
      readme counts as the readme, and a directory of issue templates counts. */
  lemma PrefixMatchExample(tree: seq<Entry>)
    requires tree == [Entry("README.md.bak", Blob), Entry(".github/ISSUE_TEMPLATE", Tree)]
    ensures "README.md" in AnalyzeCommunityHealth(tree).presentFiles
    ensures ".github/ISSUE_TEMPLATE" in AnalyzeCommunityHealth(tree).presentFiles
  {
    assert StartsWith(tree[0].path, Checklist[0]);
    assert StartsWith(tree[1].path, Checklist[3]);
  }
}
