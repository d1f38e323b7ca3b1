/** The flattened repository tree the analyzers consume: one entry per path,
    tagged as a file (`blob`) or a directory (`tree`). */
module GitTree {
  import opened Text

  datatype Kind = Blob | Tree

  datatype Entry = Entry(path: string, kind: Kind)

  /** Number of `/`-separated segments of a path: one more than the number
      of separators. */
  function Depth(path: string): nat {
    Count(path, '/') + 1
  }

  /** The depth is `path.split('/').length`. */
  lemma DepthIsSplitLength(path: string)
    ensures Depth(path) == |Split(path, '/')|
    ensures Depth(path) >= 1
  {
  }

  /** A single segment is one level deep. */
  lemma DepthOfSegment(segment: string)
    requires '/' !in segment
    ensures Depth(segment) == 1
  {
  }

  /** Appending a `/`-separated segment adds one level. */
  lemma DepthAppendSegment(prefix: string, segment: string)
    requires '/' !in segment
    ensures Depth(prefix + "/" + segment) == Depth(prefix) + 1
  {
    assert multiset(prefix + "/" + segment) == multiset(prefix) + multiset("/") + multiset(segment);
  }

  /** The paths of the entries satisfying `p`, in tree order. */
  function Select(tree: seq<Entry>, p: Entry -> bool): (paths: seq<string>)
    ensures |paths| <= |tree|
  {
    if |tree| == 0 then []
    else (if p(tree[0]) then [tree[0].path] else []) + Select(tree[1..], p)
  }

  /** A path is selected exactly when some entry with that path satisfies `p`. */
  lemma {:induction false} SelectMembers(tree: seq<Entry>, p: Entry -> bool, path: string)
    ensures path in Select(tree, p) <==> exists i :: 0 <= i < |tree| && p(tree[i]) && tree[i].path == path
  {
    if |tree| > 0 {
      SelectMembers(tree[1..], p, path);
      if path in Select(tree[1..], p) {
        var i :| 0 <= i < |tree[1..]| && p(tree[1..][i]) && tree[1..][i].path == path;
        assert p(tree[i + 1]) && tree[i + 1].path == path;
      }
    }
  }

  /** Selection distributes over concatenation, so it keeps tree order. */
  lemma {:induction false} SelectAppend(a: seq<Entry>, b: seq<Entry>, p: Entry -> bool)
    ensures Select(a + b, p) == Select(a, p) + Select(b, p)
  {
    if |a| == 0 {
      assert a + b == b;
    } else {
      SelectAppend(a[1..], b, p);
      assert (a + b)[0] == a[0];
      assert (a + b)[1..] == a[1..] + b;
      var head := if p(a[0]) then [a[0].path] else [];
      calc {
        Select(a + b, p);
        head + Select(a[1..] + b, p);
        head + (Select(a[1..], p) + Select(b, p));
        (head + Select(a[1..], p)) + Select(b, p);
      }
    }
  }

  /** Selecting from a tree extended by one entry extends the selection by
      that entry's path when it satisfies `p`. */
  lemma SelectSnoc(init: seq<Entry>, item: Entry, p: Entry -> bool)
    ensures Select(init + [item], p) == Select(init, p) + (if p(item) then [item.path] else [])
  {
    SelectAppend(init, [item], p);
    assert Select([item], p) == (if p(item) then [item.path] else []) + Select([], p);
  }

  /** When no entry satisfies `p` nothing is selected. */
  lemma {:induction false} SelectNone(tree: seq<Entry>, p: Entry -> bool)
    requires forall i :: 0 <= i < |tree| ==> !p(tree[i])
    ensures Select(tree, p) == []
  {
    if |tree| > 0 {
      SelectNone(tree[1..], p);
    }
  }

  /** `tree.some(p)` */
  function Some(tree: seq<Entry>, p: Entry -> bool): (b: bool)
    ensures b <==> exists i :: 0 <= i < |tree| && p(tree[i])
  {
    if |tree| == 0 then false
    else
      assert forall i :: 1 <= i < |tree| ==> tree[1..][i - 1] == tree[i];
      p(tree[0]) || Some(tree[1..], p)
  }

  /** The set of paths in a tree listing. */
  function PathSet(tree: seq<Entry>): set<string> {
    set i | 0 <= i < |tree| :: tree[i].path
  }

  /** Selection from a three-entry tree, spelled out. */
  lemma SelectThree(a: Entry, b: Entry, c: Entry, p: Entry -> bool)
    ensures Select([a, b, c], p)
         == (if p(a) then [a.path] else []) + (if p(b) then [b.path] else []) + (if p(c) then [c.path] else [])
  {
    SelectAppend([a], [b, c], p);
    SelectAppend([b], [c], p);
    assert [a] + [b, c] == [a, b, c];
    assert [b] + [c] == [b, c];
    assert Select([a], p) == (if p(a) then [a.path] else []) + Select([], p);
    assert Select([b], p) == (if p(b) then [b.path] else []) + Select([], p);
    assert Select([c], p) == (if p(c) then [c.path] else []) + Select([], p);
  }
}
