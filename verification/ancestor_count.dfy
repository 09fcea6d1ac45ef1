/** The counting pass at the start of `process` (src/main.rs:114-127): for
    every file, each ancestor directory strictly inside the scan root gets
    its counter incremented. The map is built and then never read. */
module AncestorCount {

  import opened Paths
  import opened Inventory

  type Counts = map<Path, nat>

  /** The counter for `d`, with `or_insert(0)` for a missing key. */
  function Get(m: Counts, d: Path): nat {
    if d in m then m[d] else 0
  }

  /** The guard of line 118, negated: `d` starts with the root and is not
      the root itself. */
  predicate Tracked(d: Path, root: Path) {
    StartsWith(d, root) && d != root
  }

  /** `*counts.entry(d).or_insert(0) += 1` */
  function Bump(m: Counts, d: Path): (r: Counts)
    ensures d in r && Get(r, d) == Get(m, d) + 1
    ensures forall e :: e != d ==> Get(r, e) == Get(m, e)
    ensures r.Keys == m.Keys + {d}
  {
    m[d := Get(m, d) + 1]
  }

  /** `path.ancestors().skip(1)` restricted to its first `k` items taken
      from the shallow end: visits `path[..k-1]`, `path[..k-2]`, …,
      `path[..0]` and bumps those the guard lets through. */
  function AddAncestors(m: Counts, path: Path, root: Path, k: nat): Counts
    requires k <= |path|
    decreases k
  {
    if k == 0 then m
    else
      var a := path[..k - 1];
      AddAncestors(if Tracked(a, root) then Bump(m, a) else m, path, root, k - 1)
  }

  /** The counter map after the loop over `files` (in order). */
  function CountAncestors(files: seq<FileInfo>, root: Path): (counts: Counts)
    ensures root !in counts
    ensures forall d :: d in counts ==> Tracked(d, root)
  {
    if |files| == 0 then map[]
    else
      var before := CountAncestors(files[..|files| - 1], root);
      var path := files[|files| - 1].path;
      AddAncestorsKeys(before, path, root, |path|);
      AddAncestors(before, path, root, |path|)
  }

  lemma {:induction false} AddAncestorsKeys(m: Counts, path: Path, root: Path, k: nat)
    requires k <= |path|
    ensures AddAncestors(m, path, root, k).Keys
      == m.Keys + set j | 0 <= j < k && Tracked(path[..j], root) :: path[..j]
    decreases k
  {
    if k > 0 {
      var a := path[..k - 1];
      var m' := if Tracked(a, root) then Bump(m, a) else m;
      AddAncestorsKeys(m', path, root, k - 1);
      var below := set j | 0 <= j < k - 1 && Tracked(path[..j], root) :: path[..j];
      var upto := set j | 0 <= j < k && Tracked(path[..j], root) :: path[..j];
      assert upto == below + (if Tracked(a, root) then {a} else {});
    }
  }

  // ---------------------------------------------------------------------
  // Reference: how many files lie below a directory

  /** The number of files of `files` that have `d` as a proper ancestor. */
  function FilesUnder(files: seq<FileInfo>, d: Path): nat
  {
    if |files| == 0 then 0
    else FilesUnder(files[..|files| - 1], d) + (if IsProperAncestor(d, files[|files| - 1].path) then 1 else 0)
  }

  /** One file's pass adds one to exactly the tracked proper ancestors of
      its path, and to nothing else. */
  lemma {:induction false} AddAncestorsCount(m: Counts, path: Path, root: Path, k: nat, d: Path)
    requires k <= |path|
    ensures Get(AddAncestors(m, path, root, k), d)
      == Get(m, d) + (if Tracked(d, root) && |d| < k && IsProperAncestor(d, path) then 1 else 0)
    decreases k
  {
    if k > 0 {
      var a := path[..k - 1];
      var m' := if Tracked(a, root) then Bump(m, a) else m;
      AddAncestorsCount(m', path, root, k - 1, d);
    }
  }

  /** After the pass, the counter of every directory strictly inside the
      root is the number of files below it, and only such directories with
      at least one file below them have a counter. */
  lemma {:induction false} CountsAreFilesUnder(files: seq<FileInfo>, root: Path, d: Path)
    ensures Get(CountAncestors(files, root), d) == (if Tracked(d, root) then FilesUnder(files, d) else 0)
    ensures d in CountAncestors(files, root) <==> Tracked(d, root) && FilesUnder(files, d) > 0
  {
    if |files| > 0 {
      var before := CountAncestors(files[..|files| - 1], root);
      var path := files[|files| - 1].path;
      CountsAreFilesUnder(files[..|files| - 1], root, d);
      AddAncestorsCount(before, path, root, |path|, d);
      AddAncestorsKeys(before, path, root, |path|);
      if d in CountAncestors(files, root) && d !in before {
        var j :| 0 <= j < |path| && Tracked(path[..j], root) && path[..j] == d;
        assert IsProperAncestor(d, path);
      }
    }
  }
}
