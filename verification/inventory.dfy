/** The records `read_dir` produces: one `FileInfo` per regular file found
    and a `ReadDirResult` holding them with their byte total. */
module Inventory {

  import opened Paths

  /** One file found by the scan: its path, its length in bytes and its
      modification time in whole seconds since the Unix epoch. */
  datatype FileInfo = FileInfo(path: Path, size: nat, modified: nat)

  datatype ReadDirResult = ReadDirResult(files: seq<FileInfo>, totalSize: nat)

  /** The sum of the recorded sizes of `files`. */
  function SumSizes(files: seq<FileInfo>): nat
  {
    if |files| == 0 then 0 else SumSizes(files[..|files| - 1]) + files[|files| - 1].size
  }

  /** The invariant `read_dir` establishes: the running total is the sum of
      the sizes of the files it lists. */
  predicate Consistent(r: ReadDirResult) {
    r.totalSize == SumSizes(r.files)
  }

  lemma {:induction false} SumSizesAppend(a: seq<FileInfo>, b: seq<FileInfo>)
    ensures SumSizes(a + b) == SumSizes(a) + SumSizes(b)
    decreases |b|
  {
    if |b| == 0 {
      assert a + b == a;
    } else {
      var b' := b[..|b| - 1];
      assert (a + b)[..|a + b| - 1] == a + b';
      SumSizesAppend(a, b');
    }
  }

  lemma SumSizesCons(f: FileInfo, s: seq<FileInfo>)
    ensures SumSizes([f] + s) == f.size + SumSizes(s)
  {
    SumSizesAppend([f], s);
    assert [f][..0] == [];
  }
}
