/** `process` (src/main.rs:113-177): the ancestor count, the conversion of
    the limit to bytes, the threshold check, the newest-first sort and the
    loop that pops the oldest file until the total fits under the limit.

    Removing a file is the one filesystem call left; its outcome is the
    parameter `removeSucceeds`, read as the answer to the k-th attempt. */
module Eviction {

  import opened Paths
  import opened Inventory
  import opened AncestorCount
  import opened Ordering

  const MiB: nat := 1024 * 1024

  /** One more than the largest `u64`. */
  const U64Limit: nat := 0x1_0000_0000_0000_0000

  /** `max_size_mb * 1024 * 1024`, for limits whose byte count fits a `u64`. */
  function MaxSizeBytes(maxSizeMb: nat): (bytes: nat)
    requires maxSizeMb * MiB < U64Limit
    ensures bytes < U64Limit
    ensures bytes % MiB == 0 && bytes / MiB == maxSizeMb
  {
    maxSizeMb * 1024 * 1024
  }

  /** The files of `attempted` whose removal succeeded, in attempt order. */
  function Removed(attempted: seq<FileInfo>, removeSucceeds: nat -> bool): seq<FileInfo>
  {
    if |attempted| == 0 then []
    else
      var k := |attempted| - 1;
      Removed(attempted[..k], removeSucceeds) + (if removeSucceeds(k) then [attempted[k]] else [])
  }

  /** The loop of lines 157-176: pop the last (oldest) file of `sorted`,
      try to remove it, and subtract its size whether or not the removal
      succeeded, for as long as the total exceeds the limit.

      `attempted` lists the popped files in pop order, `kept` the files
      still on the list, `finalTotal` the last value of `total_size`. */
  method Evict(sorted: seq<FileInfo>, totalSize: nat, maxSizeBytes: nat, removeSucceeds: nat -> bool)
    returns (attempted: seq<FileInfo>, kept: seq<FileInfo>, removed: seq<FileInfo>, finalTotal: nat)
    requires totalSize == SumSizes(sorted)
    ensures Popped(sorted, kept, attempted)
    ensures finalTotal == SumSizes(kept)
    ensures finalTotal + SumSizes(attempted) == totalSize
    ensures finalTotal <= maxSizeBytes
    ensures forall k :: 0 <= k < |attempted| ==> totalSize - SumSizes(attempted[..k]) > maxSizeBytes
    ensures removed == Removed(attempted, removeSucceeds)
  {
    var stack := sorted;
    var total := totalSize;
    attempted := [];
    removed := [];
    while total > maxSizeBytes
      invariant Popped(sorted, stack, attempted)
      invariant total == SumSizes(stack)
      invariant total + SumSizes(attempted) == totalSize
      invariant forall k :: 0 <= k < |attempted| ==> totalSize - SumSizes(attempted[..k]) > maxSizeBytes
      invariant removed == Removed(attempted, removeSucceeds)
      decreases |stack|
    {
      if |stack| == 0 {
        break;
      }
      var file := stack[|stack| - 1];
      PopStep(sorted, stack, attempted);
      PopKeepsAccounts(attempted, file, totalSize, maxSizeBytes);
      stack := stack[..|stack| - 1];
      if removeSucceeds(|attempted|) {
        removed := removed + [file];
      }
      attempted := attempted + [file];
      total := total - file.size;
    }
    kept := stack;
    finalTotal := total;
  }

  /** `stack` is what is left of `sorted` after popping the files of
      `attempted` from its end, in that order. */
  predicate Popped(sorted: seq<FileInfo>, stack: seq<FileInfo>, attempted: seq<FileInfo>) {
    && |stack| + |attempted| == |sorted|
    && stack == sorted[..|stack|]
    && (forall k :: 0 <= k < |attempted| ==> attempted[k] == sorted[|sorted| - 1 - k])
    && multiset(stack) + multiset(attempted) == multiset(sorted)
  }

  /** Popping the last file of `stack` and appending it to the attempts
      keeps `Popped`. */
  lemma PopStep(sorted: seq<FileInfo>, stack: seq<FileInfo>, attempted: seq<FileInfo>)
    requires Popped(sorted, stack, attempted) && |stack| > 0
    ensures Popped(sorted, stack[..|stack| - 1], attempted + [stack[|stack| - 1]])
  {
    var file := stack[|stack| - 1];
    var rest := stack[..|stack| - 1];
    assert stack == rest + [file];
    assert rest == sorted[..|rest|];
    var after := attempted + [file];
    assert multiset(stack) == multiset(rest) + multiset{file};
    assert multiset(after) == multiset(attempted) + multiset{file};
    assert forall k :: 0 <= k < |after| ==> after[k] == sorted[|sorted| - 1 - k] by {
      assert file == sorted[|stack| - 1];
    }
  }

  /** Appending a popped file to the attempts: its size moves from the
      running total to the attempts, and the running total was above the
      limit before each attempt. */
  lemma PopKeepsAccounts(before: seq<FileInfo>, file: FileInfo, totalSize: nat, maxSizeBytes: nat)
    requires forall k :: 0 <= k < |before| ==> totalSize - SumSizes(before[..k]) > maxSizeBytes
    requires totalSize - SumSizes(before) > maxSizeBytes
    ensures SumSizes(before + [file]) == SumSizes(before) + file.size
    ensures forall k :: 0 <= k < |before| + 1 ==> totalSize - SumSizes((before + [file])[..k]) > maxSizeBytes
  {
    var after := before + [file];
    forall k | 0 <= k < |before| + 1
      ensures totalSize - SumSizes(after[..k]) > maxSizeBytes
    {
      if k == |before| {
        assert after[..k] == before;
      } else {
        assert after[..k] == before[..k];
      }
    }
    SumSizesAppend(before, [file]);
  }

  /** Popping from the end of a newest-first list yields the files oldest
      first, and every popped file is no newer than any file left. */
  lemma PopOrderIsOldestFirst(sorted: seq<FileInfo>, attempted: seq<FileInfo>, kept: seq<FileInfo>)
    requires NewestFirst(sorted)
    requires Popped(sorted, kept, attempted)
    ensures forall i, j :: 0 <= i < j < |attempted| ==> attempted[i].modified <= attempted[j].modified
    ensures forall i, j :: 0 <= i < |attempted| && 0 <= j < |kept| ==> attempted[i].modified <= kept[j].modified
  {
  }

  /** What one call of `process` did. */
  datatype ProcessReport = ProcessReport(
    counts: Counts,             // parent_dirs_files_count
    maxSizeBytes: nat,          // max_size_bytes
    cleanup: bool,              // the threshold check let the cleanup run
    attempted: seq<FileInfo>,   // files popped, in removal order
    removed: seq<FileInfo>,     // the attempts that succeeded
    kept: seq<FileInfo>,        // files never popped
    finalTotal: nat)            // total_size when the loop stopped

  /** `process(data, max_size_mb, directory)` */
  method Process(data: ReadDirResult, maxSizeMb: nat, root: Path, removeSucceeds: nat -> bool)
    returns (report: ProcessReport)
    requires Consistent(data)
    requires maxSizeMb * MiB < U64Limit
    // the counter map
    ensures forall d :: Get(report.counts, d) == (if Tracked(d, root) then FilesUnder(data.files, d) else 0)
    ensures root !in report.counts
    ensures forall d :: d in report.counts <==> Tracked(d, root) && FilesUnder(data.files, d) > 0
    // the threshold
    ensures report.maxSizeBytes == MaxSizeBytes(maxSizeMb)
    ensures report.cleanup <==> data.totalSize >= report.maxSizeBytes
    ensures data.totalSize <= report.maxSizeBytes ==> report.attempted == [] && report.finalTotal == data.totalSize
    // what was popped: the files are popped from the end of the stable
    // newest-first sort, so equal timestamps go in reverse scan order
    ensures report.cleanup ==> Popped(SortNewestFirst(data.files), report.kept, report.attempted)
    ensures !report.cleanup ==> report.kept == data.files
    ensures multiset(report.kept) + multiset(report.attempted) == multiset(data.files)
    ensures forall i, j :: 0 <= i < j < |report.attempted| ==> report.attempted[i].modified <= report.attempted[j].modified
    ensures forall i, j :: 0 <= i < |report.attempted| && 0 <= j < |report.kept| ==>
      report.attempted[i].modified <= report.kept[j].modified
    ensures report.removed == Removed(report.attempted, removeSucceeds)
    // the accounting
    ensures report.finalTotal + SumSizes(report.attempted) == data.totalSize
    ensures report.finalTotal == SumSizes(report.kept)
    ensures report.finalTotal <= report.maxSizeBytes
    ensures forall k :: 0 <= k < |report.attempted| ==>
      data.totalSize - SumSizes(report.attempted[..k]) > report.maxSizeBytes
  {
    var counts := CountAncestors(data.files, root);
    forall d
      ensures Get(counts, d) == (if Tracked(d, root) then FilesUnder(data.files, d) else 0)
      ensures d in counts <==> Tracked(d, root) && FilesUnder(data.files, d) > 0
    {
      CountsAreFilesUnder(data.files, root, d);
    }
    var maxSizeBytes := MaxSizeBytes(maxSizeMb);
    if data.totalSize < maxSizeBytes {
      return ProcessReport(counts, maxSizeBytes, false, [], [], data.files, data.totalSize);
    }
    var sorted := SortNewestFirst(data.files);
    SortKeepsTotal(data.files);
    var attempted, kept, removed, finalTotal := Evict(sorted, data.totalSize, maxSizeBytes, removeSucceeds);
    PopOrderIsOldestFirst(sorted, attempted, kept);
    report := ProcessReport(counts, maxSizeBytes, true, attempted, removed, kept, finalTotal);
  }
}
