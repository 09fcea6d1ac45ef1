/** One pass of the daemon's loop body (src/main.rs:45-53): scan the root,
    then either process the result or, if the scan failed, skip the pass. */
module Tick {

  import opened Paths
  import opened Inventory
  import opened Scan
  import opened AncestorCount
  import opened Ordering
  import opened Eviction

  datatype TickOutcome = ScanFailed(error: IoError) | Processed(report: ProcessReport)

  method RunOnce(root: Path, tree: Listing, maxSizeMb: nat, removeSucceeds: nat -> bool)
    returns (outcome: TickOutcome)
    requires maxSizeMb * MiB < U64Limit
    ensures outcome.ScanFailed? <==> ListingFails(tree)
    ensures outcome.Processed? ==>
      multiset(outcome.report.kept) + multiset(outcome.report.attempted) == multiset(Files(root, tree))
    ensures outcome.Processed? ==>
      outcome.report.finalTotal + SumSizes(outcome.report.attempted) == SumSizes(Files(root, tree))
    ensures outcome.Processed? ==> outcome.report.finalTotal <= outcome.report.maxSizeBytes
    ensures outcome.Processed? ==> outcome.report.maxSizeBytes == MaxSizeBytes(maxSizeMb)
    ensures outcome.Processed? ==>
      (outcome.report.cleanup <==> SumSizes(Files(root, tree)) >= outcome.report.maxSizeBytes)
    ensures outcome.Processed? && !outcome.report.cleanup ==>
      outcome.report.attempted == [] && outcome.report.kept == Files(root, tree)
    ensures outcome.Processed? && outcome.report.cleanup ==>
      Popped(SortNewestFirst(Files(root, tree)), outcome.report.kept, outcome.report.attempted)
    ensures outcome.Processed? ==> forall d ::
      Get(outcome.report.counts, d) == (if Tracked(d, root) then FilesUnder(Files(root, tree), d) else 0)
    ensures outcome.Processed? ==> root !in outcome.report.counts
    ensures outcome.Processed? ==> forall d ::
      d in outcome.report.counts <==> Tracked(d, root) && FilesUnder(Files(root, tree), d) > 0
    ensures outcome.Processed? ==> outcome.report.removed == Removed(outcome.report.attempted, removeSucceeds)
    ensures outcome.Processed? ==> outcome.report.finalTotal == SumSizes(outcome.report.kept)
    ensures outcome.Processed? ==> forall k :: 0 <= k < |outcome.report.attempted| ==>
      SumSizes(Files(root, tree)) - SumSizes(outcome.report.attempted[..k]) > outcome.report.maxSizeBytes
  {
    ReadDirMatchesTree(root, tree);
    match ReadDir(root, tree)
    case Err(e) =>
      outcome := ScanFailed(e);
    case Ok(data) =>
      var report := Process(data, maxSizeMb, root, removeSucceeds);
      outcome := Processed(report);
  }
}
