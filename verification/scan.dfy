/** The recursive scan `read_dir` (src/main.rs:70-111) as a fold over an
    abstract directory tree.

    The filesystem is given as data: each directory is either a listing of
    entries or a listing failure, and each entry records what
    `std::fs::metadata` answered for it. The scan visits the entries of a
    listing in the order given, accumulating files and their byte total;
    a failure to list any directory, or a failing entry of a listing,
    aborts the whole scan. */
module Scan {

  import opened Paths
  import opened Inventory

  /** An `std::io::Error`, reduced to an opaque code. */
  datatype IoError = IoError(code: int)

  datatype Result<T> = Ok(value: T) | Err(error: IoError)

  /** One entry of a directory listing, as the scan sees it. */
  datatype Node =
      /** metadata succeeded and the entry is not a directory */
    | FileNode(name: Name, size: nat, modified: nat)
      /** metadata succeeded and the entry is a directory */
    | DirNode(name: Name, listing: Listing)
      /** `std::fs::metadata` failed: logged and skipped */
    | NoMetadata(name: Name)
      /** the listing iterator itself yielded an error (`entry?`) */
    | BrokenEntry(error: IoError)

  /** What `std::fs::read_dir` answers for one directory. */
  datatype Listing = Listed(entries: seq<Node>) | Unlistable(error: IoError)

  /** `read_dir(path)`: the files below `path` and their byte total, or the
      first error met while listing. */
  function ReadDir(path: Path, listing: Listing): (r: Result<ReadDirResult>)
    ensures r.Ok? ==> Consistent(r.value)
    ensures r.Ok? ==> forall i :: 0 <= i < |r.value.files| ==> IsProperAncestor(path, r.value.files[i].path)
    decreases listing
  {
    match listing
    case Unlistable(e) => Err(e)
    case Listed(entries) => ReadEntries(path, entries, ReadDirResult([], 0))
  }

  /** The loop of `read_dir` over the remaining `entries`, with `acc` the
      files and total accumulated so far. */
  function ReadEntries(path: Path, entries: seq<Node>, acc: ReadDirResult): (r: Result<ReadDirResult>)
    requires Consistent(acc)
    requires forall i :: 0 <= i < |acc.files| ==> IsProperAncestor(path, acc.files[i].path)
    ensures r.Ok? ==> Consistent(r.value)
    ensures r.Ok? ==> forall i :: 0 <= i < |r.value.files| ==> IsProperAncestor(path, r.value.files[i].path)
    decreases entries
  {
    if |entries| == 0 then Ok(acc)
    else
      match entries[0]
      case BrokenEntry(e) => Err(e)
      case NoMetadata(_) => ReadEntries(path, entries[1..], acc)
      case FileNode(name, size, modified) =>
        var f := FileInfo(Join(path, name), size, modified);
        SumSizesAppend(acc.files, [f]);
        ReadEntries(path, entries[1..], ReadDirResult(acc.files + [f], acc.totalSize + size))
      case DirNode(name, sub) =>
        match ReadDir(Join(path, name), sub)
        case Err(e) => Err(e)
        case Ok(items) =>
          SumSizesAppend(acc.files, items.files);
          AncestorsOfSubtree(path, name, items.files);
          ReadEntries(path, entries[1..], ReadDirResult(acc.files + items.files, acc.totalSize + items.totalSize))
  }

  lemma AncestorsOfSubtree(path: Path, name: Name, files: seq<FileInfo>)
    requires forall i :: 0 <= i < |files| ==> IsProperAncestor(Join(path, name), files[i].path)
    ensures forall i :: 0 <= i < |files| ==> IsProperAncestor(path, files[i].path)
  {
  }

  // ---------------------------------------------------------------------
  // Reference definitions: what a tree holds, stated without accumulators

  /** The listing, or some listing below it, fails. */
  predicate ListingFails(listing: Listing)
    decreases listing
  {
    match listing
    case Unlistable(_) => true
    case Listed(entries) => EntriesFail(entries)
  }

  predicate EntriesFail(entries: seq<Node>)
    decreases entries
  {
    |entries| > 0 &&
    match entries[0]
    case BrokenEntry(_) => true
    case DirNode(_, sub) => ListingFails(sub) || EntriesFail(entries[1..])
    case _ => EntriesFail(entries[1..])
  }

  /** The regular files of a tree with readable metadata, in listing order,
      each with its full path. */
  function Files(path: Path, listing: Listing): seq<FileInfo>
    decreases listing
  {
    match listing
    case Unlistable(_) => []
    case Listed(entries) => EntriesFiles(path, entries)
  }

  function EntriesFiles(path: Path, entries: seq<Node>): seq<FileInfo>
    decreases entries
  {
    if |entries| == 0 then []
    else
      var here :=
        match entries[0]
        case FileNode(name, size, modified) => [FileInfo(Join(path, name), size, modified)]
        case DirNode(name, sub) => Files(Join(path, name), sub)
        case _ => [];
      here + EntriesFiles(path, entries[1..])
  }

  // ---------------------------------------------------------------------
  // Properties of the scan

  /** The scan fails exactly when some listing in the tree fails, and when
      it succeeds it lists every readable file of the tree, in order. */
  lemma {:induction false} ReadDirMatchesTree(path: Path, listing: Listing)
    ensures ReadDir(path, listing).Err? <==> ListingFails(listing)
    ensures ReadDir(path, listing).Ok? ==> ReadDir(path, listing).value.files == Files(path, listing)
    decreases listing
  {
    match listing
    case Unlistable(_) =>
    case Listed(entries) =>
      ReadEntriesMatchesTree(path, entries, ReadDirResult([], 0));
  }

  lemma {:induction false} ReadEntriesMatchesTree(path: Path, entries: seq<Node>, acc: ReadDirResult)
    requires Consistent(acc)
    requires forall i :: 0 <= i < |acc.files| ==> IsProperAncestor(path, acc.files[i].path)
    ensures ReadEntries(path, entries, acc).Err? <==> EntriesFail(entries)
    ensures ReadEntries(path, entries, acc).Ok? ==>
      ReadEntries(path, entries, acc).value.files == acc.files + EntriesFiles(path, entries)
    decreases entries
  {
    if |entries| == 0 {
      assert acc.files + [] == acc.files;
    } else {
      var rest := entries[1..];
      match entries[0]
      case BrokenEntry(_) =>
      case NoMetadata(_) =>
        ReadEntriesMatchesTree(path, rest, acc);
      case FileNode(name, size, modified) =>
        FileStepMatchesTree(path, entries, acc);
      case DirNode(name, sub) =>
        ReadDirMatchesTree(Join(path, name), sub);
        if ReadDir(Join(path, name), sub).Ok? {
          DirStepMatchesTree(path, entries, acc);
        }
    }
  }

  lemma {:induction false} FileStepMatchesTree(path: Path, entries: seq<Node>, acc: ReadDirResult)
    requires |entries| > 0 && entries[0].FileNode?
    requires Consistent(acc)
    requires forall i :: 0 <= i < |acc.files| ==> IsProperAncestor(path, acc.files[i].path)
    ensures ReadEntries(path, entries, acc).Err? <==> EntriesFail(entries)
    ensures ReadEntries(path, entries, acc).Ok? ==>
      ReadEntries(path, entries, acc).value.files == acc.files + EntriesFiles(path, entries)
    decreases entries, 0
  {
    var rest := entries[1..];
    var f := FileInfo(Join(path, entries[0].name), entries[0].size, entries[0].modified);
    SumSizesAppend(acc.files, [f]);
    var acc' := ReadDirResult(acc.files + [f], acc.totalSize + f.size);
    assert ReadEntries(path, entries, acc) == ReadEntries(path, rest, acc');
    assert EntriesFiles(path, entries) == [f] + EntriesFiles(path, rest);
    ReadEntriesMatchesTree(path, rest, acc');
    assert acc'.files + EntriesFiles(path, rest) == acc.files + ([f] + EntriesFiles(path, rest));
  }

  lemma {:induction false} DirStepMatchesTree(path: Path, entries: seq<Node>, acc: ReadDirResult)
    requires |entries| > 0 && entries[0].DirNode?
    requires ReadDir(Join(path, entries[0].name), entries[0].listing).Ok?
    requires ReadDir(Join(path, entries[0].name), entries[0].listing).value.files
      == Files(Join(path, entries[0].name), entries[0].listing)
    requires !ListingFails(entries[0].listing)
    requires Consistent(acc)
    requires forall i :: 0 <= i < |acc.files| ==> IsProperAncestor(path, acc.files[i].path)
    ensures ReadEntries(path, entries, acc).Err? <==> EntriesFail(entries)
    ensures ReadEntries(path, entries, acc).Ok? ==>
      ReadEntries(path, entries, acc).value.files == acc.files + EntriesFiles(path, entries)
    decreases entries, 0
  {
    var rest := entries[1..];
    var items := ReadDir(Join(path, entries[0].name), entries[0].listing).value;
    SumSizesAppend(acc.files, items.files);
    AncestorsOfSubtree(path, entries[0].name, items.files);
    var acc' := ReadDirResult(acc.files + items.files, acc.totalSize + items.totalSize);
    assert ReadEntries(path, entries, acc) == ReadEntries(path, rest, acc');
    assert EntriesFiles(path, entries) == items.files + EntriesFiles(path, rest);
    assert EntriesFail(entries) == EntriesFail(rest);
    ReadEntriesMatchesTree(path, rest, acc');
    assert acc'.files + EntriesFiles(path, rest) == acc.files + (items.files + EntriesFiles(path, rest));
  }

  /** The total `read_dir` reports is the sum of the sizes of the files of
      the tree, directories contributing their subtree totals. */
  lemma TotalIsSumOfTree(path: Path, listing: Listing)
    requires ReadDir(path, listing).Ok?
    ensures ReadDir(path, listing).value.totalSize == SumSizes(Files(path, listing))
  {
    ReadDirMatchesTree(path, listing);
  }

  /** An entry whose metadata cannot be read changes nothing: the scan gives
      the same answer as if the entry were not in the listing at all. */
  lemma {:induction false} UnreadableEntrySkipped(path: Path, entries: seq<Node>, k: nat)
    requires k < |entries| && entries[k].NoMetadata?
    ensures ReadDir(path, Listed(entries)) == ReadDir(path, Listed(entries[..k] + entries[k + 1..]))
  {
    SkipInLoop(path, entries, k, ReadDirResult([], 0));
  }

  lemma {:induction false} SkipInLoop(path: Path, entries: seq<Node>, k: nat, acc: ReadDirResult)
    requires k < |entries| && entries[k].NoMetadata?
    requires Consistent(acc)
    requires forall i :: 0 <= i < |acc.files| ==> IsProperAncestor(path, acc.files[i].path)
    ensures ReadEntries(path, entries, acc) == ReadEntries(path, entries[..k] + entries[k + 1..], acc)
    decreases k
  {
    var shorter := entries[..k] + entries[k + 1..];
    if k == 0 {
      assert shorter == entries[1..];
    } else {
      assert shorter[0] == entries[0];
      assert shorter[1..] == entries[1..][..k - 1] + entries[1..][k..];
      match entries[0]
      case BrokenEntry(_) =>
      case NoMetadata(_) =>
        SkipInLoop(path, entries[1..], k - 1, acc);
      case FileNode(name, size, modified) =>
        var f := FileInfo(Join(path, name), size, modified);
        SumSizesAppend(acc.files, [f]);
        SkipInLoop(path, entries[1..], k - 1, ReadDirResult(acc.files + [f], acc.totalSize + size));
      case DirNode(name, sub) =>
        match ReadDir(Join(path, name), sub)
        case Err(_) =>
        case Ok(items) =>
          SumSizesAppend(acc.files, items.files);
          AncestorsOfSubtree(path, name, items.files);
          SkipInLoop(path, entries[1..], k - 1, ReadDirResult(acc.files + items.files, acc.totalSize + items.totalSize));
    }
  }

  /** A listing failure anywhere below the root aborts the whole scan, with
      no partial result. */
  lemma NestedFailureAborts(path: Path, entries: seq<Node>, k: nat)
    requires k < |entries| && entries[k].DirNode? && ListingFails(entries[k].listing)
    ensures ReadDir(path, Listed(entries)).Err?
  {
    ReadDirMatchesTree(path, Listed(entries));
    FailingDirFails(entries, k);
  }

  lemma {:induction false} FailingDirFails(entries: seq<Node>, k: nat)
    requires k < |entries| && entries[k].DirNode? && ListingFails(entries[k].listing)
    ensures EntriesFail(entries)
    decreases k
  {
    if k > 0 {
      FailingDirFails(entries[1..], k - 1);
    }
  }
}
