# maxdirsize, modelled in Dafny

`maxdirsize` is a small daemon that keeps a directory tree under a byte
budget. On every pass it scans the tree (`read_dir`), adds up the sizes of
the files it finds, and if the total exceeds `max_size_mb` it deletes files
oldest-modified first until the total is at or below the limit (`process`).
This project models that engine, all of which lives in `src/main.rs`, as
pure Dafny functions and three methods, and proves what they guarantee.

Modules, following the parts of `src/main.rs`:

- `Paths`: paths as sequences of components. `Path::starts_with` is the
  prefix relation and `Path::ancestors` yields the prefixes.
- `Inventory`: `FileInfo`, `ReadDirResult` and the sum of recorded sizes.
- `Scan`: `read_dir` as a fold over an abstract directory tree. A
  `Listing` is either the entries of a directory or a listing error. Each
  entry is a file with its metadata, a subdirectory, an entry whose
  metadata could not be read, or an error yielded by the listing iterator.
- `AncestorCount`: the `parent_dirs_files_count` map built at the start of
  `process`.
- `Ordering`: the stable newest-first `sort_by`.
- `Eviction`: the conversion of the limit to bytes, the threshold check
  and the pop-and-subtract loop. A removal's outcome is the parameter
  `removeSucceeds`, read as the filesystem's answer to the k-th attempt.
- `Tick`: one pass of the daemon's loop body, which scans and then
  processes the result or skips the pass.

The code keeps no low-water mark and cleans up no directories:

- There is no low-water margin. The loop stops as soon as the total is at
  or below `max_size_bytes` itself.
- No emptied directories are pruned.
- The ancestor count map is built but never read or decremented.

Only the `u64` width of `max_size_bytes` is modelled. The
`max_size_mb * 1024 * 1024` product is required not to overflow. Every
other quantity is an unbounded natural number. The loop's subtraction
`total_size - file.size` is done on `nat`, so the verifier proves it
never underflows.

The `break` on an empty list (src/main.rs:160-162) is kept in `Evict`, but
it is unreachable. The total always equals the sum of the sizes still on the
list, so an empty list means a total of 0, and the loop guard has already
failed.

## Model

| member | source | states |
|---|---|---|
| `Scan.ReadDir` | src/main.rs:70-111 | a successful scan reports a total equal to the sum of the sizes of the files it lists, and every listed path lies strictly below the scanned directory |
| `Scan.ReadEntries` | src/main.rs:74-108 | the loop over one listing keeps the running total equal to the sum of the accumulated sizes, and keeps every accumulated path below the directory |
| `Scan.ReadDirMatchesTree` | src/main.rs:70-111 | the scan fails exactly when some listing anywhere in the tree fails or yields a bad entry, and on success it lists exactly the readable files of the tree, in traversal order |
| `Scan.TotalIsSumOfTree` | src/main.rs:82-96 | the reported total is the sum of the sizes of all readable files of the tree, each subdirectory contributing its subtree total |
| `Scan.UnreadableEntrySkipped` | src/main.rs:78-107 | an entry whose metadata cannot be read leaves the result (files, total or error) exactly as if the entry were absent, and the scan goes on past it |
| `Scan.NestedFailureAborts` | src/main.rs:82 | a listing failure in any nested subdirectory makes the whole scan return an error, with no partial result |
| `AncestorCount.CountAncestors` | src/main.rs:114-127 | the scan root never gets a counter, and every key is a directory strictly inside the root |
| `AncestorCount.AddAncestorsCount` | src/main.rs:117-126 | one file's pass over its ancestors adds exactly one to each proper ancestor strictly inside the root and changes no other counter |
| `AncestorCount.CountsAreFilesUnder` | src/main.rs:114-127 | after the pass, a directory strictly inside the root has a counter exactly when some file lies below it, and the counter equals the number of files below it; directories outside the root have none |
| `Ordering.SortNewestFirst` | src/main.rs:154-155 | the sorted list is a permutation of the files with modification times never increasing |
| `Ordering.SortIsStable` | src/main.rs:155 | for every timestamp, the files carrying it keep their scan order after the sort |
| `Ordering.SortKeepsTotal` | src/main.rs:154-155 | sorting leaves the sum of sizes unchanged, so the scan's total still describes the sorted list |
| `Eviction.MaxSizeBytes` | src/main.rs:129 | the byte limit is a whole number of MiB equal to the configured MB, and fits in a `u64` |
| `Eviction.Evict` | src/main.rs:157-176 | files are popped from the end of the list one by one, and each attempt, failed or not, moves exactly that file's size out of the running total; the total was above the limit before every attempt and is at or below it at the end; the loop never underflows and ends after at most one attempt per file |
| `Eviction.PopOrderIsOldestFirst` | src/main.rs:154-158 | popping from a newest-first list attempts removals in non-decreasing modification order, and no file left behind is older than any file attempted |
| `Eviction.Process` | src/main.rs:113-177 | the counter map counts files below each directory strictly inside the root; below the limit (and at exactly the limit) nothing is attempted; otherwise the attempts are the files popped from the end of the stable newest-first sort, so they run oldest first and, among equal timestamps, later-scanned first; stop at the first point the total is at or below the limit, and account every attempted file's size whether its removal succeeded or not |
| `Tick.RunOnce` | src/main.rs:45-53 | a pass is skipped exactly when some listing of the tree fails; otherwise the tree's readable files are processed against the configured limit in bytes: cleanup runs exactly when their total is at or above it, nothing is attempted otherwise, the attempts are popped from the end of the stable newest-first sort of those files, popping stops at the first point the total is at or below the limit, the removed files are the attempts that succeeded, the counters count files below each directory strictly inside the root and only such directories with a file below them have one, and the final total is within the limit |

## Left out

- `main`'s configuration loading through `envy` (src/main.rs:21), the startup banner, coloured logging and the endless loop with `thread::sleep` (src/main.rs:18-57) are process glue, not engine logic; only one pass of the loop body is modelled.
- The filesystem calls `std::fs::read_dir`, `std::fs::metadata` and `std::fs::remove_file` are replaced by the input tree and the `removeSucceeds` parameter. Whether an entry is a directory is what `metadata` answered. Symbolic links are followed or not as that answer says.
- The timestamp panics of src/main.rs:88-95 (`created().expect(...)`, `duration_since(UNIX_EPOCH).unwrap()`) are not modelled: a file's `modified` is given as a natural number of seconds.
- The floating-point `total_size_mb` (src/main.rs:132) and all log messages are left out, because they only feed log text.
- Rust's path normalisation inside `Path::starts_with` and `Path::ancestors` (repeated separators, `.` components) is not modelled: paths are already component sequences.
- `Scan.ReadDir`: the `u64` additions `total_size += ...` (src/main.rs:84, 86) are modelled on unbounded naturals, so a tree whose total exceeds 2^64 - 1 bytes is not modelled.
- `Eviction.MaxSizeBytes`: requires `max_size_mb * 1024 * 1024` to fit in a `u64`. The wrap-around (release build) or panic (debug build) for larger limits is not modelled.
- `Ordering.SortNewestFirst`: Rust's `sort_by` is a merge sort. It is modelled as an insertion sort. Both are stable sorts under the same comparator, so they produce the same list.
