/** `sorted_files.sort_by(|a, b| b.modified.cmp(&a.modified))`
    (src/main.rs:154-155): a stable sort putting the newest files first,
    modelled as an insertion sort. */
module Ordering {

  import opened Inventory

  /** Modification times never increase along `s`. */
  predicate NewestFirst(s: seq<FileInfo>) {
    forall i, j :: 0 <= i < j < |s| ==> s[i].modified >= s[j].modified
  }

  /** Inserts `f` in front of the first file no newer than it, so that `f`
      stays ahead of the files with its own timestamp. */
  function Insert(f: FileInfo, s: seq<FileInfo>): (r: seq<FileInfo>)
    requires NewestFirst(s)
    ensures NewestFirst(r)
    ensures multiset(r) == multiset(s) + multiset{f}
    ensures |r| == |s| + 1 && (r[0] == f || (|s| > 0 && r[0] == s[0]))
  {
    if |s| == 0 || f.modified >= s[0].modified then [f] + s
    else
      var tail := Insert(f, s[1..]);
      assert s == [s[0]] + s[1..];
      assert s[0].modified >= tail[0].modified;
      [s[0]] + tail
  }

  /** The files in newest-first order, ties kept in their original order. */
  function SortNewestFirst(files: seq<FileInfo>): (r: seq<FileInfo>)
    ensures NewestFirst(r)
    ensures multiset(r) == multiset(files)
  {
    if |files| == 0 then []
    else
      assert files == [files[0]] + files[1..];
      Insert(files[0], SortNewestFirst(files[1..]))
  }

  /** The files of `s` whose modification time is `t`, in order. */
  function WithModified(s: seq<FileInfo>, t: nat): seq<FileInfo>
  {
    if |s| == 0 then []
    else (if s[0].modified == t then [s[0]] else []) + WithModified(s[1..], t)
  }

  lemma {:induction false} InsertIsStable(f: FileInfo, s: seq<FileInfo>, t: nat)
    requires NewestFirst(s)
    ensures WithModified(Insert(f, s), t) == WithModified([f] + s, t)
  {
    if |s| == 0 || f.modified >= s[0].modified {
    } else {
      var tail := Insert(f, s[1..]);
      InsertIsStable(f, s[1..], t);
      assert ([s[0]] + tail)[1..] == tail;
      assert ([f] + s)[1..] == s;
      assert ([f] + s[1..])[1..] == s[1..];
      assert s == [s[0]] + s[1..];
      assert s[1..] == ([s[0]] + s[1..])[1..];
    }
  }

  /** The sort is stable: for every timestamp, the files carrying it appear
      in the result in the order they had in the input. */
  lemma {:induction false} SortIsStable(files: seq<FileInfo>, t: nat)
    ensures WithModified(SortNewestFirst(files), t) == WithModified(files, t)
  {
    if |files| > 0 {
      var rest := SortNewestFirst(files[1..]);
      SortIsStable(files[1..], t);
      InsertIsStable(files[0], rest, t);
      assert ([files[0]] + rest)[1..] == rest;
    }
  }

  lemma {:induction false} SumSizesInsert(f: FileInfo, s: seq<FileInfo>)
    requires NewestFirst(s)
    ensures SumSizes(Insert(f, s)) == f.size + SumSizes(s)
  {
    if |s| == 0 || f.modified >= s[0].modified {
      SumSizesCons(f, s);
    } else {
      SumSizesInsert(f, s[1..]);
      SumSizesCons(s[0], Insert(f, s[1..]));
      SumSizesCons(s[0], s[1..]);
      assert s == [s[0]] + s[1..];
    }
  }

  /** Sorting neither adds nor loses bytes. */
  lemma {:induction false} SortKeepsTotal(files: seq<FileInfo>)
    ensures SumSizes(SortNewestFirst(files)) == SumSizes(files)
  {
    if |files| > 0 {
      SortKeepsTotal(files[1..]);
      SumSizesInsert(files[0], SortNewestFirst(files[1..]));
      SumSizesCons(files[0], files[1..]);
      assert files == [files[0]] + files[1..];
    }
  }
}
