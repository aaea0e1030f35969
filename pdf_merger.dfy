/**
 * The PDF merger page: the ordered list of files to merge, moved about by
 * `reorderFiles`, `moveFileUp` and `moveFileDown`, the guard that refuses a
 * merge of fewer than two files, and the reset when a new selection
 * arrives.
 */
module PdfMerger {
  import opened Wrappers
  import opened JsArray
  import opened BrowserFile

  /** The name of the merged document. */
  const MergedName := "merged.pdf"

  /** The page needs at least this many files to merge. */
  const MinFiles: nat := 2

  datatype MergeError = TooFewFiles | MergeFailed

  /** `reorderFiles(from, to)`: take out the file at `from`, then insert it
      at `to` of the shortened list (with `splice`'s index clamping). */
  function Reordered(files: seq<File>, from: nat, to: int): seq<File>
    requires from < |files|
  {
    var removed := files[from];
    var shorter := Splice(files, from, 1, []);
    Splice(shorter, to, 0, [removed])
  }

  /** `moveFileUp(index)` */
  function MovedUp(files: seq<File>, index: nat): seq<File>
    requires index < |files|
  {
    if index > 0 then Reordered(files, index, index - 1) else files
  }

  /** `moveFileDown(index)` */
  function MovedDown(files: seq<File>, index: nat): seq<File>
    requires index < |files|
  {
    if index < |files| - 1 then Reordered(files, index, index + 1) else files
  }

  /** The files without the one at `i`, in order. */
  function Without(files: seq<File>, i: nat): seq<File>
    requires i < |files|
  {
    files[..i] + files[i + 1..]
  }

  /** The shortened list and the position the file is put back at. */
  lemma ReorderedSteps(files: seq<File>, from: nat, to: int)
    requires from < |files|
    ensures var shorter := Without(files, from);
      var t := SpliceStart(|files| - 1, to);
      Reordered(files, from, to) == shorter[..t] + [files[from]] + shorter[t..]
  {
    var shorter := Splice(files, from, 1, []);
    SpliceRemoveOne(files, from);
    var t := SpliceStart(|shorter|, to);
    assert Splice(shorter, to, 0, [files[from]]) == Splice(shorter, t, 0, [files[from]]);
    SpliceInsert(shorter, t, files[from]);
  }

  /** The moved file lands at `to` (clamped to the shortened list) and the
      others keep their relative order. */
  lemma ReorderedPlace(files: seq<File>, from: nat, to: int)
    requires from < |files|
    ensures var r := Reordered(files, from, to);
      var t := SpliceStart(|files| - 1, to);
      |r| == |files| && r[t] == files[from] && Without(r, t) == Without(files, from)
  {
    ReorderedSteps(files, from, to);
    var shorter := Without(files, from);
    var t := SpliceStart(|files| - 1, to);
    var r := Reordered(files, from, to);
    assert r[..t] == shorter[..t];
    assert r[t + 1..] == shorter[t..];
    assert shorter[..t] + shorter[t..] == shorter;
  }

  /** Reordering keeps the multiset of files: the result is a permutation. */
  lemma ReorderedPermutation(files: seq<File>, from: nat, to: int)
    requires from < |files|
    ensures multiset(Reordered(files, from, to)) == multiset(files)
  {
    ReorderedSteps(files, from, to);
    var shorter := Without(files, from);
    var t := SpliceStart(|files| - 1, to);
    var x := files[from];
    assert Reordered(files, from, to) == shorter[..t] + [x] + shorter[t..];
    assert multiset(shorter) == multiset(files[..from]) + multiset(files[from + 1..]);
    assert shorter == shorter[..t] + shorter[t..];
    assert multiset(shorter[..t] + [x] + shorter[t..]) == multiset(shorter[..t]) + multiset{x} + multiset(shorter[t..]);
    assert multiset(shorter) == multiset(shorter[..t]) + multiset(shorter[t..]);
    assert files == files[..from] + [x] + files[from + 1..];
    assert multiset(files) == multiset(files[..from]) + multiset{x} + multiset(files[from + 1..]);
    assert multiset(Reordered(files, from, to)) == multiset(shorter) + multiset{x};
  }

  /** Exchanging two neighbours, written as slices and as updates. */
  lemma SwapNeighbours(files: seq<File>, i: nat)
    requires i + 1 < |files|
    ensures files[..i] + [files[i + 1]] + [files[i]] + files[i + 2..] ==
            files[i := files[i + 1]][i + 1 := files[i]]
  {
  }

  /** Putting file `i + 1` back in front of file `i`. */
  lemma ReorderedNeighbours(files: seq<File>, i: nat)
    requires i + 1 < |files|
    ensures Reordered(files, i + 1, i) == files[..i] + [files[i + 1]] + [files[i]] + files[i + 2..]
    ensures Reordered(files, i, i + 1) == files[..i] + [files[i + 1]] + [files[i]] + files[i + 2..]
  {
    ReorderedSteps(files, i + 1, i);
    var up := Without(files, i + 1);
    assert up[..i] == files[..i];
    assert up[i..] == [files[i]] + files[i + 2..];
    ReorderedSteps(files, i, i + 1);
    var down := Without(files, i);
    assert down[..i + 1] == files[..i] + [files[i + 1]];
    assert down[i + 1..] == files[i + 2..];
  }

  /** Moving up swaps the file with its predecessor and changes nothing else;
      the first file does not move. */
  lemma MovedUpFacts(files: seq<File>, index: nat)
    requires index < |files|
    ensures index == 0 ==> MovedUp(files, index) == files
    ensures index > 0 ==> MovedUp(files, index) == files[index - 1 := files[index]][index := files[index - 1]]
  {
    if index > 0 {
      ReorderedNeighbours(files, index - 1);
      SwapNeighbours(files, index - 1);
    }
  }

  /** Moving down swaps the file with its successor and changes nothing else;
      the last file does not move. */
  lemma MovedDownFacts(files: seq<File>, index: nat)
    requires index < |files|
    ensures index == |files| - 1 ==> MovedDown(files, index) == files
    ensures index < |files| - 1 ==> MovedDown(files, index) == files[index := files[index + 1]][index + 1 := files[index]]
  {
    if index < |files| - 1 {
      ReorderedNeighbours(files, index);
      SwapNeighbours(files, index);
    }
  }

  /** Moving a file up and then moving it back down restores the list. */
  lemma UpThenDown(files: seq<File>, index: nat)
    requires 0 < index < |files|
    ensures MovedDown(MovedUp(files, index), index - 1) == files
  {
    MovedUpFacts(files, index);
    MovedDownFacts(MovedUp(files, index), index - 1);
  }

  /** The page's state. */
  class Merger {
    var files: seq<File>
    var processedFile: Option<string>
    var error: Option<MergeError>

    /** A merged document exists only for a list of at least two files. */
    ghost predicate Valid()
      reads this
    {
      processedFile != None ==> |files| >= MinFiles
    }

    constructor()
      ensures files == [] && processedFile == None && error == None
      ensures Valid()
    {
      files := [];
      processedFile := None;
      error := None;
    }

    /** `handleFileSelect`: the new list replaces the old one and the merged
        document and the error are cleared. */
    method HandleFileSelect(selectedFiles: seq<File>)
      modifies this
      ensures files == selectedFiles && processedFile == None && error == None
      ensures Valid()
    {
      files := selectedFiles;
      processedFile := None;
      error := None;
    }

    /** `handleMerge`, where `mergeSucceeds` stands for whether `mergePDFs`
        resolved. */
    method HandleMerge(mergeSucceeds: bool)
      requires Valid()
      modifies this
      ensures Valid()
      ensures files == old(files)
      ensures |files| < MinFiles ==> error == Some(TooFewFiles) && processedFile == old(processedFile)
      ensures |files| >= MinFiles && mergeSucceeds ==> error == None && processedFile == Some(MergedName)
      ensures |files| >= MinFiles && !mergeSucceeds ==>
        error == Some(MergeFailed) && processedFile == old(processedFile)
    {
      if |files| < 2 {
        error := Some(TooFewFiles);
        return;
      }
      error := None;
      if mergeSucceeds {
        processedFile := Some(MergedName);
      } else {
        error := Some(MergeFailed);
      }
    }

    /** `reorderFiles` on a file of the list. */
    method ReorderFiles(fromIndex: nat, toIndex: int)
      requires Valid()
      requires fromIndex < |files|
      modifies this
      ensures Valid()
      ensures files == Reordered(old(files), fromIndex, toIndex)
      ensures processedFile == old(processedFile) && error == old(error)
    {
      var newFiles := files;
      var removed := newFiles[fromIndex];
      newFiles := Splice(newFiles, fromIndex, 1, []);
      newFiles := Splice(newFiles, toIndex, 0, [removed]);
      files := newFiles;
    }

    /** `moveFileUp(index)` */
    method MoveFileUp(index: nat)
      requires Valid()
      requires index < |files|
      modifies this
      ensures Valid()
      ensures files == MovedUp(old(files), index)
      ensures processedFile == old(processedFile) && error == old(error)
    {
      if index > 0 {
        ReorderFiles(index, index - 1);
      }
    }

    /** `moveFileDown(index)` */
    method MoveFileDown(index: nat)
      requires Valid()
      requires index < |files|
      modifies this
      ensures Valid()
      ensures files == MovedDown(old(files), index)
      ensures processedFile == old(processedFile) && error == old(error)
    {
      if index < |files| - 1 {
        ReorderFiles(index, index + 1);
      }
    }
  }
}
