/**
 * The upload component: validation of a batch of files against the
 * accepted types, the size limit and the count limit, and the selection
 * list it keeps (append in multiple mode, replace in single mode, remove by
 * index).
 */
module FileUpload {
  import opened Wrappers
  import opened JsString
  import opened JsArray
  import opened BrowserFile

  /** The defaults of the component's optional properties. */
  const DefaultMaxFileSize: nat := 100
  const DefaultMaxFiles: nat := 10
  const DefaultMultiple: bool := false

  const BytesPerMB: nat := 1024 * 1024

  /** The three messages validation can show. */
  datatype UploadError =
    | TooManyFiles(maxFiles: nat)
    | TypeNotAccepted(acceptedFileTypes: string)
    | TooLarge(maxFileSize: nat)

  // ---------------------------------------------------------------
  // The accept test
  // ---------------------------------------------------------------

  /** `acceptedFileTypes.split(',').map(type => type.trim())` */
  function AcceptedTypes(accept: string): seq<string> {
    var pieces := SplitAt(accept, ',');
    seq(|pieces|, i requires 0 <= i < |pieces| => Trim(pieces[i]))
  }

  /** There is one entry more than there are commas; no entry holds a comma
      or starts or ends with whitespace. */
  lemma AcceptedTypesFacts(accept: string)
    ensures |AcceptedTypes(accept)| == multiset(accept)[','] + 1
    ensures forall i :: 0 <= i < |AcceptedTypes(accept)| ==>
      ',' !in AcceptedTypes(accept)[i] && Trim(AcceptedTypes(accept)[i]) == AcceptedTypes(accept)[i]
  {
    var pieces := SplitAt(accept, ',');
    SplitAtCount(accept, ',');
    forall i | 0 <= i < |pieces|
      ensures ',' !in Trim(pieces[i]) && Trim(Trim(pieces[i])) == Trim(pieces[i])
    {
      TrimFacts(pieces[i]);
    }
  }

  /** `` `.${name.split('.').pop()?.toLowerCase()}` `` */
  function Extension(name: string): string {
    "." + LowerString(LastPiece(name, '.'))
  }

  /** One accept entry against one file: by extension, by MIME group, or by
      exact MIME type. */
  predicate MatchesType(entry: string, f: File) {
    if StartsWith(entry, ".") then Extension(f.name) == entry
    else if Includes(entry, "/*") then StartsWith(f.mime, SplitAt(entry, '/')[0] + "/")
    else f.mime == entry
  }

  /** `acceptedTypes.some(...)` */
  predicate IsAcceptedType(accept: string, f: File) {
    var types := AcceptedTypes(accept);
    exists i :: 0 <= i < |types| && MatchesType(types[i], f)
  }

  /** `!(file.size > maxFileSize * 1024 * 1024)` */
  predicate WithinSizeLimit(f: File, maxFileSize: nat) {
    f.size <= maxFileSize * BytesPerMB
  }

  /** What the loop body decides for one file: the type test first, then the
      size test. */
  function Verdict(accept: string, maxFileSize: nat, f: File): (v: Option<UploadError>)
    ensures v == None <==> IsAcceptedType(accept, f) && WithinSizeLimit(f, maxFileSize)
  {
    if !IsAcceptedType(accept, f) then Some(TypeNotAccepted(accept))
    else if !WithinSizeLimit(f, maxFileSize) then Some(TooLarge(maxFileSize))
    else None
  }

  // ---------------------------------------------------------------
  // Validation of a batch
  // ---------------------------------------------------------------

  /** The per-file verdict of a component with these properties. */
  function Check(accept: string, maxFileSize: nat): File -> Option<UploadError> {
    f => Verdict(accept, maxFileSize, f)
  }

  /** The files the loop pushes into `validFiles`, given the verdict on each. */
  function ValidFiles(files: seq<File>, verdict: File -> Option<UploadError>): (r: seq<File>)
    ensures |r| <= |files|
    ensures forall i :: 0 <= i < |r| ==> verdict(r[i]) == None
    decreases |files|
  {
    if files == [] then []
    else
      var front := ValidFiles(files[..|files| - 1], verdict);
      var f := files[|files| - 1];
      if verdict(f) == None then front + [f] else front
  }

  /** `errorMsg` after the loop: the message of the last rejected file, or
      none when every file passed. */
  function LoopError(files: seq<File>, verdict: File -> Option<UploadError>): Option<UploadError>
    decreases |files|
  {
    if files == [] then None
    else
      var v := verdict(files[|files| - 1]);
      if v != None then v else LoopError(files[..|files| - 1], verdict)
  }

  /** The batch breaks the count limit together with the current selection. */
  predicate TooMany(selected: seq<File>, files: seq<File>, maxFiles: nat) {
    |files| + |selected| > maxFiles
  }

  /** The files `validateFiles` returns. */
  function Accepted(accept: string, maxFileSize: nat, maxFiles: nat,
                    selected: seq<File>, files: seq<File>): seq<File> {
    if TooMany(selected, files, maxFiles) then [] else ValidFiles(files, Check(accept, maxFileSize))
  }

  /** The error state after `validateFiles` as the component writes it: the
      early `return` for too many files skips `setError`, so the error shown
      stays whatever it was. */
  function ErrorAfterAsWritten(accept: string, maxFileSize: nat, maxFiles: nat,
                               selected: seq<File>, files: seq<File>,
                               current: Option<UploadError>): Option<UploadError> {
    if TooMany(selected, files, maxFiles) then current
    else LoopError(files, Check(accept, maxFileSize))
  }

  /** The error state after `validateFiles` once the count-limit message is
      passed to `setError` like the others. */
  function ErrorAfter(accept: string, maxFileSize: nat, maxFiles: nat,
                      selected: seq<File>, files: seq<File>): Option<UploadError> {
    if TooMany(selected, files, maxFiles) then Some(TooManyFiles(maxFiles))
    else LoopError(files, Check(accept, maxFileSize))
  }

  // ---------------------------------------------------------------
  // The selection list
  // ---------------------------------------------------------------

  /** The selection after a drop or a file choice whose validation returned
      `valid`. */
  function NextSelection(selected: seq<File>, valid: seq<File>, multiple: bool): seq<File> {
    if valid == [] then selected
    else if multiple then selected + valid
    else [valid[0]]
  }

  /** `newFiles.splice(index, 1)` on a copy of the selection. */
  function RemoveAt(selected: seq<File>, index: int): seq<File> {
    Splice(selected, index, 1, [])
  }

  // ---------------------------------------------------------------
  // The component
  // ---------------------------------------------------------------

  class Uploader {
    const acceptedFileTypes: string
    const maxFileSize: nat
    const maxFiles: nat
    const multiple: bool
    var selectedFiles: seq<File>
    var error: Option<UploadError>

    /** The selection never breaks the count limit. */
    ghost predicate Valid()
      reads this
    {
      |selectedFiles| <= maxFiles
    }

    constructor(acceptedFileTypes: string, maxFileSize: nat, maxFiles: nat, multiple: bool)
      ensures this.acceptedFileTypes == acceptedFileTypes && this.maxFileSize == maxFileSize
      ensures this.maxFiles == maxFiles && this.multiple == multiple
      ensures selectedFiles == [] && error == None
      ensures Valid()
    {
      this.acceptedFileTypes := acceptedFileTypes;
      this.maxFileSize := maxFileSize;
      this.maxFiles := maxFiles;
      this.multiple := multiple;
      selectedFiles := [];
      error := None;
    }

    /** The component with only `acceptedFileTypes` given. */
    constructor WithDefaults(acceptedFileTypes: string)
      ensures this.acceptedFileTypes == acceptedFileTypes
      ensures maxFileSize == DefaultMaxFileSize && maxFiles == DefaultMaxFiles
      ensures multiple == DefaultMultiple
      ensures selectedFiles == [] && error == None
      ensures Valid()
    {
      this.acceptedFileTypes := acceptedFileTypes;
      maxFileSize := DefaultMaxFileSize;
      maxFiles := DefaultMaxFiles;
      multiple := DefaultMultiple;
      selectedFiles := [];
      error := None;
    }

    /** `validateFiles`: the count check, then one pass over the files. The
        count-limit message only reaches a local variable, so that path keeps
        the error as it was. */
    method ValidateFiles(files: seq<File>) returns (valid: seq<File>)
      modifies this
      ensures valid == Accepted(acceptedFileTypes, maxFileSize, maxFiles, selectedFiles, files)
      ensures error == ErrorAfterAsWritten(acceptedFileTypes, maxFileSize, maxFiles, selectedFiles, files, old(error))
      ensures selectedFiles == old(selectedFiles)
    {
      valid := [];
      if |files| + |selectedFiles| > maxFiles {
        return;
      }
      var errorMsg: Option<UploadError> := None;
      ghost var verdict := Check(acceptedFileTypes, maxFileSize);
      for i := 0 to |files|
        invariant valid == ValidFiles(files[..i], verdict)
        invariant errorMsg == LoopError(files[..i], verdict)
      {
        var f := files[i];
        assert files[..i + 1][..i] == files[..i];
        assert files[..i + 1][i] == f;
        if !IsAcceptedType(acceptedFileTypes, f) {
          errorMsg := Some(TypeNotAccepted(acceptedFileTypes));
          continue;
        }
        if f.size > maxFileSize * BytesPerMB {
          errorMsg := Some(TooLarge(maxFileSize));
          continue;
        }
        valid := valid + [f];
      }
      WholeSlice(files);
      error := errorMsg;
    }

    /** `handleDrop` and `handleFileChange` once the delay has passed: a
        non-empty batch is validated and, when some file passed, becomes part
        of the selection; the result is the list handed to `onFileSelect`, if
        it was called. */
    method SelectFiles(files: seq<File>) returns (notified: Option<seq<File>>)
      requires Valid()
      modifies this
      ensures Valid()
      ensures files == [] ==> selectedFiles == old(selectedFiles) && error == old(error) && notified == None
      ensures files != [] ==>
        var valid := Accepted(acceptedFileTypes, maxFileSize, maxFiles, old(selectedFiles), files);
        selectedFiles == NextSelection(old(selectedFiles), valid, multiple) &&
        error == ErrorAfterAsWritten(acceptedFileTypes, maxFileSize, maxFiles, old(selectedFiles), files, old(error)) &&
        notified == (if valid == [] then None else Some(selectedFiles))
    {
      notified := None;
      if |files| > 0 {
        var valid := ValidateFiles(files);
        SelectionWithinLimit(acceptedFileTypes, maxFileSize, maxFiles, selectedFiles, files, multiple);
        if |valid| > 0 {
          if multiple {
            selectedFiles := selectedFiles + valid;
          } else {
            selectedFiles := [valid[0]];
          }
          notified := Some(selectedFiles);
        }
      }
    }

    /** `removeFile(index)`: the copy without the element at `index`, handed
        to `onFileSelect`. */
    method RemoveFile(index: int) returns (notified: seq<File>)
      requires Valid()
      modifies this
      ensures Valid()
      ensures selectedFiles == RemoveAt(old(selectedFiles), index)
      ensures error == old(error) && notified == selectedFiles
    {
      selectedFiles := Splice(selectedFiles, index, 1, []);
      notified := selectedFiles;
    }
  }

  // ---------------------------------------------------------------
  // Properties
  // ---------------------------------------------------------------

  /** `a` is `b` with some elements left out, the rest in order. */
  predicate IsSubsequence(a: seq<File>, b: seq<File>)
    decreases |b|
  {
    if a == [] then true
    else if b == [] then false
    else if a[|a| - 1] == b[|b| - 1] then IsSubsequence(a[..|a| - 1], b[..|b| - 1])
    else IsSubsequence(a, b[..|b| - 1])
  }

  /** The files kept are the input files whose verdict is clear, in input
      order: nothing clear is dropped and nothing is added. */
  lemma {:induction false} ValidFilesAreFiltered(files: seq<File>, verdict: File -> Option<UploadError>)
    ensures IsSubsequence(ValidFiles(files, verdict), files)
    ensures forall f :: f in files && verdict(f) == None ==> f in ValidFiles(files, verdict)
    decreases |files|
  {
    if files != [] {
      var front := files[..|files| - 1];
      ValidFilesAreFiltered(front, verdict);
      var r := ValidFiles(files, verdict);
      if verdict(files[|files| - 1]) == None {
        assert r[..|r| - 1] == ValidFiles(front, verdict);
      }
      assert files == front + [files[|files| - 1]];
    }
  }

  /** The accepted files are a subsequence of the batch; each passes the type
      and the size test, and every file of the batch that passes both is
      among them unless the batch broke the count limit. */
  lemma AcceptedFiles(accept: string, maxFileSize: nat, maxFiles: nat,
                      selected: seq<File>, files: seq<File>)
    ensures var r := Accepted(accept, maxFileSize, maxFiles, selected, files);
      IsSubsequence(r, files) &&
      forall i :: 0 <= i < |r| ==> IsAcceptedType(accept, r[i]) && WithinSizeLimit(r[i], maxFileSize)
    ensures !TooMany(selected, files, maxFiles) ==>
      forall f :: f in files && IsAcceptedType(accept, f) && WithinSizeLimit(f, maxFileSize) ==>
        f in Accepted(accept, maxFileSize, maxFiles, selected, files)
  {
    var verdict := Check(accept, maxFileSize);
    ValidFilesAreFiltered(files, verdict);
    var r := Accepted(accept, maxFileSize, maxFiles, selected, files);
    forall i | 0 <= i < |r| ensures IsAcceptedType(accept, r[i]) && WithinSizeLimit(r[i], maxFileSize) {
      assert verdict(r[i]) == None;
    }
  }

  /** No error remains exactly when every file passed. */
  lemma {:induction false} LoopErrorNone(files: seq<File>, verdict: File -> Option<UploadError>)
    ensures LoopError(files, verdict) == None <==> ValidFiles(files, verdict) == files
    decreases |files|
  {
    if files != [] {
      var front := files[..|files| - 1];
      var last := files[|files| - 1];
      LoopErrorNone(front, verdict);
      if verdict(last) == None {
        assert files == front + [last];
      }
    }
  }

  /** A remaining error is the verdict on the last file that failed. */
  lemma {:induction false} LoopErrorIsLast(files: seq<File>, verdict: File -> Option<UploadError>)
    requires LoopError(files, verdict) != None
    ensures exists i ::
      (0 <= i < |files| && LoopError(files, verdict) == verdict(files[i]) &&
       forall j :: i < j < |files| ==> verdict(files[j]) == None)
    decreases |files|
  {
    var front := files[..|files| - 1];
    var last := files[|files| - 1];
    if verdict(last) == None {
      LoopErrorIsLast(front, verdict);
      var i :| 0 <= i < |front| && LoopError(front, verdict) == verdict(front[i]) &&
        forall j :: i < j < |front| ==> verdict(front[j]) == None;
      assert files[i] == front[i];
      forall j | i < j < |files| ensures verdict(files[j]) == None {
        if j < |front| { assert files[j] == front[j]; }
      }
    } else {
      assert LoopError(files, verdict) == verdict(files[|files| - 1]);
    }
  }

  /** Too many files, counting the current selection: nothing is accepted,
      the selection stays as it is, and the error stays as it was (as
      written) or becomes the count-limit message (corrected). */
  lemma TooManyRejectsAll(accept: string, maxFileSize: nat, maxFiles: nat,
                          selected: seq<File>, files: seq<File>, multiple: bool,
                          current: Option<UploadError>)
    requires |files| + |selected| > maxFiles
    ensures Accepted(accept, maxFileSize, maxFiles, selected, files) == []
    ensures NextSelection(selected, Accepted(accept, maxFileSize, maxFiles, selected, files), multiple) == selected
    ensures ErrorAfterAsWritten(accept, maxFileSize, maxFiles, selected, files, current) == current
    ensures ErrorAfter(accept, maxFileSize, maxFiles, selected, files) == Some(TooManyFiles(maxFiles))
  {
  }

  /** The selection stays within the count limit after any batch. */
  lemma SelectionWithinLimit(accept: string, maxFileSize: nat, maxFiles: nat,
                             selected: seq<File>, files: seq<File>, multiple: bool)
    requires |selected| <= maxFiles
    ensures |NextSelection(selected, Accepted(accept, maxFileSize, maxFiles, selected, files), multiple)| <= maxFiles
  {
    var valid := Accepted(accept, maxFileSize, maxFiles, selected, files);
    if valid != [] {
      assert !TooMany(selected, files, maxFiles);
    }
  }

  /** The selection after a batch: unchanged with no valid file, extended in
      multiple mode, the first valid file alone in single mode. */
  lemma NextSelectionShape(selected: seq<File>, valid: seq<File>, multiple: bool)
    ensures valid == [] ==> NextSelection(selected, valid, multiple) == selected
    ensures valid != [] && multiple ==>
      var r := NextSelection(selected, valid, multiple);
      |r| == |selected| + |valid| && r[..|selected|] == selected && r[|selected|..] == valid
    ensures valid != [] && !multiple ==> NextSelection(selected, valid, multiple) == [valid[0]]
  {
  }

  /** With a limit of one file in single mode, a file already selected blocks
      every further batch: the selection cannot be replaced, only emptied. */
  lemma SingleFileBlocksReplacement(accept: string, maxFileSize: nat,
                                    selected: seq<File>, files: seq<File>)
    requires |selected| == 1 && files != []
    ensures Accepted(accept, maxFileSize, 1, selected, files) == []
    ensures NextSelection(selected, Accepted(accept, maxFileSize, 1, selected, files), false) == selected
  {
  }

  /** A file of exactly the limit passes the size test; one byte more fails. */
  lemma SizeLimitBoundary(name: string, mime: string, maxFileSize: nat)
    ensures WithinSizeLimit(File(name, mime, maxFileSize * 1048576), maxFileSize)
    ensures !WithinSizeLimit(File(name, mime, maxFileSize * 1048576 + 1), maxFileSize)
  {
  }

  /** Removing at an index inside the list deletes exactly that element and
      keeps the rest in order; an index at or past the end changes nothing; a
      negative index counts back from the end and is clamped at 0. */
  lemma RemoveAtFacts(selected: seq<File>, index: int)
    ensures 0 <= index < |selected| ==>
      var r := RemoveAt(selected, index);
      r == selected[..index] + selected[index + 1..] &&
      |r| == |selected| - 1 &&
      (forall j :: 0 <= j < index ==> r[j] == selected[j]) &&
      (forall j :: index <= j < |r| ==> r[j] == selected[j + 1]) &&
      multiset(r) + multiset{selected[index]} == multiset(selected)
    ensures index >= |selected| ==> RemoveAt(selected, index) == selected
    ensures -|selected| <= index < 0 ==>
      RemoveAt(selected, index) == selected[..|selected| + index] + selected[|selected| + index + 1..]
    ensures index < -|selected| ==> RemoveAt(selected, index) == if selected == [] then [] else selected[1..]
  {
    if 0 <= index < |selected| {
      assert selected == selected[..index] + [selected[index]] + selected[index + 1..];
    }
    if index >= |selected| {
      assert selected[..|selected|] == selected;
    }
  }

  /** The extension is `.` and the lower-cased text after the last dot; a name
      without a dot is taken whole. */
  lemma ExtensionOfName(name: string)
    ensures '.' !in name ==> Extension(name) == "." + LowerString(name)
    ensures '.' in name ==>
      (exists k :: 0 <= k < |name| && name[k] == '.' && '.' !in name[k + 1..] &&
        Extension(name) == "." + LowerString(name[k + 1..]))
  {
    LastPieceSuffix(name, '.');
    var p := LastPiece(name, '.');
    if |p| == |name| {
      assert p == name;
    } else {
      var k := |name| - |p| - 1;
      assert name[k + 1..] == p;
    }
  }

  // ---------------------------------------------------------------
  // Finding: the count-limit message is never shown
  // ---------------------------------------------------------------

  /** As written, a batch over the limit leaves the error state untouched:
      the user sees whatever was shown before (nothing, if there was no
      earlier error) although nothing was accepted. */
  lemma CountErrorDropped(f: File, current: Option<UploadError>)
    ensures Accepted("", 0, 1, [f], [f]) == []
    ensures ErrorAfterAsWritten("", 0, 1, [f], [f], current) == current
    ensures ErrorAfterAsWritten("", 0, 1, [f], [f], None) == None
    ensures ErrorAfter("", 0, 1, [f], [f]) == Some(TooManyFiles(1))
  {
  }

  /** Corrected, a rejected batch always leaves a message: whenever nothing
      is accepted from a non-empty batch, some error is set. */
  lemma RejectionIsReported(accept: string, maxFileSize: nat, maxFiles: nat,
                            selected: seq<File>, files: seq<File>)
    requires files != []
    requires Accepted(accept, maxFileSize, maxFiles, selected, files) == []
    ensures ErrorAfter(accept, maxFileSize, maxFiles, selected, files) != None
  {
    if !TooMany(selected, files, maxFiles) {
      LoopErrorNone(files, Check(accept, maxFileSize));
    }
  }
}
