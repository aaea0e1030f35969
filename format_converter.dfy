/**
 * The format converter page's batch bookkeeping: the refusal of an empty
 * batch, the output name of each converted file, the rounded progress
 * reported after each file, and the resets when the files or the target
 * format change.
 */
module FormatConverter {
  import opened Wrappers
  import opened JsString
  import opened BrowserFile

  const DefaultTargetFormat := "png"

  datatype ConvertError = NoFiles | ConvertFailed

  // ---------------------------------------------------------------
  // Output names
  // ---------------------------------------------------------------

  /** `` `${name.split('.')[0]}.${targetFormat}` `` */
  function OutputName(name: string, targetFormat: string): string {
    SplitAt(name, '.')[0] + "." + targetFormat
  }

  /** The output name is the part of the name before its first dot (the
      whole name when it has none), a dot, and the target format. */
  lemma OutputNameFacts(name: string, targetFormat: string)
    ensures var stem := SplitAt(name, '.')[0];
      OutputName(name, targetFormat) == stem + "." + targetFormat &&
      '.' !in stem && |stem| <= |name| && name[..|stem|] == stem &&
      (|stem| < |name| ==> name[|stem|] == '.')
    ensures '.' !in name ==> OutputName(name, targetFormat) == name + "." + targetFormat
  {
    FirstPiece(name, '.');
  }

  /** The names of the converted files. */
  function OutputNames(files: seq<File>, targetFormat: string): seq<string> {
    seq(|files|, i requires 0 <= i < |files| => OutputName(files[i].name, targetFormat))
  }

  /** The output name of `name` ends in a dot and the target format, and the
      part before that dot is the longest prefix of `name` without a dot. */
  predicate IsOutputNameOf(out: string, name: string, targetFormat: string) {
    |out| > |targetFormat| &&
    out[|out| - |targetFormat|..] == targetFormat && out[|out| - |targetFormat| - 1] == '.' &&
    var stem := out[..|out| - |targetFormat| - 1];
    '.' !in stem && |stem| <= |name| && name[..|stem|] == stem &&
    (|stem| < |name| ==> name[|stem|] == '.')
  }

  lemma OutputNameShape(name: string, targetFormat: string)
    ensures IsOutputNameOf(OutputName(name, targetFormat), name, targetFormat)
  {
    OutputNameFacts(name, targetFormat);
    var stem := SplitAt(name, '.')[0];
    var out := OutputName(name, targetFormat);
    assert out[..|out| - |targetFormat| - 1] == stem;
    assert out[|out| - |targetFormat|..] == targetFormat;
  }

  /** One name per file, in file order, each made of its file's name up to
      the first dot and the target format. */
  lemma OutputNamesFacts(files: seq<File>, targetFormat: string)
    ensures |OutputNames(files, targetFormat)| == |files|
    ensures forall i :: 0 <= i < |files| ==>
      IsOutputNameOf(OutputNames(files, targetFormat)[i], files[i].name, targetFormat)
  {
    forall i | 0 <= i < |files|
      ensures IsOutputNameOf(OutputNames(files, targetFormat)[i], files[i].name, targetFormat)
    {
      OutputNameShape(files[i].name, targetFormat);
    }
  }

  // ---------------------------------------------------------------
  // Progress
  // ---------------------------------------------------------------

  /** `Math.round((done / total) * 100)` computed exactly: the nearest whole
      percentage, halves rounded up. */
  function Progress(done: nat, total: nat): nat
    requires total > 0
  {
    (200 * done + total) / (2 * total)
  }

  lemma {:induction false} MulMonotone(c: nat, a: nat, b: nat)
    requires a <= b
    ensures c * a <= c * b
    decreases b - a
  {
    if a < b {
      MulMonotone(c, a, b - 1);
      assert c * b == c * (b - 1) + c;
    }
  }

  lemma DivMonotone(a: nat, b: nat, c: nat)
    requires a <= b && c > 0
    ensures a / c <= b / c
  {
    var qa, qb := a / c, b / c;
    assert c * qa <= a && b < c * qb + c;
    if qa > qb {
      MulMonotone(c, qb + 1, qa);
    }
  }

  /** A quotient is the one whole number whose multiples bracket the
      dividend. */
  lemma DivUnique(x: nat, c: nat, q: nat)
    requires c > 0 && c * q <= x < c * (q + 1)
    ensures x / c == q
  {
    var d := x / c;
    assert c * d <= x < c * d + c;
    if d < q {
      MulMonotone(c, d + 1, q);
    } else if d > q {
      MulMonotone(c, q + 1, d);
    }
  }

  /** `Progress` rounds `100 * done / total` to the nearest whole number. */
  lemma ProgressRounding(done: nat, total: nat)
    requires 0 < total
    ensures var p := Progress(done, total);
      2 * total * p <= 200 * done + total < 2 * total * (p + 1)
  {
  }

  /** The progress is a percentage, reaches 100 with the last file, never
      decreases, and is at least 1 after the first file as long as there
      are at most 200 files. */
  lemma ProgressFacts(done: nat, total: nat)
    requires 0 < total && done <= total
    ensures Progress(done, total) <= 100
    ensures Progress(total, total) == 100
    ensures 1 <= done && total <= 200 ==> Progress(done, total) >= 1
    ensures done < total ==> Progress(done, total) <= Progress(done + 1, total)
  {
    DivUnique(200 * total + total, 2 * total, 100);
    DivMonotone(200 * done + total, 200 * total + total, 2 * total);
    if 1 <= done && total <= 200 {
      DivUnique(2 * total, 2 * total, 1);
      DivMonotone(2 * total, 200 * done + total, 2 * total);
    }
    if done < total {
      DivMonotone(200 * done + total, 200 * (done + 1) + total, 2 * total);
    }
  }

  /** With more than 200 files the first report rounds down to 0. */
  lemma ProgressStartsAtZero()
    ensures Progress(1, 201) == 0
  {
  }

  /** The values `setConversionProgress` receives after the first `done`
      files. */
  function ProgressSeries(done: nat, total: nat): seq<nat>
    requires 0 < total && done <= total
  {
    seq(done, i requires 0 <= i < done => Progress(i + 1, total))
  }

  /** The reported values never decrease, stay within 0..100 (within 1..100
      for at most 200 files) and end at 100 when every file is done. */
  lemma ProgressSeriesFacts(done: nat, total: nat)
    requires 0 < total && done <= total
    ensures var r := ProgressSeries(done, total);
      forall i, j :: 0 <= i <= j < done ==> r[i] <= r[j]
    ensures var r := ProgressSeries(done, total);
      forall i :: 0 <= i < done ==> r[i] <= 100 && (total <= 200 ==> r[i] >= 1)
    ensures done == total ==> ProgressSeries(done, total)[done - 1] == 100
  {
    var r := ProgressSeries(done, total);
    forall i, j | 0 <= i <= j < done ensures r[i] <= r[j] {
      DivMonotone(200 * (i + 1) + total, 200 * (j + 1) + total, 2 * total);
    }
    forall i | 0 <= i < done ensures r[i] <= 100 && (total <= 200 ==> r[i] >= 1) {
      ProgressFacts(i + 1, total);
    }
    if done == total {
      ProgressFacts(total, total);
    }
  }

  // ---------------------------------------------------------------
  // The batch
  // ---------------------------------------------------------------

  /** How many files convert before the first one that fails (all of them
      when none fails), given whether `convertImage` resolves for each. */
  function FirstFailure(files: seq<File>, converts: File -> bool): (k: nat)
    ensures k <= |files|
    ensures forall j :: 0 <= j < k ==> converts(files[j])
    ensures k < |files| ==> !converts(files[k])
    decreases |files|
  {
    if files == [] then 0
    else if !converts(files[0]) then 0
    else
      var k := 1 + FirstFailure(files[1..], converts);
      assert forall j :: 1 <= j < k ==> files[j] == files[1..][j - 1];
      k
  }

  /** The first failure is the first position whose file fails. */
  lemma FirstFailureUnique(files: seq<File>, converts: File -> bool, k: nat)
    requires k <= |files|
    requires forall j :: 0 <= j < k ==> converts(files[j])
    requires k < |files| ==> !converts(files[k])
    ensures FirstFailure(files, converts) == k
  {
  }

  /** One more converted file adds its name at the end. */
  lemma OutputNamesSnoc(files: seq<File>, i: nat, targetFormat: string)
    requires i < |files|
    ensures OutputNames(files[..i + 1], targetFormat) ==
            OutputNames(files[..i], targetFormat) + [OutputName(files[i].name, targetFormat)]
  {
    assert files[..i + 1] == files[..i] + [files[i]];
  }

  /** One more converted file adds its progress at the end. */
  lemma ProgressSeriesSnoc(i: nat, total: nat)
    requires i < total
    ensures ProgressSeries(i + 1, total) == ProgressSeries(i, total) + [Progress(i + 1, total)]
  {
  }

  /** The page's state. */
  class Converter {
    var files: seq<File>
    var targetFormat: string
    var processedFiles: seq<string>
    var error: Option<ConvertError>
    var conversionProgress: nat

    /** Converted files, when there are any, are those of the current files
        in the current format, and the progress is a percentage. */
    ghost predicate Valid()
      reads this
    {
      (processedFiles != [] ==> processedFiles == OutputNames(files, targetFormat)) &&
      conversionProgress <= 100
    }

    constructor()
      ensures files == [] && targetFormat == DefaultTargetFormat && processedFiles == []
      ensures error == None && conversionProgress == 0
      ensures Valid()
    {
      files := [];
      targetFormat := DefaultTargetFormat;
      processedFiles := [];
      error := None;
      conversionProgress := 0;
    }

    /** `handleFileSelect` */
    method HandleFileSelect(selectedFiles: seq<File>)
      modifies this
      ensures files == selectedFiles && processedFiles == [] && error == None
      ensures conversionProgress == 0 && targetFormat == old(targetFormat)
      ensures Valid()
    {
      files := selectedFiles;
      processedFiles := [];
      error := None;
      conversionProgress := 0;
    }

    /** `handleFormatChange` */
    method HandleFormatChange(format: string)
      requires Valid()
      modifies this
      ensures targetFormat == format && processedFiles == []
      ensures files == old(files) && error == old(error)
      ensures conversionProgress == old(conversionProgress)
      ensures Valid()
    {
      targetFormat := format;
      processedFiles := [];
    }

    /** `handleConvert`: `converts` says whether `convertImage` resolves for
        a file; `reports` lists every value passed to
        `setConversionProgress` inside the loop. */
    method HandleConvert(converts: File -> bool) returns (reports: seq<nat>)
      requires Valid()
      modifies this
      ensures Valid()
      ensures files == old(files) && targetFormat == old(targetFormat)
      ensures files == [] ==>
        error == Some(NoFiles) && processedFiles == old(processedFiles) &&
        conversionProgress == old(conversionProgress) && reports == []
      ensures files != [] ==>
        var k := FirstFailure(files, converts);
        reports == ProgressSeries(k, |files|) && conversionProgress == Progress(k, |files|) &&
        (k == |files| ==> error == None && processedFiles == OutputNames(files, targetFormat)) &&
        (k < |files| ==> error == Some(ConvertFailed) && processedFiles == [])
    {
      reports := [];
      if |files| == 0 {
        error := Some(NoFiles);
        return;
      }
      error := None;
      processedFiles := [];
      conversionProgress := 0;
      var batch, format := files, targetFormat;
      var n := |batch|;
      var convertedFiles: seq<string> := [];
      for i := 0 to n
        invariant files == batch && targetFormat == format
        invariant forall j :: 0 <= j < i ==> converts(batch[j])
        invariant convertedFiles == OutputNames(batch[..i], format)
        invariant reports == ProgressSeries(i, n)
        invariant conversionProgress == Progress(i, n)
        invariant conversionProgress <= 100
        invariant processedFiles == [] && error == None
      {
        var file := batch[i];
        if !converts(file) {
          FirstFailureUnique(batch, converts, i);
          error := Some(ConvertFailed);
          return;
        }
        var filename := SplitAt(file.name, '.')[0] + "." + format;
        convertedFiles := convertedFiles + [filename];
        OutputNamesSnoc(batch, i, format);
        ProgressFacts(i + 1, n);
        conversionProgress := (200 * (i + 1) + n) / (2 * n);
        reports := reports + [conversionProgress];
        ProgressSeriesSnoc(i, n);
      }
      FirstFailureUnique(batch, converts, n);
      WholeSlice(batch);
      processedFiles := convertedFiles;
    }
  }

  /** At most ten files reach the converter, so every report is at least 1. */
  lemma ConverterBatchProgress(done: nat, total: nat)
    requires 0 < total <= 10 && 1 <= done <= total
    ensures 1 <= Progress(done, total) <= 100
  {
    ProgressFacts(done, total);
  }
}
