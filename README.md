# Convertion-web- — a verified model of the page logic

The site is a set of browser tools: a letter counter, a word counter, a shared
upload control (`FileUpload`), a PDF merger, an image format converter and a
video editor. Their media work is done by browser calls or stubs. This project
models the deterministic bookkeeping around those calls and proves what the
pages promise about it:

- **LetterCounter**: the letter counter's pass over the text. It puts every
  character into one class (ASCII letter, digit, whitespace, the punctuation
  set `.,!?;:'"()[]{}`, or special), counts upper and lower case, and builds
  the case-folded letter table and the `characterTypes` map. `Analyze` is the
  effect and `CountCharacters` its loop. `Report` is the specification.
- **WordCounter**: the word counter's statistics:
  - the character, word, sentence and paragraph counts, and reading and
    speaking time by ceiling division;
  - the `[a-z0-9]` word and character frequency tables, built by loops
    (`WordFrequency`, `CharFrequency`);
  - the top-ten list, sorted by a stable insertion sort on the count.
- **FileUpload**: `validateFiles` (the count limit, the three accept-type
  rules and the size limit), the selection update after a drop or a file
  choice, and `removeFile`. `Uploader` is the component's state and follows
  the code as written, where the count limit leaves the error unchanged.
- **PdfMerger**: `reorderFiles` as two `splice` calls, the guarded
  `moveFileUp`/`moveFileDown`, the two-file minimum of `handleMerge`, and the
  reset in `handleFileSelect`.
- **FormatConverter**: `handleConvert` (the empty-list guard and the loop that
  names each output and reports the rounded progress), `handleFileSelect` and
  `handleFormatChange`.
- **VideoEditor**: `formatTime`, seconds shown as `m:ss`.

These modules support them:

- **JsString**: the ECMAScript string operations the pages use. These are the
  `\s` whitespace set, `trim`, `split` on a character and on a run-of-characters
  regular expression, `pop`, ASCII case mapping and decimal `toString`.
- **JsArray**: `Array.prototype.splice` with its index clamping.
- **Tally**: the `m[k] = (m[k] || 0) + 1` counting tables, with keys in
  insertion order.
- **BrowserFile**: the file record `(name, mime, size)`.
- **Wrappers**: `Option`.

The text is `seq<char>`. React state becomes fields of a class, and each
`useEffect` analysis becomes a function from the text to a report. Browser
calls the code awaits (`convertImage`, `mergePDFs`) become parameters that say
whether the call succeeds. `onFileSelect` becomes a returned value.

Two details of the code are kept as written:

- Whitespace is the exact ECMAScript `\s` set, the one `trim` and `/\s/` both
  use, rather than a smaller fixed set.
- The converter's progress is at least 1 from the first file on only while a
  batch has at most 200 files (`FormatConverter.ProgressStartsAtZero`). The
  page's upload control allows at most 10.

## Model

| member | source | states |
|---|---|---|
| LetterCounter.Analyze | src/app/letter-counter/page.tsx:29-116 | the classification loop computes exactly the report `Report` specifies, including the empty-text reset |
| LetterCounter.Partition | src/app/letter-counter/page.tsx:47-102 | letters + digits + spaces + punctuation + specialChars equals totalCharacters, which equals the text length |
| LetterCounter.SingleCharacter | src/app/letter-counter/page.tsx:75-101 | a character lands in exactly one class, chosen in the priority order letter, digit, whitespace, punctuation, special |
| LetterCounter.CaseCounts | src/app/letter-counter/page.tsx:80-84 | uppercase + lowercase equals letters; uppercase counts exactly the `A`–`Z` characters and lowercase the `a`–`z` ones |
| LetterCounter.LetterFrequency | src/app/letter-counter/page.tsx:86-88 | every key is in `a`–`z`; the count of a letter is its lower-case plus its upper-case occurrences; the counts sum to letters |
| LetterCounter.CharacterTypesMatch | src/app/letter-counter/page.tsx:30-43 | each characterTypes entry equals its scalar counter; the empty text gives all counters zero and both maps empty |
| LetterCounter.Additive | src/app/letter-counter/page.tsx:71-102 | every counter and every letter count of a concatenation is the sum of those of the parts |
| LetterCounter.CountCharacters | src/app/letter-counter/page.tsx:50-102 | after the loop each class counter is the number of characters of that class, the case counters count the upper- and lower-case letters, the letter table is the tally of the lower-cased letters, and the five characterTypes counters equal the scalar counters |
| WordCounter.Analyze | src/app/word-counter/page.tsx:28-97 | the analysis computes exactly the specified report |
| WordCounter.BlankReport | src/app/word-counter/page.tsx:29-41 | a blank text gives every statistic zero, even `characters`; any other text has `characters` equal to its positive length |
| WordCounter.CharactersNoSpacesCount | src/app/word-counter/page.tsx:46 | charactersNoSpaces is the length minus the whitespace count, so it is at most the length |
| WordCounter.WordsAreRuns | src/app/word-counter/page.tsx:49 | words equals the number of maximal runs of non-whitespace characters |
| WordCounter.RunEndsPositive | src/app/word-counter/page.tsx:49 | a text that is not blank has at least one word |
| WordCounter.NonBlankPieces | src/app/word-counter/page.tsx:52-55 | the non-blank pieces of a run split are counted by an independent left-to-right scan over the text |
| WordCounter.ReportCounts | src/app/word-counter/page.tsx:45-61 | for a non-blank text, the counts relate to its characters as follows: words are the non-whitespace runs (at least 1); sentences and paragraphs are the non-blank segments between `.!?` runs and `\n` runs; each count is at most charactersNoSpaces; 1 ≤ readingTime ≤ speakingTime |
| WordCounter.CeilDiv | src/app/word-counter/page.tsx:58-61 | the result is the least r with d·r ≥ n |
| WordCounter.Times | src/app/word-counter/page.tsx:58-61 | readingTime = ⌈words/225⌉ and speakingTime = ⌈words/150⌉; each is 0 exactly when words is 0; readingTime ≤ speakingTime |
| WordCounter.WordFrequency | src/app/word-counter/page.tsx:64-71 | the loop builds the table of the cleaned, non-empty, lower-cased tokens |
| WordCounter.WordFrequencyFacts | src/app/word-counter/page.tsx:64-71 | every key is a non-empty word over `[a-z0-9]`; each word's count is the number of cleaned tokens equal to it; the counts sum to at most words |
| WordCounter.AsWrittenOtherWords | src/app/word-counter/page.tsx:64-71 | on the page's `{}` object, every word other than `constructor` holds exactly its number of occurrences, and a word that never occurs holds nothing |
| WordCounter.AsWrittenConstructor | src/app/word-counter/page.tsx:64-71 | on the page's `{}` object, `constructor` holds the inherited `Object` function until it occurs, and afterwards the string of `Object`'s source followed by one `1` per occurrence |
| WordCounter.ConstructorCountedAsString | src/app/word-counter/page.tsx:64-69 | for the text `constructor` the intended table counts 1 while the page stores the string `function Object() { [native code] }1` |
| WordCounter.SortByCount | src/app/word-counter/page.tsx:75 | the sorted list has non-increasing counts and is a permutation of the entries |
| WordCounter.MostFrequentShape | src/app/word-counter/page.tsx:73-76 | the list has min(number of words, 10) entries with non-increasing counts |
| WordCounter.MostFrequentCounts | src/app/word-counter/page.tsx:73-74 | every listed count is that word's frequency |
| WordCounter.MostFrequentTop | src/app/word-counter/page.tsx:73-76 | a word left off the list occurs at most as often as every listed word |
| WordCounter.ReportMostFrequent | src/app/word-counter/page.tsx:64-76 | in the report, the top list has at most 10 entries, non-increasing counts, each the word's frequency, over non-empty `[a-z0-9]` words |
| WordCounter.CharFrequency | src/app/word-counter/page.tsx:79-84 | the loop builds the table of the `[a-z0-9]` characters of the lower-cased text |
| WordCounter.CharFrequencyFacts | src/app/word-counter/page.tsx:79-84 | every key is in `[a-z0-9]`; each count is that character's occurrences in the lower-cased text; the counts sum to at most the length |
| WordCounter.ReportLetterFrequency | src/app/word-counter/page.tsx:79-84 | the report's letterFrequency keys are in `[a-z0-9]` and sum to at most `characters` |
| JsString.TrimBlank | src/app/word-counter/page.tsx:29 | the trimmed text is empty exactly when the text is all whitespace |
| JsString.LastPieceSuffix | src/components/FileUpload.tsx:125 | the piece `split('.').pop()` returns is a suffix of the name with no dot, preceded by a dot when it is shorter than the name |
| FileUpload.AcceptedTypesFacts | src/components/FileUpload.tsx:128 | there is one accept entry more than there are commas in `acceptedFileTypes`; no entry contains a comma; every entry equals its own `trim()` |
| FileUpload.ExtensionOfName | src/components/FileUpload.tsx:125 | the extension is `.` plus the lower-cased text after the last dot, or `.` plus the whole lower-cased name when there is no dot |
| FileUpload.Verdict | src/components/FileUpload.tsx:128-153 | a file passes exactly when it matches some accept entry (by extension, MIME group or exact MIME) and is within the size limit |
| FileUpload.SizeLimitBoundary | src/components/FileUpload.tsx:150-153 | a file of exactly maxFileSize·1024·1024 bytes is accepted and one byte more is rejected |
| FileUpload.TooManyRejectsAll | src/components/FileUpload.tsx:116-119 | when the batch plus the current selection exceeds maxFiles, no file is accepted, the selection does not change, and the error keeps its earlier value (as written) or becomes the count-limit message (corrected) |
| FileUpload.AcceptedFiles | src/components/FileUpload.tsx:121-156 | the accepted files are a subsequence of the batch in the same order; each passes the type and size checks; within the count limit every file that passes is accepted |
| FileUpload.LoopErrorNone | src/components/FileUpload.tsx:121-158 | the loop leaves no error exactly when every file of the batch passes |
| FileUpload.LoopErrorIsLast | src/components/FileUpload.tsx:144-158 | the message left by the loop is the verdict of the last rejected file |
| FileUpload.Uploader.ValidateFiles | src/components/FileUpload.tsx:110-160 | returns the accepted files; over the count limit the error keeps its earlier value, otherwise it becomes the message of the last rejected file, or none |
| FileUpload.NextSelectionShape | src/components/FileUpload.tsx:173-181 | with no valid files the selection is unchanged; multiple mode appends the valid files after the old selection; single mode keeps only the first valid file |
| FileUpload.SelectionWithinLimit | src/components/FileUpload.tsx:116-177 | a selection within maxFiles stays within maxFiles after a drop or a file choice |
| FileUpload.SingleFileBlocksReplacement | src/components/FileUpload.tsx:116 | with maxFiles 1 and one file selected, every new batch is rejected and the selection stays |
| FileUpload.Uploader.SelectFiles | src/components/FileUpload.tsx:162-208 | a non-empty drop or choice sets the next selection and the error `validateFiles` leaves (unchanged over the count limit), and notifies the new selection only when some file was valid; an empty one changes nothing |
| FileUpload.RemoveAtFacts | src/components/FileUpload.tsx:214-218 | removing index i deletes exactly element i and keeps the others in order; an index at or past the end changes nothing; a negative index counts from the end, clamped at 0, as `splice` does |
| FileUpload.Uploader.RemoveFile | src/components/FileUpload.tsx:214-218 | the selection loses the element at the index and is notified |
| FileUpload.CountErrorDropped | src/components/FileUpload.tsx:116-119 | as written, a batch refused by the count limit leaves the error at its earlier value (unset if there was none), although nothing was accepted |
| FileUpload.RejectionIsReported | src/components/FileUpload.tsx:116-158 | once the count message is set, every non-empty batch with no accepted file leaves an error |
| JsArray.SpliceRemoveOne | src/app/pdf-merger/page.tsx:79 | `splice(i, 1)` inside the list removes exactly element i and returns it |
| JsArray.SpliceInsert | src/app/pdf-merger/page.tsx:80 | `splice(i, 0, x)` puts x at i with the rest kept on either side |
| PdfMerger.ReorderedPlace | src/app/pdf-merger/page.tsx:77-82 | the moved file lands at `to`, clamped to the shortened list, and the other files keep their relative order |
| PdfMerger.ReorderedPermutation | src/app/pdf-merger/page.tsx:77-82 | reordering keeps the multiset of files |
| PdfMerger.MovedUpFacts | src/app/pdf-merger/page.tsx:84-88 | moving up the first file does nothing; otherwise it swaps positions i-1 and i and changes nothing else |
| PdfMerger.MovedDownFacts | src/app/pdf-merger/page.tsx:90-94 | moving down the last file does nothing; otherwise it swaps positions i and i+1 and changes nothing else |
| PdfMerger.UpThenDown | src/app/pdf-merger/page.tsx:84-94 | moving file i up and then moving file i-1 down restores the list |
| PdfMerger.Merger.HandleMerge | src/app/pdf-merger/page.tsx:42-69 | fewer than two files sets an error and produces no merged file; a success produces `merged.pdf`; a failure sets an error |
| PdfMerger.Merger.HandleFileSelect | src/app/pdf-merger/page.tsx:36-40 | a new selection replaces the list and clears the merged file and the error |
| PdfMerger.Merger.ReorderFiles | src/app/pdf-merger/page.tsx:77-82 | the list becomes its reordering; nothing else changes |
| PdfMerger.Merger.MoveFileUp | src/app/pdf-merger/page.tsx:84-88 | the list becomes `MovedUp` of the old list (a swap with the predecessor, nothing at index 0); the merged file and the error stay |
| PdfMerger.Merger.MoveFileDown | src/app/pdf-merger/page.tsx:90-94 | the list becomes `MovedDown` of the old list (a swap with the successor, nothing at the last index); the merged file and the error stay |
| FormatConverter.OutputNameFacts | src/app/format-converter/page.tsx:194 | the output name is the name's part before its first dot, a dot and the target format; that part is a prefix of the name with no dot |
| FormatConverter.OutputNamesFacts | src/app/format-converter/page.tsx:185-206 | there is one output name per input file, in input order; each ends in `.` and the target format, and the part before that dot has no dot and is the prefix of its file's name up to the first dot |
| FormatConverter.ProgressRounding | src/app/format-converter/page.tsx:203 | the progress is round((i+1)·100/n) with halves rounded up |
| FormatConverter.ProgressFacts | src/app/format-converter/page.tsx:187-204 | the progress is at most 100, reaches 100 with the last file, never decreases, and is at least 1 for batches of at most 200 files |
| FormatConverter.ProgressSeriesFacts | src/app/format-converter/page.tsx:187-204 | the sequence of reported values is non-decreasing, within 0..100 (1..100 for at most 200 files) and ends at 100 |
| FormatConverter.ProgressStartsAtZero | src/app/format-converter/page.tsx:203 | with 201 files the first report rounds to 0 |
| FormatConverter.FirstFailureUnique | src/app/format-converter/page.tsx:187-209 | the point where the loop stops is the first file whose conversion fails |
| FormatConverter.Converter.HandleConvert | src/app/format-converter/page.tsx:173-213 | an empty list sets an error and converts nothing; otherwise the reports are the rounded progress after each converted file; a full success gives one output name per file in order; a failure sets an error and leaves no converted files |
| FormatConverter.Converter.HandleFileSelect | src/app/format-converter/page.tsx:120-125 | a new selection clears the converted files, the error and the progress |
| FormatConverter.Converter.HandleFormatChange | src/app/format-converter/page.tsx:127-130 | a format change clears the converted files |
| VideoEditor.MinutesSeconds | src/app/video-editor/page.tsx:92-93 | for seconds ≥ 0, secs is in 0..59 and mins·60 + secs = ⌊seconds⌋ |
| VideoEditor.FormatTimeShape | src/app/video-editor/page.tsx:94 | the result is the decimal minutes, `:`, and the seconds as exactly two zero-padded digits |
| VideoEditor.FormatTimeOneColon | src/app/video-editor/page.tsx:94 | the result has exactly one `:`, followed by two digits |
| VideoEditor.FormatTimeRoundTrip | src/app/video-editor/page.tsx:91-95 | reading both fields back as decimal numbers gives the minutes and seconds, and so ⌊seconds⌋ |

## Left out

- src/utils/fileProcessor.ts is not part of this model. Image conversion,
  PDF merging, the audio and video stubs, the pixel filters and
  `getReadableFileSize` rely on Canvas, `MediaRecorder`, object URLs and
  floating point. The page calls into it become success parameters.
- Timers, `setIsProcessing`, the 800 ms upload delay, drag state and previews
  (`createObjectURL`) are left out. So is the stale-closure effect of reading
  `selectedFiles` inside a delayed callback: each update is modelled as one
  atomic step.
- FormatConverter.Converter.HandleConvert and PdfMerger.Merger.HandleMerge
  are each one atomic step as well. On the page they wait on `convertImage`
  and `mergePDFs`, and the format control and the upload control stay usable
  meanwhile. The model does not capture a format change or a new selection
  in the middle of a batch: a running conversion keeps naming its outputs in
  the old format, and a merge that finishes after a one-file selection still
  stores its result. `Converter.Valid` and `Merger.Valid` hold only between
  whole handler calls.
- WordCounter.WordFrequencyFacts: its count-equals-occurrences clause is the
  intended behaviour. On the page it fails for the word `constructor`, which
  is stored as a string (see Findings; WordCounter.AsWrittenConstructor).
- WordCounter.WordFrequency and the most-frequent members
  (WordCounter.SortByCount, WordCounter.MostFrequentShape,
  WordCounter.MostFrequentCounts, WordCounter.MostFrequentTop,
  WordCounter.ReportMostFrequent) count `constructor` like any other word.
  The order a `sort` with a NaN comparison produces is not modelled.
- The PDF merger's random progress simulation (`setInterval`, `Math.random`)
  and the download URLs are left out.
- The converter's aspect-ratio preview resizing is floating point and is left
  out.
- The conversion pages for documents, video-to-audio and audio-video are left
  out. Their file-name stem rule is the one `FormatConverter.OutputName` models.
- Case mapping is ASCII only. JavaScript's full Unicode `toLowerCase` also
  maps characters such as the Kelvin sign to ASCII letters; the model does not.
- Characters are Dafny `char`s, which are Unicode scalar values.
  JavaScript's `text[i]` and `text.length` work on UTF-16 code units, so a
  character outside the Basic Multilingual Plane counts once here and twice
  on the page.
- `Math.ceil(words / 225)` and `Math.round(((i + 1) / n) * 100)` are computed
  exactly on integers. Rounding of the intermediate floating-point quotient is
  not modelled.
- `formatTime` is modelled on real numbers. NaN and the infinities are not
  modelled. Negative times follow the same formulas, but no property is
  stated for them.
- The order of `Object.entries` is not modelled. JavaScript puts integer-like
  keys first. The tables here keep keys in insertion order, and the top-ten
  property is stated without relying on tie order.
- `characterTypes` is a record of five counters while the loop runs and a map
  keyed by the class datatype in the report, rather than an object keyed by
  the strings `letters`, `digits`, and so on.
- PdfMerger.MovedUp, PdfMerger.MovedDown, PdfMerger.Merger.ReorderFiles:
  these require an index inside the list. The page only ever passes the index
  of a listed file.
- The PDF merger page keeps its own file list, which can diverge from the list
  held by its upload control after a reorder. The two are modelled separately.
- Messages are the error constructors; the message texts are not modelled.

## Findings

| source | as written | input that shows it | evidently intended | confidence | as-written member | corrected member |
|---|---|---|---|---|---|---|
| src/components/FileUpload.tsx:116-119 | the count-limit message is stored in a local variable, and the early `return` skips `setError`, so the message is never shown | maxFiles 1, one file already selected, one more file dropped: nothing is accepted and the error keeps its earlier value, so with no earlier error nothing is shown | the refusal is reported like the type and size refusals | not executed | FileUpload.CountErrorDropped | FileUpload.RejectionIsReported |
| src/app/word-counter/page.tsx:64-69 | `wordFrequency` is the object literal `{}`, so for the word `constructor` the lookup before `+ 1` finds the inherited `Object` function, which is truthy, and `+ 1` turns it into a string | the text `constructor`: the table stores `function Object() { [native code] }1` instead of 1, and the ranking's `b.count - a.count` gives NaN for it | every word is counted as a number, which an object without a prototype or a `Map` gives | not executed | WordCounter.ConstructorCountedAsString | WordCounter.WordFrequencyFacts |
