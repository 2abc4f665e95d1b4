# uploadFile in Dafny

A model of the upload decision procedure of the Go package `uploadFile`, a thin layer over
gin's multipart form handling. An uploader (`File`) is built as a single-file or a
multi-file uploader from a `Config`:

- the save path;
- the form field name;
- an optional size limit;
- an optional extension allow-list.

`File.Upload`:

1. checks the save path, then the form name;
2. on a single-file uploader, reads the first file under the field, generates its stored
   name, checks its size, then its extension, then saves it and records what `os.Stat`
   reports;
3. on a multi-file uploader, validates every file of the field first. Only if none (and no
   earlier upload) left a size or extension error does it save them one by one.

Generated names are the Unix seconds of `time.Now()`, then eight runes drawn by
`utils.RandString(8, []rune{})` from the 62-rune default pool, then `path.Ext` of the
client's file name. The destination is `filepath.Join(SavePath, "/", name)`.
`utils.Mkdir` composes a dated folder below a base path.

The uploader's environment is made explicit. The gin context, `SaveUploadedFile`,
`os.Stat`, `time.Now` and `crypto/rand` are an `Oracle` whose k-th answer is fixed. A
`Host` object records in a `Log` which calls were made.

- `Upload.File.Upload` and the methods it calls are imperative: they update the receiver's
  `Info` and `MultiInfo` fields and the host's log.
- They are proved equal to the pure specification `Upload.UploadSpec`.
- The properties of the procedure are lemmas about that specification, in module
  `UploadProperties`.
- The standard-library pieces the uploader relies on are modelled in their own modules,
  each with its own lemmas:
  - `strings.FieldsFunc` and `strings.Join`;
  - `strconv.FormatInt`;
  - `path.Ext`, `filepath.Clean` and `filepath.Join`;
  - `time.Time.Unix` and the "2006/01/02" layout.

Behaviour the model keeps as the code has it:

- `MultiInfo` ends up holding only the record of the last saved file: each iteration
  replaces it by a one-element list.
- `UploadErr` is never reset. A multi-file uploader whose earlier batch was rejected
  rejects every later batch.
- In the validation pass, each violation overwrites `UploadErr`. So the last offending file
  decides the error, and for one file an extension error outranks a size error.
- The single-file path checks the size first, and it generates the name (one clock read and
  eight draws) before either check.
- A batch whose save fails midway leaves the earlier files saved.
- The default list holds "xlsx" and "xls" without a dot, while `path.Ext` yields ".xlsx".
  So, without a configured list, spreadsheets are refused (`ExtIsNeverUndotted`,
  `SpreadsheetsRefused`).
- `SizeIs` is a strict comparison: a file of exactly the limit is refused.
- A multi-file upload whose form has no file under the field validates and saves nothing
  and returns nil, unless `UploadErr` already holds a size or extension error.
- `MultiInfo` is never reset between calls: after an empty or rejected batch the caller
  still sees the record left by the previous batch.

## Model

| member | source | states |
|---|---|---|
| Upload.SizeIs | upload.go:200-207 | accepted exactly when the size is strictly below the configured limit, or below 10485760 bytes when the limit is zero |
| Upload.DefaultListIsSplit | upload.go:188-190 | splitting the default extension string on ',' gives exactly the five entries ".jpg", ".png", ".jpeg", "xlsx", "xls" |
| Upload.ExtAllowedLiteralMatch | upload.go:176-197 | an extension is allowed if and only if it equals, literally, one of the configured entries when any are configured, and otherwise one of the five defaults |
| Upload.DefaultSpreadsheetEntries | upload.go:188-196 | with no configured list, "xlsx" and "xls" pass, ".xlsx", ".xls" and ".JPG" are refused, and ".jpg" passes |
| Upload.AllowList | upload.go:192-196 | the list in force: the configured entries when there are any, otherwise the five default entries; see `ExtAllowedLiteralMatch` |
| Upload.ExtAllowed | upload.go:176-197 | the reference answer of `extIs`: membership of the extension in the list in force, which `ExtIs` is proved to compute; see `ExtAllowedLiteralMatch` |
| Upload.ExtIs | upload.go:176-197 | the runtime split and scan answer exactly the allow-list membership `ExtAllowed` |
| Upload.ExtMatch | upload.go:177-187 | the early-exit scan returns true if and only if the extension is an element of the list |
| Upload.File.NewFileUploader | upload.go:61-72 | a single-file uploader holding the configuration, a zero `Info` and an empty `MultiInfo` |
| Upload.File.NewMultiFileUploader | upload.go:75-79 | a multi-file uploader holding the configuration, a zero `Info` and an empty `MultiInfo` |
| Upload.File.Upload | upload.go:82-173 | the returned error, the new `Info`, `MultiInfo` and host log are exactly those `UploadSpec` gives for the old state |
| Upload.File.UploadBatch | upload.go:90-136 | the multi-file path follows `UploadMulti`: one form read, the validation pass, then the save loop unless rejected |
| Upload.File.Validate | upload.go:96-108 | the loop leaves in `UploadErr` what `ValidatePass` computes from the old value and changes nothing else in `Info` |
| Upload.File.SaveAll | upload.go:112-136 | the loop returns the error, `MultiInfo` and log that `SaveLoop` gives for `Upload`'s iteration |
| Upload.File.UploadOne | upload.go:137-170 | the single-file path follows `UploadSingle` |
| Upload.NewFileName | upload.go:113-116 | on both paths (also lines 143-146), the name and the new log are `NameFor`: one clock read, eight draws, Unix seconds, suffix, extension |
| Upload.SaveAndStat | upload.go:118-132 | on both paths (also lines 156-169), the result and the new log are `Persist`: save, stat, and a second clock read for the creation time |
| Upload.StoreFile | upload.go:113-132 | one iteration of the save loop equals `Store`: name, join below the save path, save and stat |
| Upload.UploadSpec | upload.go:82-173 | the specification of `Upload`: the two configuration checks, then the path of the uploader's kind; its behaviour is stated by the `UploadProperties` lemmas below |
| Upload.UploadMulti | upload.go:90-136 | the multi-file path: one form read, the validation pass from the old `UploadErr`, the all-or-nothing test, then the save loop; see `MultiRejection`, `EmptyBatch`, `MultiSuccess`, `MultiSaveFailure` |
| Upload.UploadSingle | upload.go:137-170 | the single-file path: first file, name, size check, extension check, save, stat, `Info` update; see `SingleGate`, `SingleSuccess`, `SingleIoFailure` |
| Upload.ValidateStep | upload.go:97-107 | one validation iteration: a size violation, then an extension violation, each overwriting the error; see `ValidateStepIsViolation` |
| Upload.ValidatePass | upload.go:96-108 | the validation loop over the headers; see `ValidatePassIsLastViolation`, `BatchRejects` |
| Upload.Is | upload.go:109 | `errors.Is` against a sentinel: true for that sentinel, bare or wrapped with a file name, and false for nil and host errors |
| Upload.Rejects | upload.go:109 | the all-or-nothing test: the error is a size or an extension error, bare or annotated; see `BatchRejects` |
| Upload.SaveLoop | upload.go:112-136 | the save loop: each stored file replaces `MultiInfo` by a one-element list, the first failure returns its error; see `RunPrefix`, `LoopSucceeds`, `LoopFails` |
| Upload.NameFor | upload.go:113-116 | the generated name from one clock read and eight draws, and the advanced log; see `GeneratedNameKeepsExt`, `GeneratedNameIsElement` |
| Upload.GeneratedName | upload.go:114-116 | decimal Unix seconds, then the random suffix, then the extension of the client's name; see `GeneratedNameKeepsExt`, `GeneratedNameIsElement` |
| Upload.Suffix | upload.go:114 | the `RandString(8, []rune{})` call: eight runes of the default pool chosen by the draws from a given call number; see `SuffixIsAlphanumeric` |
| Upload.RealPath | upload.go:117 | `filepath.Join(SavePath, "/", fileName)`; see `StoredInsideSavePath` |
| Upload.Store | upload.go:113-132 | one iteration of the save loop: name the header, then save and stat it below the save path; see `StoreSucceeds`, `StoreFails` |
| Upload.Persist | upload.go:118-132 | save, stat, then a clock read for the creation time, each error returned unchanged; see `StoreSucceeds`, `StoreFails` |
| UploadProperties.PreconditionsFirst | upload.go:83-88 | an empty save path fails first, then an empty form name; either leaves the uploader and the log unchanged |
| UploadProperties.UnreadableForm | upload.go:91-94 | an unparsable form on the multi-file path, or no first file on the single-file path (lines 138-141), fails with `UploadFaildErr` after one read and changes nothing else |
| UploadProperties.SingleGate | upload.go:142-154 | a present file is rejected if and only if its size or its extension fails; the size is reported first; a rejected file is neither saved nor examined, but its name has been generated and `UploadErr` holds the returned sentinel |
| UploadProperties.SingleSuccess | upload.go:143-169 | an accepted file whose save and stat succeed gives nil, the stored path, the stat's size, name and modification time, a second clock reading as creation time, exactly one save and one stat, and `MultiInfo` and `UploadErr` unchanged |
| UploadProperties.SingleIoFailure | upload.go:155-163 | an accepted file whose save fails, or whose save succeeds and stat fails, returns that host error unchanged; `Info` (with `UploadErr`) and `MultiInfo` keep their old values; the save was attempted at the stored path, and the path examined only if the save succeeded |
| UploadProperties.SuffixIsAlphanumeric | utils/utils.go:24-35 | the random suffix has eight runes, all ASCII letters or digits |
| UploadProperties.GeneratedNameKeepsExt | upload.go:114-116 | a generated name has the same `path.Ext` as the client's file name |
| UploadProperties.GeneratedNameIsElement | upload.go:114-116 | a generated name is one path element: non-empty, no '/', never "." or ".." |
| UploadProperties.StoredInsideSavePath | upload.go:117 | whatever the client's file name, the destination is the generated name directly inside the cleaned save path, and it keeps the extension |
| UploadProperties.ExtIsNeverUndotted | upload.go:25 | `path.Ext` of any name is neither of the dotless default entries "xlsx" and "xls" |
| UploadProperties.SpreadsheetsRefused | upload.go:192-196 | with no configured list, any file name ending in ".xlsx" or ".xls" fails the extension check |
| UploadProperties.ValidateStepIsViolation | upload.go:97-107 | one validation step keeps the error for an acceptable file and otherwise replaces it by that file's violation, the extension's taking precedence |
| UploadProperties.ValidatePassSnoc | upload.go:96-108 | the pass over a list with one more file is one more step |
| UploadProperties.ViolationsSnoc | upload.go:96-108 | the violations of a list with one more file are those of the list followed by that file's |
| UploadProperties.ValidatePassIsLastViolation | upload.go:96-108 | after the pass, `UploadErr` is the violation of the last offending file, or its old value when none offends |
| UploadProperties.LastSomeNone | upload.go:96-108 | the backward search finds nothing if and only if every entry is absent |
| UploadProperties.LastSomeIndex | upload.go:96-108 | what the backward search finds is an entry after which every entry is absent |
| UploadProperties.LastSomeFrom | upload.go:96-108 | a present entry after which all are absent is what the backward search finds |
| UploadProperties.LastViolationNone | upload.go:96-108 | no violation is found if and only if no file offends |
| UploadProperties.LastViolationIndex | upload.go:96-108 | a violation found belongs to an offending file after which none offends |
| UploadProperties.LastViolationFrom | upload.go:96-108 | the violation of the last offending file is the one found |
| UploadProperties.BatchRejects | upload.go:96-111 | the all-or-nothing test fires if and only if some file offends or `UploadErr` already held a size or extension error |
| UploadProperties.MultiRejection | upload.go:90-111 | a batch with an offending file fails with the last offender's annotated error (extension over size), stored in `UploadErr`; nothing is saved, timed or drawn and `MultiInfo` is unchanged |
| UploadProperties.AnyOffenderRejects | upload.go:96-111 | any offending file, wherever it stands, makes the batch fail with a size or extension error held in `UploadErr`, with nothing saved, timed or drawn and `MultiInfo` unchanged |
| UploadProperties.StaleErrorBlocks | upload.go:100-110 | a batch uploader whose `UploadErr` holds a size or extension error rejects even a fully acceptable batch, saving nothing |
| UploadProperties.EmptyBatch | upload.go:95-136 | a parsable form with no file under the field returns nil, or the stale `UploadErr` when that already rejects, after one read; `Info` and `MultiInfo` keep the previous upload's values |
| UploadProperties.CleanBatchKeepsError | upload.go:96-108 | a batch without offending files leaves `UploadErr` as it was |
| UploadProperties.AcceptedBatch | upload.go:90-112 | an accepted batch goes to the save loop after one form read, `Info` unchanged |
| UploadProperties.RunPrefix | upload.go:112-135 | iterations that succeed advance the loop to where they end, with only the latest record in `MultiInfo` |
| UploadProperties.RunToEnd | upload.go:112-136 | a run of successful iterations over every file ends the loop with nil |
| UploadProperties.RunThenFail | upload.go:118-125 | after successful iterations, a failing one ends the loop with its error, its log and the run's `MultiInfo` |
| UploadProperties.StepAt | upload.go:113-134 | the j-th successful iteration saves the j-th file under the path for clock read 2j and draw 8j and adds its record |
| UploadProperties.StepsRun | upload.go:112-135 | while saves and stats succeed, the first n iterations form a run with the closed-form logs and records |
| UploadProperties.StepFails | upload.go:118-125 | the iteration of file n, when its save or stat fails, returns that error with the closed-form log |
| UploadProperties.LoggedRunSucceeds | upload.go:112-136 | a closed-form run over every file gives nil, the last record and the final log |
| UploadProperties.LoggedRunFails | upload.go:112-125 | a closed-form run of n iterations and a failing one gives that error, the record before n and the failed log |
| UploadProperties.LoopSucceeds | upload.go:112-136 | for any iteration that stores at a path function, all saves and stats succeeding gives nil with the last record only |
| UploadProperties.LoopFails | upload.go:112-125 | for such an iteration, the first failure at file n gives its error and keeps the n earlier saves |
| UploadProperties.StoreSucceeds | upload.go:113-134 | one iteration with successful save and stat saves under the name from the next clock read and eight draws, examines that path and records the stat and a second clock read |
| UploadProperties.StoreFails | upload.go:113-125 | one iteration whose save or stat fails has attempted the save at the generated path and returns the save's error, or else the stat's |
| UploadProperties.UploadStoresAt | upload.go:112-135 | `Upload`'s iteration stores each file at its `StoredPath` |
| UploadProperties.MultiSuccess | upload.go:112-136 | an accepted batch whose saves and stats all succeed gives nil; the j-th file is saved and examined at its generated path; `MultiInfo` holds the last file's record only |
| UploadProperties.MultiSaveFailure | upload.go:112-125 | an accepted batch whose file n is the first to fail returns that error; the n earlier files stay saved and the failed save was attempted; `MultiInfo` holds the record of the file before n |
| Utils.RandString | utils/utils.go:24-35 | n runes, the i-th being the pool entry at the i-th draw; from a non-empty pool only its runes, from an empty pool only ASCII letters and digits |
| Utils.EffectivePool | utils/utils.go:22-27 | the caller's pool when non-empty, otherwise a 62-rune default; never empty |
| Utils.DefaultPoolIsAlphanumeric | utils/utils.go:22 | the default pool has 62 runes and holds a rune if and only if it is an ASCII letter or digit |
| Utils.EmptyPoolIsAlphanumeric | utils/utils.go:25-27 | an empty pool stands for exactly the ASCII letters and digits |
| Utils.Drawn | utils/utils.go:28-34 | the drawn string has one rune per draw |
| Utils.DrawnFromPool | utils/utils.go:29-33 | each drawn rune is the pool entry the draw names, hence a rune of the pool |
| Utils.LowerRange | utils/utils.go:22 | the lower-case part of the pool is the 26 letters a-z in order |
| Utils.UpperRange | utils/utils.go:22 | the upper-case part of the pool is the 26 letters A-Z in order |
| Utils.DigitRange | utils/utils.go:22 | the digit part of the pool is 0-9 in order |
| Utils.InCharRange | utils/utils.go:22 | a rune is in a character range if and only if its code lies in the range |
| Utils.Mkdir | utils/utils.go:11-20 | the folder is the dated folder joined below the base path; on a `MkdirAll` error the result is "" with that error |
| Host.FilesUnder | upload.go:95 | `form.File[file.FormName]`: the headers under the name, an empty list when the key is missing; see `EmptyBatch` |
| Host.Draws | utils/utils.go:31 | the next n answers of `rand.Int` with the given bound, by call number; see `DrawsBounded` |
| Host.FirstFile | upload.go:138 | a header is found if and only if the form parses and has a file under the name; it is the first one |
| Host.DrawsBounded | utils/utils.go:31 | n draws, each below the bound |
| Host.Host.RandInts | utils/utils.go:29-31 | the draws are the oracle's answers from the current call number on, and the count advances by n |
| Host.Host.MultipartForm | upload.go:91 | the parsed form, and one more form read in the log |
| Host.Host.FormFile | upload.go:138 | the first header under the name, and one more form read in the log |
| Host.Host.Now | upload.go:113 | the next clock reading, and one more clock read in the log |
| Host.Host.SaveUploadedFile | upload.go:118 | the next save answer, and the save recorded in the log |
| Host.Host.Stat | upload.go:122 | the next stat answer, and the path recorded in the log |
| Strings.Fields | upload.go:188-190 | `strings.FieldsFunc` with a one-rune separator: the maximal separator-free runs; see `FieldsAreClean`, `FieldsDropOnlySeparators`, `FieldsOfJoin` |
| Strings.JoinWith | upload.go:117 | `strings.Join` inside `filepath.Join`: the elements with the separator between neighbours; see `JoinWithSnoc`, `FieldsOfJoin` |
| Strings.FieldsOfJoin | upload.go:188-190 | splitting on a separator undoes joining with it when no element is empty or holds it |
| Strings.FieldsAreClean | upload.go:188-190 | every field is non-empty and free of the separator |
| Strings.FieldsDropOnlySeparators | upload.go:188-190 | concatenating the fields gives the string with its separators removed |
| Strings.FieldsAppend | upload.go:188-190 | a separator splits the fields of what precedes it from those of what follows |
| Strings.JoinWithSnoc | upload.go:117 | joining one more element adds the separator and that element |
| Strconv.FormatInt | upload.go:114 | `strconv.FormatInt(n, 10)`: a minus sign for negative numbers, then the decimal digits without leading zeros; see `FormatIntShape`, `FormatIntRoundTrip` |
| Strconv.FormatIntShape | upload.go:114 | the decimal form is non-empty, starts with '-' exactly for negative numbers and is otherwise digits |
| Strconv.FormatIntRoundTrip | upload.go:114 | parsing the decimal form gives the number back |
| Strconv.Pad | utils/utils.go:12 | a number in decimal with leading zeros up to the width, as the layout's padded fields; see `PadRoundTrip` |
| Strconv.PadRoundTrip | utils/utils.go:12 | a zero-padded field reads back as the number |
| Paths.Ext | upload.go:103 | `path.Ext`: the suffix from the last '.' of the final slash-separated element, or "" when it has no '.'; see `ExtShape`, `ExtOfDotted`, `ExtOfDotless` |
| Paths.Clean | upload.go:117 | `filepath.Clean` on Unix: "." elements dropped, ".." resolved lexically, repeated and trailing slashes removed, "." for an empty result; see `JoinInDir` |
| Paths.Join | upload.go:117 | `filepath.Join`: the elements from the first non-empty one joined by '/' and cleaned; see `JoinInDir` |
| Paths.ExtShape | upload.go:103 | the extension is a suffix of the path starting with its only '.' and holding no '/'; when it is empty, the final element has no '.' |
| Paths.ExtOfDotted | upload.go:115-116 | an extension is kept whatever is put before it |
| Paths.ExtOfDotless | upload.go:115-116 | a string without dots has no extension |
| Paths.JoinInDir | upload.go:117 | joining a non-empty directory, "/" and one path element gives that element directly inside the cleaned directory |
| Paths.CleanElemsSnoc | upload.go:117 | cleaning a list that ends with an ordinary element keeps that element at the end |
| Paths.FieldsBelow | upload.go:117 | the elements of the joined path are those of the directory followed by the name |
| Times.Unix | upload.go:113 | whole seconds rounded towards the past: the instant lies in that second |
| Times.FormatYear | utils/utils.go:12 | the "2006" layout element: the year padded to at least four digits, a '-' first for negative years; see `DateFolderRoundTrip` |
| Times.DateFolder | utils/utils.go:12 | the layout "2006/01/02": a year of at least four digits, then the month and the day, each padded to at least two digits, separated by '/'; see `DateFolderRoundTrip` |
| Times.DateFolderRoundTrip | utils/utils.go:12 | for years 0 to 9999 the folder is "YYYY/MM/DD" and each field reads back as the date's value |

## Left out

- The gin context and multipart parsing, and the byte copy done by `SaveUploadedFile`: own code of gin, modelled as the request and save answers of the oracle.
- The effects on the disk of `os.Stat` and `os.MkdirAll`: modelled as answers (`Oracle.statReply`, the `mkdirAll` parameter of `Utils.Mkdir`).
- `time.Now` and the local time zone: the clock is an oracle, and `Utils.Mkdir` takes the local date as a parameter.
- `crypto/rand` entropy: the answers of `rand.Int` are an oracle bounded by its argument. When `rand.Int` fails it returns a nil number, and `randN.Int64()` then panics; the model covers only runs in which every draw succeeds.
- The text of the `fmt.Errorf` messages: an annotated error keeps only the file name and the wrapped sentinel, which is all `errors.Is` looks at.
- example.go, a usage sample, is not part of this model.
- Utils.RandString: takes `n` as a natural number. A negative `n`, for which `make` panics in Go, is not modelled.
- Utils.RandString: takes the draws as a parameter that the caller obtains before the call, rather than interleaving them with the writes. The draws are the same, since nothing else draws in between.
- Runes against bytes: strings are sequences of Unicode scalar values. `strings.FieldsFunc` ranges over runes, as modelled; `path.Ext` works on bytes, and agrees with the model because the '.' and '/' it looks for are ASCII.
- Host.FirstFile: `FormFile` also fails when opening the first file fails. The model does not separate that case: on the single-file path it gives the same result as an oracle whose form is `None`, namely `UploadFaildErr` after one read.
- `filepath` on Windows: only the Unix, slash-separated behaviour is modelled.
- Times.DateFolderRoundTrip: states the layout only for years 0 to 9999, and the model does not check that a date is a real calendar date beyond the month and day ranges.
- `int64` arithmetic: sizes are an `int64` newtype and are only compared. The clock may answer any integer instant, of which Go's `time.Time` range is a subset, and `Times.Unix` converts it with unbounded integers.
