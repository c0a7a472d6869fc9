# Image to 3D Model Converter — a Dafny model of its submission pipeline

The converter is a Streamlit page: the user uploads a photograph, the page
checks the file name, saves the upload to a temporary directory, empties the
`outputs` folder, sends the image to a hosted image-to-3D service, and copies
the returned 3D model (`.glb`), an optional turntable video and the original
image into `outputs` under names derived from the upload's name.

This project models that pipeline and proves what it guarantees:

- `FileNames` — `allowed_file` (the last dot-separated segment, lower-cased,
  is `png`, `jpg` or `jpeg`), POSIX `os.path.splitext`, `split('.')[-1]`, and
  the three output names `<base>_3d_model.glb`, `<base>_original.<ext>` and
  `<base>_video.mp4`.
- `QuotaMessage` — the classification of a failed remote call: a quota error
  exactly when the message contains `exceeded your GPU quota`, with the wait
  time taken from the leftmost `Try again in (\d+:\d+:\d+)` match (greedy
  digit groups) or `some time` when there is none; any other message is
  passed on unchanged.
- `Pipeline` — the output folder as a class (`present`, `files`) with
  `Recreate` (remove and re-create) and `CopyIn` (`shutil.copyfile`);
  `Generate3DModel`, which runs the steps of `generate_3d_model` in order
  against that folder; and `Submit`, the gate that lets only an allowed file
  name reach it. Specification functions (`FolderAfter`, `ArtifactsOf`,
  `ReportOf`, `PredictCalls`) state the outcome of one run, and lemmas state
  what it means: failure leaves nothing behind, success leaves exactly two or
  three files of the run's own name, the returned paths point at them, a
  later run whose upload is saved replaces an earlier one, and the remote
  call is made at most once.

The remote service, the local disk and `secure_filename` are inputs: a
`RemoteOutcome` (the client could not be built, `predict` raised with a
message, or it returned a model path and a video path), a map from the paths
that exist to their contents, and the already sanitised name, of which the
model assumes only that it holds no `/`.

`client.predict` is a method of a `Space` object that counts the
predictions asked of it, so that "one call, never retried" is a statement
about the state a run leaves behind. A failed remote call ends the run, and
the upload's bytes are copied unchanged.

## Model

| member | source | states |
|---|---|---|
| FileNames.RFind | 3D-Image-Generation/streamlit.py:28 | the index of the last occurrence of a character, or -1 when there is none: the character is there and not after it |
| FileNames.Lower | 3D-Image-Generation/streamlit.py:28 | `str.lower` on ASCII: same length, no capital left, each capital moved to its small letter, every other character kept |
| FileNames.LastSegmentOfLower | 3D-Image-Generation/streamlit.py:28 | lower-casing keeps the last '.' where it is, so lowering and taking the last segment commute |
| FileNames.LowerIdempotent | 3D-Image-Generation/streamlit.py:28 | lowering a lowered name changes nothing |
| FileNames.AllowedFileCaseInsensitive | 3D-Image-Generation/streamlit.py:27-28 | every name is allowed exactly when its lower-cased form is |
| FileNames.AllowedFile | 3D-Image-Generation/streamlit.py:25-28 | `allowed_file`: a '.' in the name and the lower-cased last segment in ALLOWED_EXTENSIONS (characterised by `AllowedFileIff`) |
| FileNames.Base | 3D-Image-Generation/streamlit.py:66 | `os.path.splitext(filename)[0]`: a prefix of the name, followed by nothing or by one `.` and then neither a `.` nor a `/` |
| FileNames.ModelFileName | 3D-Image-Generation/streamlit.py:112 | the model's name `<base>_3d_model.glb` |
| FileNames.ImageFileName | 3D-Image-Generation/streamlit.py:119 | the image copy's name `<base>_original.<last segment>` |
| FileNames.VideoFileName | 3D-Image-Generation/streamlit.py:126 | the video's name `<base>_video.mp4` |
| FileNames.FormatWarningAsWritten | 3D-Image-Generation/streamlit.py:242 | the format check as written, on splitext's extension with its '.' |
| FileNames.FormatWarning | 3D-Image-Generation/streamlit.py:242-243 | the format check as evidently intended, on the extension without its '.' |
| FileNames.LastSegment | 3D-Image-Generation/streamlit.py:28 | `rsplit('.', 1)[1]` and `split('.')[-1]`: a dot-free suffix of the name, directly after a '.' when the name has one, the whole name otherwise |
| FileNames.AllowedFileIff | 3D-Image-Generation/streamlit.py:25-28 | a name is allowed exactly when it has a last '.' and the text after it, lower-cased, is png, jpg or jpeg |
| FileNames.LastDotIsRFind | 3D-Image-Generation/streamlit.py:28 | the last '.' of a name is the one `rsplit('.', 1)` splits at |
| FileNames.RFindIsLastDot | 3D-Image-Generation/streamlit.py:28 | the '.' `rsplit('.', 1)` splits at is followed by no other '.', and the text after it is the last segment |
| FileNames.AllowedFileAtLastDot | 3D-Image-Generation/streamlit.py:28 | given the last '.', a name is allowed exactly when the lower-cased text after it is in the list |
| FileNames.AllowedFileIgnoresCase | 3D-Image-Generation/streamlit.py:28 | the extension is compared case-insensitively: `A.PNG` is allowed |
| FileNames.AllowedFileChecksLastSegment | 3D-Image-Generation/streamlit.py:28 | with several dots only the last segment is checked, in any case: `a.b.Jpeg` is allowed |
| FileNames.AllowedFileUsesLastExtension | 3D-Image-Generation/streamlit.py:28 | only the last extension counts: `x.png.txt` is refused |
| FileNames.AllowedFileRefusesOtherExtension | 3D-Image-Generation/streamlit.py:25-28 | an extension outside png, jpg, jpeg is refused: `a.gif` |
| FileNames.AllowedFileNeedsDot | 3D-Image-Generation/streamlit.py:28 | a name without '.' is refused even when it spells an extension |
| FileNames.SplitExt | 3D-Image-Generation/streamlit.py:66 | `os.path.splitext`: root and extension concatenate to the path; the extension is empty or one '.' followed by no '.' and no '/'; a non-empty extension leaves a non-empty root |
| FileNames.SplitExtOfDottedName | 3D-Image-Generation/streamlit.py:66 | for `head.ext` with a non-dot character in `head` and no separator, splitext gives `(head, .ext)` and the last segment is `ext` |
| FileNames.ArtifactNamesDistinct | 3D-Image-Generation/streamlit.py:112-126 | the model, image and video names of one base are pairwise different, so no copy overwrites another |
| FileNames.ArtifactNamesStartWithBase | 3D-Image-Generation/streamlit.py:112-126 | each output name begins with the upload's base name |
| FileNames.ArtifactNamesOfDottedName | 3D-Image-Generation/streamlit.py:66-126 | for `head.ext` the outputs are `head_3d_model.glb`, `head_original.ext` and `head_video.mp4` |
| FileNames.FormatWarningAlwaysFires | 3D-Image-Generation/streamlit.py:242-243 | the format check as written holds for every name, since splitext's extension keeps its '.' |
| FileNames.FormatWarningMatchesAllowedFile | 3D-Image-Generation/streamlit.py:242-243 | the check without the '.' fires for every name allowed_file refuses and for none it accepts (given a non-dot character before the last '.' and no separator) |
| QuotaMessage.ContainsFrom | 3D-Image-Generation/streamlit.py:93 | the substring test from an index on holds exactly when the text occurs at or after it |
| QuotaMessage.Contains | 3D-Image-Generation/streamlit.py:93 | Python's `in` on strings holds exactly when the text occurs somewhere |
| QuotaMessage.DigitRun | 3D-Image-Generation/streamlit.py:95 | greedy `\d+`: the longest run of digits from an index, all digits and followed by a non-digit or the end |
| QuotaMessage.DigitRunOf | 3D-Image-Generation/streamlit.py:95 | a maximal digit run of length n is the one the greedy match takes |
| QuotaMessage.GroupThenColon | 3D-Image-Generation/streamlit.py:95 | `\d+:` from an index: a non-empty digit run ending in ':' |
| QuotaMessage.GroupThenColonOf | 3D-Image-Generation/streamlit.py:95 | digits written at an index followed by ':' are what `\d+:` takes there |
| QuotaMessage.ClockEnd | 3D-Image-Generation/streamlit.py:95 | `\d+:\d+:\d+` from an index ends at least five characters on, after a maximal final digit run |
| QuotaMessage.ClockEndIsClock | 3D-Image-Generation/streamlit.py:95 | the text `\d+:\d+:\d+` matches is of the form H:M:S |
| QuotaMessage.ClockFromGroups | 3D-Image-Generation/streamlit.py:95 | three digit groups separated by ':' form an H:M:S text |
| QuotaMessage.ClockEndOf | 3D-Image-Generation/streamlit.py:95 | three maximal digit groups separated by ':' are matched up to the end of the third |
| QuotaMessage.ClockEndOfText | 3D-Image-Generation/streamlit.py:95 | `a:b:c` written at an index with a maximal `c` is matched in full |
| QuotaMessage.ClockTextPieces | 3D-Image-Generation/streamlit.py:95 | `a:b:c` at an index places each group and each ':' at its own position |
| QuotaMessage.MatchAt | 3D-Image-Generation/streamlit.py:95 | a match at an index starts with "Try again in ", captures at least five characters right after it, and the capture ends at a non-digit or the end |
| QuotaMessage.MatchAtIsClock | 3D-Image-Generation/streamlit.py:95-96 | every capture is of the form H:M:S |
| QuotaMessage.MatchAtOf | 3D-Image-Generation/streamlit.py:95 | the prefix followed by a matched H:M:S gives that capture |
| QuotaMessage.MatchAtClock | 3D-Image-Generation/streamlit.py:95 | "Try again in a:b:c" with a maximal `c` is matched with capture `a:b:c` |
| QuotaMessage.OccursAtConcat | 3D-Image-Generation/streamlit.py:93 | an occurrence of `x + y` is an occurrence of `x` followed by one of `y` |
| QuotaMessage.OccursAtChar | 3D-Image-Generation/streamlit.py:95 | a one-character occurrence is that character at that index |
| QuotaMessage.OccursAtSplit3 | 3D-Image-Generation/streamlit.py:95 | an occurrence of `x + y + z` places each part in turn |
| QuotaMessage.DigitsOfOccurrence | 3D-Image-Generation/streamlit.py:95 | an all-digit text occurring at an index makes that range digits |
| QuotaMessage.WaitTime | 3D-Image-Generation/streamlit.py:95-96 | `wait_time`: the capture of the leftmost match, or "some time" (see `WaitTimeShape`, `WaitTimeIsLeftmost`, `WaitTimeDefaultIff`) |
| QuotaMessage.FirstMatch | 3D-Image-Generation/streamlit.py:95 | `re.search`: the leftmost index with a match, none before it; none at all when it finds none |
| QuotaMessage.DefaultWaitIsNotClock | 3D-Image-Generation/streamlit.py:96 | "some time" is not of the form H:M:S |
| QuotaMessage.WaitTimeDefaultIff | 3D-Image-Generation/streamlit.py:95-96 | the wait time is "some time" exactly when the message has no match |
| QuotaMessage.WaitTimeShape | 3D-Image-Generation/streamlit.py:95-96 | the wait time is "some time" or of the form H:M:S |
| QuotaMessage.WaitTimeIsLeftmost | 3D-Image-Generation/streamlit.py:95-96 | with a match, the wait time is the capture of the leftmost one |
| QuotaMessage.NoMatchWithoutT | 3D-Image-Generation/streamlit.py:95 | no match starts at a character other than 'T' |
| QuotaMessage.WaitTimeAfterText | 3D-Image-Generation/streamlit.py:95-96 | for text without 'T' followed by "Try again in a:b:c", the wait time is `a:b:c` |
| QuotaMessage.ClassifyRemoteError | 3D-Image-Generation/streamlit.py:91-101 | a quota error exactly when the message contains "exceeded your GPU quota", with wait time "some time" or H:M:S; otherwise the message passed on unchanged |
| QuotaMessage.QuotaErrorWithWaitTime | 3D-Image-Generation/streamlit.py:91-98 | a quota message with "Try again in a:b:c" (no earlier 'T') reports wait time `a:b:c` |
| QuotaMessage.QuotaErrorWithoutWaitTime | 3D-Image-Generation/streamlit.py:91-98 | a quota message without "Try again in " reports "some time" |
| Pipeline.SecureName | 3D-Image-Generation/streamlit.py:59 | what the model assumes of `secure_filename`'s result: it holds no `/` |
| Pipeline.OutputPath | 3D-Image-Generation/streamlit.py:113 | `os.path.join(OUTPUT_FOLDER, name)` on POSIX: `outputs/` followed by the name |
| Pipeline.Writable | 3D-Image-Generation/streamlit.py:60-63 | the names `open(filepath, "wb")` can write in a fresh temporary directory: not "", "." or ".." |
| Pipeline.Usable | 3D-Image-Generation/streamlit.py:107-125 | `path and os.path.exists(path)`: a non-empty path that exists on the disk |
| Pipeline.FolderAfter | 3D-Image-Generation/streamlit.py:54-139 | the output folder's files after one run: unchanged when the upload could not be written, otherwise empty unless a usable model came back, then the model, the upload and the usable video under their output names |
| Pipeline.ArtifactsOf | 3D-Image-Generation/streamlit.py:54-139 | the returned triple: three output paths (the video's only when usable) after a successful run, `(None, None, None)` otherwise |
| Pipeline.ReportOf | 3D-Image-Generation/streamlit.py:54-139 | the error shown: none after success; the client's or the classified predict message, a missing model, or an upload that could not be saved |
| Pipeline.PredictCalls | 3D-Image-Generation/streamlit.py:73-90 | the number of `client.predict` calls one run makes: none when the upload could not be saved or the client could not be built, one otherwise |
| Pipeline.AtMostOnePrediction | 3D-Image-Generation/streamlit.py:79-102 | a run predicts at most once, and exactly once when the upload was saved and the client built: there is no retry |
| Pipeline.Space.constructor | 3D-Image-Generation/streamlit.py:73-76 | a space nobody has asked yet has made no prediction |
| Pipeline.Space.Predict | 3D-Image-Generation/streamlit.py:81-90 | `client.predict` counts one more prediction and yields the service's answer |
| Pipeline.OutputFolder.constructor | 3D-Image-Generation/streamlit.py:20-22 | `makedirs(exist_ok=True)` at start-up leaves an existing folder's files in place |
| Pipeline.OutputFolder.Recreate | 3D-Image-Generation/streamlit.py:30-44 | afterwards the folder exists and is empty, whether or not it existed before |
| Pipeline.OutputFolder.CopyIn | 3D-Image-Generation/streamlit.py:116-128 | the copied name holds the data and every other file is unchanged |
| Pipeline.Generate3DModel | 3D-Image-Generation/streamlit.py:54-139 | the new folder, the returned paths and the error are those of `FolderAfter`, `ArtifactsOf` and `ReportOf`, and the space's prediction count grows by `PredictCalls`; an unsaved upload leaves the folder as it was |
| Pipeline.Submit | 3D-Image-Generation/streamlit.py:205-243 | a refused name changes nothing, reports nothing and predicts nothing; an allowed one runs generate_3d_model, with its whole new state; the format warning of line 242 as written shows exactly after every successful run |
| Pipeline.FailedRunLeavesFolderEmpty | 3D-Image-Generation/streamlit.py:100-109 | a saved upload without a usable model returns `(None, None, None)` with an error and leaves the folder empty |
| Pipeline.SuccessfulRunArtifacts | 3D-Image-Generation/streamlit.py:107-133 | a successful run leaves exactly the model and image copies, plus the video when it exists: two or three files, with the model's and the upload's contents |
| Pipeline.VideoIffUsable | 3D-Image-Generation/streamlit.py:124-128 | the video path is returned, and the video copied, exactly when the returned video path is non-empty and exists |
| Pipeline.ReturnedPathsAreInFolder | 3D-Image-Generation/streamlit.py:113-133 | every returned path is the output folder joined with a file the run left there |
| Pipeline.FolderHoldsOnlyThisRun | 3D-Image-Generation/streamlit.py:66-126 | after a run whose upload is saved, every file in the folder starts with the run's own base name |
| Pipeline.SecondRunReplacesFirst | 3D-Image-Generation/streamlit.py:69 | a second run whose upload is saved leaves what it would leave in an empty folder; one whose upload is not saved keeps the earlier files (`FolderAfter`) |
| Pipeline.SuccessfulRunNames | 3D-Image-Generation/streamlit.py:66-127 | for an upload `head.ext` the returned paths are `outputs/head_3d_model.glb`, `outputs/head_original.ext` and `outputs/head_video.mp4` |
| Pipeline.PredictFailureIsFinal | 3D-Image-Generation/streamlit.py:91-102 | a failed predict is classified, not retried, returns no paths and leaves the folder empty |

## Left out

- The page layout, the upload widget, the image preview, `display_3d_model` and the download link: presentation only.
- Loading `HF_TOKEN` with dotenv and the `UPLOAD_FOLDER` directory, which nothing else uses.
- The remote service and the network: the outcome of building the client and of `predict` is the `RemoteOutcome` input; the `Client` built anew on every run is not an object of its own, and the predictions it makes are counted on one long-lived `Space`; the generation parameters (seed, background removal, video, refinement, expansion weight, mesh initialisation) are passed through unchanged and are not modelled.
- `secure_filename`: the sanitised name is an input; the model relies only on its holding no `/`.
- The file system beyond the output folder: the temporary directory is not modelled, nor the disk that holds the remote results (a map from existing paths to contents); failures of `rmtree`, `makedirs` or `copyfile`, and a result that is not a pair, are not modelled.
- Pipeline.Writable: of the ways `open(filepath, "wb")` can fail, only the names `""`, `.` and `..` are modelled; a name over the file system's length limit (300 `a`s then `.png`, say) or a full disk also ends the run before the folder is emptied, but the model empties the folder and goes on.
- Pipeline.OutputPath: `os.path` is modelled as POSIX, joining with `/` and splitting extensions after the last `/`; on Windows `os.path.join` uses `\`.
- The temporary directory is removed only on success; the leak on the early returns is not modelled.
- The messages shown with `st.error`, `st.info` and the traceback: the model returns which error is reported (`Report`), not its wording.
- FileNames.Lower: `str.lower` is modelled on ASCII letters only; other Unicode capitals are left as they are.
- QuotaMessage.DigitRun: `\d` is modelled as the ASCII digits only; other Unicode decimal digits are not matched.
- Concurrent submissions racing on the output folder: a page run is sequential.
- A failed remote call ends the run; nothing is retried, and the upload's bytes are sent and copied unchanged.

## Findings

| source | as written | input that shows it | evidently intended | confidence | as-written member | corrected member |
|---|---|---|---|---|---|---|
| 3D-Image-Generation/streamlit.py:242 | compares `os.path.splitext(name)[1].lower()`, which keeps the leading '.', with `png`, `jpg`, `jpeg` | the upload `photo.png`: the extension is `.png`, not in the set, so "Invalid file format" is shown after a successful run | compare the extension without its '.', which agrees with allowed_file | not executed | FileNames.FormatWarningAlwaysFires | FileNames.FormatWarningMatchesAllowedFile |
