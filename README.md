# instacartSignify capture-and-match loop, modelled in Dafny

The repository holds four near-duplicate Python scripts. Each one repeatedly
captures a camera frame and recognises its text with OCR. It then looks up the
photo library for photos whose own OCR text contains the frame text, and reports
what it found. This project models that loop and proves properties of it.

The shared, pure parts are modelled once:

- `Matching`: Python's `ocr_text in text` on strings (`Contains`). It also holds
  the two library scans the scripts use, each with lemmas:
  - `SkipScan` skips a photo whose opening or OCR raises and keeps scanning.
  - `AbortScan` gives up on the first photo that raises, with no partial result.
- `Library`: `os.path.join`, the Android listing comprehension (`LibraryPaths`),
  and the iOS "one image per asset" read (`ReadAll`).
- `Messages`: `", ".join(...)` and the `"Match Found: ..."` / `"No match found"`
  status text.
- `Binarize`: the threshold lambda `0 if x < 128 else 255` of the grayscale variant.
- `CaptureLoop`: the environment's behaviour during a run, as a finite schedule
  of loop iterations and stop requests. It also holds the camera's outcome and
  the warning lines the loop prints.

Each script is a module with a class for its view object. The class fields are
the state the script changes in place:

- the `run_thread` flag;
- the file store, as sets of regular-file and directory paths;
- the console lines or the text view's text;
- the list of `os.remove` calls.

`Cycle` is one iteration of `update_image`'s `while self.run_thread` body.
`UpdateImage` runs the loop over a schedule. The environment enters through
each iteration's input:

- OCR, the image reads, `os.listdir` and `photos.get_assets()` are `Option`
  values or functions returning one, where `None` means the call raised;
- the camera is a `CaptureLoop.CameraRun`, which separates a non-zero exit
  status, a missing executable and any other `OSError` while starting it;
- `os.remove` is a `removeFails` flag.

Behaviour of the scripts worth noting:

- The code does not degrade a failed frame OCR to empty text. In the two guarded
  Android scripts it ends the iteration, and the frame is then removed. In
  `instacartsignifyANDROID.py` it ends the worker thread.
- Per-photo error isolation exists only in `grayscalesignifyANDROID.py` and
  `signifyMATCHandroid.py`. Both instacart scripts abort the whole scan.
- `capture_frame` in the two guarded Android scripts catches only
  `CalledProcessError` and `FileNotFoundError`. Any other `OSError` from
  starting the camera is raised at the call in `update_image`, outside the
  `try`, and ends the worker while the run flag is still set; the
  controller's later `stop` clears it.
- An empty frame text is not special-cased. It matches every readable photo
  (`Matching.EmptyTextMatchesReadable`).
- `instacartsignifyANDROID.py` never removes its frame file. A frame left by an
  earlier iteration is processed again when the camera fails. Any exception
  ends its worker while the run flag is still set; `will_close` clears it
  later.
- The library's OCR text is recomputed on every scan. Nothing is cached and
  nothing is deleted from the library. The library files are never touched by
  the loop (`UpdateImage` ensures this).

## Model

| member | source | states |
|---|---|---|
| `Matching.Contains` | grayscalesignifyANDROID.py:61 | Python `in` on strings: the empty string is contained in every string, and contained text is no longer than the text containing it |
| `Matching.ContainsIff` | grayscalesignifyANDROID.py:61 | containment holds exactly when the frame text occurs at some index of the photo's text (plain, case-sensitive substring) |
| `Matching.MissingCharNotContained` | instacartsignifyiOS.py:123 | text using a character that the photo's text lacks is never a match |
| `Matching.ReceiptExample` | signifyMATCHandroid.py:55 | "TOTAL $50" is found in "INVOICE #123 TOTAL $50" and not in "RECEIPT STORE A" |
| `Matching.CaseSensitiveExample` | instacartsignifyANDROID.py:50 | "total $50" is not found in "TOTAL $50": matching distinguishes case |
| `Matching.SkipScan` | grayscalesignifyANDROID.py:53-65 | every photo reported is readable and its text contains the frame text; the result is no longer than the library |
| `Matching.SkipScanAppend` | grayscalesignifyANDROID.py:57-64 | scanning a concatenated library gives the concatenated results: no photo changes what is found among later ones |
| `Matching.UnreadableSkipped` | grayscalesignifyANDROID.py:57-64 | a photo whose opening or OCR raises is left out and every later photo is still scanned |
| `Matching.SkipScanIsSubseq` | grayscalesignifyANDROID.py:56-62 | the matches are a subsequence of the library, in library order |
| `Matching.SkipScanCount` | signifyMATCHandroid.py:50-59 | each readable, containing photo occurs in the result as often as in the library; no other photo occurs |
| `Matching.SkipScanMembers` | signifyMATCHandroid.py:51-56 | a photo is in the result exactly when it is in the library, readable, and its text contains the frame text |
| `Matching.SkipScanUnique` | grayscalesignifyANDROID.py:53-65 | any list that is a subsequence of the library with those occurrence counts equals the scan's result, so the two properties specify it completely |
| `Matching.EmptyTextMatchesReadable` | grayscalesignifyANDROID.py:61-62 | an empty frame text matches every readable photo, and the whole library when all are readable |
| `Matching.AbortScan` | instacartsignifyANDROID.py:45-52 | the scan without a try has a result exactly when every photo is readable, and that result is the skipping scan's |
| `Matching.ScansOnUnreadable` | instacartsignifyANDROID.py:45-52 | one unreadable photo between two parts of the library: the aborting scan loses the matches of both parts, the skipping scan keeps them |
| `Library.JoinPath` | grayscalesignifyANDROID.py:47 | `os.path.join`: an absolute name discards the directory; a relative name ends the result, which starts with the directory; a single '/' is put between them exactly when the directory is non-empty and does not already end in '/' |
| `Library.LibraryPaths` | grayscalesignifyANDROID.py:47 | the comprehension keeps at most one path per listed name, and only paths that are regular files |
| `Library.LibraryPathsMembers` | signifyMATCHandroid.py:41 | a path is listed exactly when it is a regular file and is the join of the directory with some listed name |
| `Library.LibraryPathsUnderDir` | instacartsignifyANDROID.py:42 | with relative names every listed path is prefixed with the photo directory |
| `Library.ReadAll` | instacartsignifyiOS.py:109-115 | a successful read of the assets yields as many images as there are assets |
| `Library.ReadAllSpec` | instacartsignifyiOS.py:110-115 | the read succeeds exactly when every asset's image can be read, and then yields each asset's image at the asset's position |
| `Messages.JoinContainsEach` | grayscalesignifyANDROID.py:110 | every matched path can be found in `", ".join(matches)` |
| `Messages.JoinWith` | grayscalesignifyANDROID.py:110 | `", ".join(matches)` is empty for no items, starts with the first item, ends with the last, and is as long as the items plus one separator between each two |
| `Messages.JoinWithAppend` | grayscalesignifyANDROID.py:110 | joining two non-empty lists back to back gives their joins with exactly one separator at the seam; with the one-item case this fixes the joined text |
| `Messages.StatusMessage` | grayscalesignifyANDROID.py:109-112 | the message starts with "Match Found: " exactly when the match list is non-empty, and is then "Match Found: " followed by the `", "`-join of the matches; otherwise it is "No match found" |
| `Messages.StatusMessageReports` | grayscalesignifyANDROID.py:110 | a non-empty match list's message names every match |
| `Binarize.Point` | grayscalesignifyANDROID.py:86 | thresholding keeps the image size and maps each pixel on its own: 0 exactly where the input pixel is below 128, 255 exactly where it is 128 or more |
| `Binarize.Threshold` | grayscalesignifyANDROID.py:86 | a value maps to 0 exactly when it is below 128, and to 255 exactly when it is at least 128 |
| `Binarize.ThresholdMonotone` | grayscalesignifyANDROID.py:86 | the threshold preserves the order of pixel values |
| `Binarize.PointIdempotent` | grayscalesignifyANDROID.py:86 | thresholding twice equals thresholding once |
| `CaptureLoop.TicksBeforeStop` | grayscalesignifyANDROID.py:69 | the number of loop iterations before the first stop request: all of them are iterations and the next event is the stop |
| `CaptureLoop.RunLength` | grayscalesignifyANDROID.py:69-71 | iterations run up to the first stop request or the first iteration that raises, including it: all earlier ones did not raise, and without a raising one the count is that of the stop |
| `CaptureLoop.CrashesBeforeStopIff` | grayscalesignifyANDROID.py:69-71 | the worker crashes exactly when some iteration before the first stop request raises |
| `CaptureLoop.RunEnds` | grayscalesignifyANDROID.py:69-71 | after iterations that did not raise, the run ends with the schedule, a stop request, or one more iteration that raises, and the run length, crash and stop follow |
| `CaptureLoop.HasFrame` | grayscalesignifyANDROID.py:71-72 | processing starts exactly when the camera command succeeded and a file is at the frame path, written now or left earlier |
| `GrayscaleAndroid.GetPhotoLibrary` | grayscalesignifyANDROID.py:40-51 | empty when the directory does not exist or listing raises; otherwise exactly the listing comprehension's paths: regular files, each prefixed with the photo directory when the listed names are relative |
| `GrayscaleAndroid.FrameText` | grayscalesignifyANDROID.py:75-91 | a frame text exists only when opening, orientation, grayscale and contrast succeeded |
| `GrayscaleAndroid.FrameTextBinarized` | grayscalesignifyANDROID.py:86-91 | OCR is applied to the enhanced frame thresholded pixel by pixel: a two-level image of its size, black exactly where the frame is below 128 |
| `GrayscaleAndroid.LiveOcrView.constructor` | grayscalesignifyANDROID.py:11-19 | the run flag is set and the frame and library directories exist |
| `GrayscaleAndroid.LiveOcrView.CaptureFrame` | grayscalesignifyANDROID.py:25-38 | the frame path is returned exactly when the camera command succeeds; `CalledProcessError` and a missing utility give None and print their warning; any other `OSError` raises out of the call |
| `GrayscaleAndroid.LiveOcrView.CheckForMatch` | grayscalesignifyANDROID.py:53-65 | the loop returns exactly the skipping scan's result |
| `GrayscaleAndroid.LiveOcrView.UpdateUi` | grayscalesignifyANDROID.py:106-112 | prints the OCR text and then the status message |
| `GrayscaleAndroid.LiveOcrView.RemoveFrame` | grayscalesignifyANDROID.py:99-104 | removal is attempted once; a failure leaves the file and only adds a warning |
| `GrayscaleAndroid.LiveOcrView.Cycle` | grayscalesignifyANDROID.py:70-104 | an uncaught camera `OSError` ends the iteration with nothing else done; without a frame nothing but the capture happens (no OCR, matching or `update_ui`); with one, the thresholded frame is recognised, matched and reported, and its removal is attempted exactly once whether processing raised or not |
| `GrayscaleAndroid.LiveOcrView.Stop` | grayscalesignifyANDROID.py:114-117 | clears the run flag |
| `GrayscaleAndroid.LiveOcrView.UpdateImage` | grayscalesignifyANDROID.py:67-72 | iterations run until the first stop request, or until the first iteration whose camera start raises, which ends the worker with the flag still set when it dies; only the frame path is ever removed, at most once per iteration, and no other file changes |
| `SignifyMatchAndroid.GetPhotoLibrary` | signifyMATCHandroid.py:38-45 | empty when listing raises; otherwise exactly the listing comprehension's paths: regular files, prefixed with the photo directory when the listed names are relative |
| `SignifyMatchAndroid.MatchReport` | signifyMATCHandroid.py:82-87 | the banner is printed exactly when matches are non-empty, after a match line that is "Match Found! Image(s): " followed by the `", "`-join of the matches; otherwise the only line is "No match found" |
| `SignifyMatchAndroid.MatchReportAnnounces` | signifyMATCHandroid.py:83 | the match line names every match |
| `SignifyMatchAndroid.LiveOcr.constructor` | signifyMATCHandroid.py:10-18 | the run flag is set; the library directory and its ancestors are created only when no such path exists |
| `SignifyMatchAndroid.LiveOcr.CaptureFrame` | signifyMATCHandroid.py:24-36 | the frame path is returned exactly when the camera command succeeds; `CalledProcessError` and a missing utility give None and a warning; any other `OSError` raises out of the call |
| `SignifyMatchAndroid.LiveOcr.CheckForMatch` | signifyMATCHandroid.py:47-59 | the loop returns exactly the skipping scan's result |
| `SignifyMatchAndroid.LiveOcr.DisplayMatchMessage` | signifyMATCHandroid.py:98-102 | prints the three banner lines |
| `SignifyMatchAndroid.LiveOcr.ReportText` | signifyMATCHandroid.py:76-87 | once OCR succeeded, prints the OCR text and then the match report for the skipping scan of the library |
| `SignifyMatchAndroid.LiveOcr.RemoveFrame` | signifyMATCHandroid.py:91-96 | removal is attempted once; a failure leaves the file and only adds a warning |
| `SignifyMatchAndroid.LiveOcr.Cycle` | signifyMATCHandroid.py:64-96 | an uncaught camera `OSError` ends the iteration with nothing else done; without a frame the iteration does nothing but capture; with one, OCR text and match report are printed, and removal is attempted exactly once on every exit path |
| `SignifyMatchAndroid.LiveOcr.Stop` | signifyMATCHandroid.py:104-107 | clears the run flag |
| `SignifyMatchAndroid.LiveOcr.UpdateImage` | signifyMATCHandroid.py:61-66 | iterations run until the first stop request, or until the first iteration whose camera start raises, which ends the worker with the flag still set when it dies; only the frame path is ever removed, at most once per iteration |
| `InstacartAndroid.GetPhotoLibrary` | instacartsignifyANDROID.py:39-43 | raises exactly when listing raises; otherwise exactly the listing comprehension's paths: regular files, prefixed with the photo directory when names are relative |
| `InstacartAndroid.LiveOcrView.constructor` | instacartsignifyANDROID.py:26-31 | the run flag is set and the text view is empty |
| `InstacartAndroid.LiveOcrView.CaptureFrame` | instacartsignifyANDROID.py:33-37 | the fixed path is returned whatever the exit status; only an `OSError` while starting the camera raises |
| `InstacartAndroid.LiveOcrView.CheckForMatch` | instacartsignifyANDROID.py:45-52 | the result is absent exactly when some photo is unreadable, and otherwise is the scan's result |
| `InstacartAndroid.LiveOcrView.UpdateUi` | instacartsignifyANDROID.py:73-76 | the text becomes the status message |
| `InstacartAndroid.LiveOcrView.Cycle` | instacartsignifyANDROID.py:56-65 | the iteration raises exactly when the camera cannot be started, or a frame file is there and its OCR, the listing or a library photo raises; it proceeds exactly when a file is at the photo path, including a stale one; no file is removed; the text is updated only when nothing raised |
| `InstacartAndroid.LiveOcrView.WillClose` | instacartsignifyANDROID.py:78-80 | clears the run flag |
| `InstacartAndroid.LiveOcrView.UpdateImage` | instacartsignifyANDROID.py:54-65 | the iteration count and the crash are those of `RunFrom` on the starting files: iterations run until the first stop request or the first iteration that raises, which ends the worker with the flag still set when it dies; files are only ever added |
| `InstacartAndroid.CycleCrashes` | instacartsignifyANDROID.py:56-63 | an iteration always raises when the camera cannot be started, never when it started and no file is at the photo path, and always when a file is there and its OCR or the listing raises |
| `InstacartAndroid.RunFrom` | instacartsignifyANDROID.py:54-65 | a run that does not crash lasts until the first stop request; a crash happens in some iteration before it |
| `InstacartAndroid.FilesAfterShift` | instacartsignifyANDROID.py:57 | the files after the first iterations depend only on the camera runs, one frame file each, in schedule order |
| `InstacartAndroid.RanCleanExtend` | instacartsignifyANDROID.py:54-65 | an iteration that does not raise, run from the files the earlier ones left, extends a run of iterations that did not raise |
| `InstacartAndroid.RunFromEnds` | instacartsignifyANDROID.py:54-65 | after iterations that did not raise, the run ends with the schedule, a stop request, or one more iteration that raises, and `RunFrom` gives the count and the crash for each |
| `InstacartIos.LiveOcrView.constructor` | instacartsignifyiOS.py:26-33 | the run flag is set and the capture session is running |
| `InstacartIos.LibraryMatches` | instacartsignifyiOS.py:109-125 | the comparison has a result exactly when the assets can be fetched and every asset's image can be read and recognised; the result is then exactly the images, in library order, whose text contains the frame text |
| `InstacartIos.LiveOcrView.UpdateUi` | instacartsignifyiOS.py:105-107 | the text becomes the recognised frame text |
| `InstacartIos.LiveOcrView.GetPhotoLibraryImages` | instacartsignifyiOS.py:109-115 | one image per asset in asset order, or nothing when fetching the assets raises or some asset's image cannot be read |
| `InstacartIos.LiveOcrView.CompareWithPhotoLibrary` | instacartsignifyiOS.py:117-125 | the images, in library order, whose text contains the frame text; any error aborts the comparison |
| `InstacartIos.LiveOcrView.IndicateMatch` | instacartsignifyiOS.py:127-128 | appends the match notice, so the old text stays a prefix |
| `InstacartIos.LiveOcrView.CaptureOutput` | instacartsignifyiOS.py:77-98 | the frame text is shown, and the notice is appended exactly when the comparison returned a non-empty list |
| `InstacartIos.LiveOcrView.WillClose` | instacartsignifyiOS.py:130-133 | clears the run flag and stops the session |
| `InstacartIos.LiveOcrView.UpdateImage` | instacartsignifyiOS.py:73-75 | the loop sleeps until the first close request and not after; the flag is never set back |

## Left out

- OCR (`pytesseract.image_to_string`) is a parameter mapping an image to text or to an exception. Within one scan, the same photo therefore yields the same text; each iteration has its own OCR, so a photo may read differently in another scan.
- Camera acquisition is reduced to its outcome: the exit status and whether a frame file was written. This covers the Termux subprocess, and on iOS the AVFoundation session setup, device choice and sample-buffer conversion.
- PIL operations other than the threshold are not modelled: `exif_transpose`, grayscale conversion, contrast enhancement, the median filter and PNG/JPEG encoding. The grayscale variant takes the enhanced frame as an input and passes the thresholded frame to a parameter that stands for the median filter and OCR.
- Threads, `time.sleep`, `thread.join`, `ui.in_background` and `on_main_thread` are not modelled. The loop runs over a finite schedule, and a stop request happens only between two iterations. The two iOS UI updates are taken to run in the order they were dispatched.
- Views, images, colours and `present` are not modelled. Console output is limited to the lines `update_ui` and the match branch print, plus the capture, processing and removal warnings. Progress lines and the messages printed by `get_photo_library` and `check_for_match` are not modelled.
- `os.path.exists(frame_path)` is read as "a regular file is at the frame path". A directory at that path is not considered.
- The filesystem is a set of regular-file paths and a set of directory paths. `os.listdir` is an input whose order and contents are not tied to those sets. `os.makedirs` failing because a file is in the way is not modelled.
- GrayscaleAndroid.LiveOcrView.UpdateImage: states the run flag, the iteration count, the crash and the file-store invariants. The console and warning contents across a whole run are left to `Cycle`, which states them per iteration.
- SignifyMatchAndroid.LiveOcr.UpdateImage: states the run flag, the iteration count, the crash and the file-store invariants. The console and warning contents across a run are stated per iteration by `Cycle`.
- InstacartAndroid.LiveOcrView.UpdateImage: states the run flag, the iteration count, when the crash happens and the file-store invariants. The text view's contents across a run are stated per iteration by `Cycle`.
- InstacartIos.LiveOcrView.CaptureOutput: frames are taken to arrive whether or not the session is running. The callback's dependence on `sessionRunning` is not modelled.
