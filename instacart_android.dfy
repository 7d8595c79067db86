/**
 * instacartsignifyANDROID.py: the unguarded Termux capture loop. Nothing in
 * the loop body catches exceptions, so any failure ends the worker thread;
 * the frame file is never removed; the result is shown in a text view.
 */
module InstacartAndroid {
  import opened Wrappers
  import opened Matching
  import opened Library
  import opened Messages
  import opened CaptureLoop

  const PhotoPath: string := "/data/data/com.termux/files/home/captured_frame.jpg"
  const PhotoDir: string := "/data/data/com.termux/files/home/photos"

  /** What the environment does during one iteration of the loop body. */
  datatype CycleInput = CycleInput(
    camera: CameraRun,
    // opening and OCR of the frame; None when either raised
    frameText: Option<string>,
    // `os.listdir(photo_dir)`; None when it raised
    listing: Option<seq<string>>,
    // opening and OCR of one library photo; None when either raised
    photoOcr: string -> Option<string>)

  /**
   * `get_photo_library`: the listed names that are regular files, joined onto
   * the directory; None when listing raises, since nothing catches it.
   */
  function GetPhotoLibrary(files: set<string>, listing: Option<seq<string>>): (photos: Option<seq<string>>)
    ensures photos.None? <==> listing.None?
    ensures listing.Some? ==> photos == Some(LibraryPaths(PhotoDir, listing.value, files))
    ensures photos.Some? ==> forall k | 0 <= k < |photos.value| :: photos.value[k] in files
    ensures photos.Some? && (forall k | 0 <= k < |listing.value| :: Relative(listing.value[k])) ==>
              forall k | 0 <= k < |photos.value| :: PhotoDir <= photos.value[k]
  {
    match listing
    case None => None
    case Some(names) =>
      if forall k | 0 <= k < |names| :: Relative(names[k]) then
        LibraryPathsUnderDir(PhotoDir, names, files);
        Some(LibraryPaths(PhotoDir, names, files))
      else
        Some(LibraryPaths(PhotoDir, names, files))
  }

  /**
   * Whether one iteration raises out of `update_image`, given the regular files
   * before it: the camera cannot be started, or a frame file is there and its
   * OCR, the listing or some library photo raises.
   */
  predicate CycleCrashes(files: set<string>, input: CycleInput)
    ensures !input.camera.Launched() ==> CycleCrashes(files, input)
    ensures input.camera.Launched() && !input.camera.wroteFrame && PhotoPath !in files ==> !CycleCrashes(files, input)
    ensures input.camera.Launched() && (input.camera.wroteFrame || PhotoPath in files) &&
              (input.frameText.None? || input.listing.None?)
            ==> CycleCrashes(files, input)
  {
    var after := AfterCapture(files, input.camera, PhotoPath);
    !input.camera.Launched() ||
    (PhotoPath in after &&
     (input.frameText.None? || input.listing.None? ||
      !AllReadable(LibraryPaths(PhotoDir, input.listing.value, after), input.photoOcr)))
  }

  /**
   * The iterations the loop starts from the given files and whether the last
   * of them raised: it runs to the first stop request or the first iteration
   * that raises, each iteration adding the camera's frame file to the files.
   */
  function RunFrom(files: set<string>, schedule: seq<Step<CycleInput>>): (r: (nat, bool))
    ensures r.0 <= TicksBeforeStop(schedule)
    ensures r.1 ==> 0 < r.0
    ensures !r.1 ==> r.0 == TicksBeforeStop(schedule)
    decreases |schedule|
  {
    if schedule == [] || schedule[0].StopRequest? then (0, false)
    else
      var input := schedule[0].input;
      if CycleCrashes(files, input) then (1, true)
      else
        var rest := RunFrom(AfterCapture(files, input.camera, PhotoPath), schedule[1..]);
        (rest.0 + 1, rest.1)
  }

  /** The regular files after the first `n` steps of the schedule: every iteration adds the camera's frame file. */
  function FilesAfter(files: set<string>, schedule: seq<Step<CycleInput>>, n: nat): set<string>
  {
    if n == 0 then files
    else
      var prev := FilesAfter(files, schedule, n - 1);
      if n - 1 < |schedule| && schedule[n - 1].Tick? then AfterCapture(prev, schedule[n - 1].input.camera, PhotoPath)
      else prev
  }

  /** The files after `n + 1` steps are those after `n` steps of the rest, starting from the files after the first. */
  lemma {:induction false} FilesAfterShift(files: set<string>, schedule: seq<Step<CycleInput>>, n: nat)
    requires schedule != [] && schedule[0].Tick?
    ensures FilesAfter(files, schedule, n + 1) ==
              FilesAfter(AfterCapture(files, schedule[0].input.camera, PhotoPath), schedule[1..], n)
  {
    if n > 0 {
      FilesAfterShift(files, schedule, n - 1);
      if n < |schedule| {
        assert schedule[1..][n - 1] == schedule[n];
      }
    }
  }

  /** Whether the first `n` steps of the schedule are iterations, run from `files`, none of which raises. */
  predicate RanClean(files: set<string>, schedule: seq<Step<CycleInput>>, n: nat)
    decreases n
  {
    n == 0 ||
    (schedule != [] && schedule[0].Tick? && !CycleCrashes(files, schedule[0].input) &&
     RanClean(AfterCapture(files, schedule[0].input.camera, PhotoPath), schedule[1..], n - 1))
  }

  /** One more iteration that does not raise, run from the files the earlier ones left, extends a clean run. */
  lemma {:induction false} RanCleanExtend(files: set<string>, schedule: seq<Step<CycleInput>>, n: nat)
    requires RanClean(files, schedule, n) && n < |schedule| && schedule[n].Tick?
    requires !CycleCrashes(FilesAfter(files, schedule, n), schedule[n].input)
    ensures RanClean(files, schedule, n + 1)
    decreases n
  {
    if n > 0 {
      FilesAfterShift(files, schedule, n - 1);
      assert schedule[1..][n - 1] == schedule[n];
      RanCleanExtend(AfterCapture(files, schedule[0].input.camera, PhotoPath), schedule[1..], n - 1);
    }
  }

  /**
   * What ends a run whose first `n` steps are iterations that did not raise:
   * the schedule running out, a stop request, or an iteration that raises.
   */
  lemma {:induction false} RunFromEnds(files: set<string>, schedule: seq<Step<CycleInput>>, n: nat)
    requires n <= |schedule| && RanClean(files, schedule, n)
    ensures n == |schedule| ==> RunFrom(files, schedule) == (n, false)
    ensures n < |schedule| && schedule[n].StopRequest? ==> RunFrom(files, schedule) == (n, false)
    ensures n < |schedule| && schedule[n].Tick? && CycleCrashes(FilesAfter(files, schedule, n), schedule[n].input) ==>
              RunFrom(files, schedule) == (n + 1, true)
    decreases n
  {
    if n > 0 {
      var rest := schedule[1..];
      FilesAfterShift(files, schedule, n - 1);
      RunFromEnds(AfterCapture(files, schedule[0].input.camera, PhotoPath), rest, n - 1);
      if n < |schedule| {
        assert rest[n - 1] == schedule[n];
      }
    }
  }

  /** How one iteration of the loop body ends. */
  datatype CycleOutcome =
    | NoFrame   // no file at the photo path
    | Reported  // the text view was updated
    | Crashed   // an exception left `update_image` and ended the worker

  class LiveOcrView {
    var runThread: bool
    /** The paths that are regular files. */
    var files: set<string>
    /** The text of the text view. */
    var text: string

    /** Sets the run flag with an empty text view; the worker thread is started by the caller. */
    constructor (initialFiles: set<string>)
      ensures runThread && files == initialFiles && text == ""
    {
      runThread := true;
      files := initialFiles;
      text := "";
    }

    /**
     * Runs the camera without checking its exit status, so the fixed path is
     * returned whatever the command did; None when the command cannot be
     * started (a missing executable or another OSError), which raises out of the call.
     */
    method CaptureFrame(camera: CameraRun) returns (framePath: Option<string>)
      modifies this`files
      ensures framePath.Some? <==> camera.Launched()
      ensures framePath.Some? ==> framePath.value == PhotoPath
      ensures files == AfterCapture(old(files), camera, PhotoPath)
    {
      files := AfterCapture(files, camera, PhotoPath);
      framePath := if camera.Launched() then Some(PhotoPath) else None;
    }

    /** `check_for_match` without a try: the first photo whose opening or OCR raises aborts the call. */
    method CheckForMatch(ocrText: string, photos: seq<string>, ocr: string -> Option<string>)
      returns (matched: Option<seq<string>>)
      ensures matched == AbortScan(ocrText, photos, ocr)
      ensures matched.None? <==> exists k | 0 <= k < |photos| :: ocr(photos[k]).None?
    {
      var found := [];
      for i := 0 to |photos|
        invariant found == SkipScan(ocrText, photos[..i], ocr)
        invariant AllReadable(photos[..i], ocr)
      {
        var photo := photos[i];
        match ocr(photo) {
          case None =>
            return None;
          case Some(text) =>
            if Contains(text, ocrText) {
              found := found + [photo];
            }
        }
        assert photos[..i + 1] == photos[..i] + [photo];
        SkipScanAppend(ocrText, photos[..i], [photo], ocr);
      }
      assert photos[..|photos|] == photos;
      matched := Some(found);
    }

    /** Shows the match line, or "No match found"; the frame image itself is not modelled. */
    method UpdateUi(matches: seq<string>)
      modifies this`text
      ensures text == StatusMessage(matches)
    {
      text := StatusMessage(matches);
    }

    /**
     * One iteration of `update_image`'s loop body (the sleep is not modelled).
     * A frame file left by an earlier iteration is processed again when the
     * camera writes none, and no file is ever removed.
     */
    method Cycle(input: CycleInput) returns (outcome: CycleOutcome)
      modifies this`files, this`text
      ensures files == AfterCapture(old(files), input.camera, PhotoPath)
      ensures outcome == Crashed <==> CycleCrashes(old(files), input)
      ensures outcome == NoFrame <==> input.camera.Launched() && PhotoPath !in files
      ensures input.camera.ProcessError? && PhotoPath in old(files) ==> outcome != NoFrame
      ensures outcome == Reported <==>
                && input.camera.Launched() && PhotoPath in files
                && input.frameText.Some?
                && GetPhotoLibrary(files, input.listing).Some?
                && AllReadable(GetPhotoLibrary(files, input.listing).value, input.photoOcr)
      ensures text == if outcome != Reported then old(text)
                      else StatusMessage(SkipScan(input.frameText.value,
                                                  GetPhotoLibrary(files, input.listing).value, input.photoOcr))
    {
      var framePath := CaptureFrame(input.camera);
      if framePath.None? {
        return Crashed;
      }
      if framePath.value !in files {
        return NoFrame;
      }
      if input.frameText.None? {
        return Crashed;
      }
      var ocrText := input.frameText.value;
      var photos := GetPhotoLibrary(files, input.listing);
      if photos.None? {
        return Crashed;
      }
      var matches := CheckForMatch(ocrText, photos.value, input.photoOcr);
      if matches.None? {
        return Crashed;
      }
      UpdateUi(matches.value);
      outcome := Reported;
    }

    /** Clears the run flag. */
    method WillClose()
      modifies this`runThread
      ensures !runThread
    {
      runThread := false;
    }

    /**
     * `while self.run_thread:` over a finite run of the environment. A stop
     * request is seen at the top of the next iteration; an exception ends the
     * worker at once. The rest of the schedule, later stop requests included,
     * is then not run, so `runThread` is the flag as the worker left it: still
     * set, until the controller's `will_close` clears it.
     */
    method UpdateImage(schedule: seq<Step<CycleInput>>) returns (cycles: nat, crashed: bool)
      modifies this`runThread, this`files, this`text
      ensures runThread ==> old(runThread)
      ensures !old(runThread) ==> cycles == 0 && !crashed
      ensures old(runThread) ==> (cycles, crashed) == RunFrom(old(files), schedule)
      ensures old(runThread) && !crashed ==>
                cycles == TicksBeforeStop(schedule) && runThread == !HasStop(schedule)
      ensures crashed ==> runThread && 0 < cycles <= TicksBeforeStop(schedule)
      ensures old(files) <= files && files - {PhotoPath} == old(files) - {PhotoPath}
    {
      cycles, crashed := 0, false;
      var i := 0;
      while i < |schedule| && runThread && !crashed
        invariant 0 <= i <= |schedule|
        invariant !old(runThread) ==> !runThread && cycles == 0 && !crashed
        invariant runThread ==> old(runThread)
        invariant crashed ==> runThread
        invariant old(runThread) ==> cycles == (if runThread then i else i - 1) && files == FilesAfter(old(files), schedule, i)
        invariant old(runThread) ==>
                    var ran := if runThread && !crashed then i else i - 1;
                    0 <= ran && RanClean(old(files), schedule, ran)
        invariant crashed ==>
                    0 < i && schedule[i - 1].Tick? &&
                    CycleCrashes(FilesAfter(old(files), schedule, i - 1), schedule[i - 1].input)
        invariant !runThread && old(runThread) ==> 0 < i && schedule[i - 1].StopRequest?
        invariant old(files) <= files && files - {PhotoPath} == old(files) - {PhotoPath}
      {
        match schedule[i] {
          case StopRequest =>
            WillClose();
          case Tick(input) =>
            var outcome := Cycle(input);
            if outcome != Crashed {
              RanCleanExtend(old(files), schedule, i);
            }
            cycles := cycles + 1;
            crashed := outcome == Crashed;
        }
        i := i + 1;
      }
      if old(runThread) {
        RunFromEnds(old(files), schedule, if runThread && !crashed then i else i - 1);
      }
    }
  }
}
