/**
 * grayscalesignifyANDROID.py: the Termux capture loop with grayscale, contrast,
 * threshold and median preprocessing, a library scan that skips unreadable
 * photos, console reporting, and removal of the frame file on every exit path.
 */
module GrayscaleAndroid {
  import opened Wrappers
  import opened Matching
  import opened Library
  import opened Messages
  import opened Binarize
  import opened CaptureLoop

  const PhotoPath: string := "mkdir/photo.jpg"
  const PhotoDir: string := "mkdir/photo_dir"
  /** `os.path.dirname(PhotoPath)`. */
  const FrameDir: string := "mkdir"

  /** What the environment does during one iteration of the loop body. */
  datatype CycleInput = CycleInput(
    camera: CameraRun,
    // the frame after opening, orientation correction, grayscale and contrast; None when one of these raised
    enhanced: Option<seq<Pixel>>,
    // median filter and OCR of the binarised frame; None when either raised
    recognize: seq<Pixel> -> Option<string>,
    // `os.listdir(photo_dir)`; None when it raised
    listing: Option<seq<string>>,
    // opening and OCR of one library photo; None when either raised
    photoOcr: string -> Option<string>,
    // whether `os.remove(frame_path)` raises
    removeFails: bool)

  /** The OCR text of the preprocessed frame, or None when the try block raised before matching. */
  function FrameText(input: CycleInput): (r: Option<string>)
    ensures r.Some? ==> input.enhanced.Some?
  {
    match input.enhanced
    case None => None
    case Some(img) => input.recognize(Point(img))
  }

  /**
   * OCR only ever sees the enhanced frame thresholded pixel by pixel: a
   * two-level image of its size, black exactly where the frame is below 128.
   */
  lemma FrameTextBinarized(input: CycleInput)
    requires input.enhanced.Some?
    ensures exists img: seq<Pixel> | |img| == |input.enhanced.value| &&
                                     (forall k | 0 <= k < |img| :: img[k] == 0 || img[k] == 255) &&
                                     (forall k | 0 <= k < |img| :: img[k] == 0 <==> input.enhanced.value[k] < 128)
              :: FrameText(input) == input.recognize(img)
  {
    var img := Point(input.enhanced.value);
    assert FrameText(input) == input.recognize(img);
  }

  /** Whether the loop body raises out of `update_image`: only an OSError from starting the camera escapes. */
  predicate LaunchCrash(input: CycleInput)
  {
    input.camera.LaunchFailed?
  }

  /**
   * `get_photo_library`: empty when the directory does not exist or cannot be
   * listed, otherwise the listed names that are regular files, joined onto the directory.
   */
  function GetPhotoLibrary(dirs: set<string>, files: set<string>, listing: Option<seq<string>>): (photos: seq<string>)
    ensures PhotoDir !in dirs && PhotoDir !in files ==> photos == []
    ensures listing.None? ==> photos == []
    ensures (PhotoDir in dirs || PhotoDir in files) && listing.Some? ==>
              photos == LibraryPaths(PhotoDir, listing.value, files)
    ensures forall k | 0 <= k < |photos| :: photos[k] in files
    ensures listing.Some? && (forall k | 0 <= k < |listing.value| :: Relative(listing.value[k])) ==>
              forall k | 0 <= k < |photos| :: PhotoDir <= photos[k]
  {
    if PhotoDir !in dirs && PhotoDir !in files then []
    else match listing
      case None => []
      case Some(names) =>
        if forall k | 0 <= k < |names| :: Relative(names[k]) then
          LibraryPathsUnderDir(PhotoDir, names, files);
          LibraryPaths(PhotoDir, names, files)
        else
          LibraryPaths(PhotoDir, names, files)
  }

  /** How one iteration of the loop body ends. */
  datatype CycleOutcome =
    | NoFrame           // the camera failed or left no file
    | Processed         // OCR text and match line printed
    | ProcessingRaised  // the try block raised; the error was printed
    | CaptureRaised     // starting the camera raised an exception nothing catches
  {
    /** Whether the frame was processed, so that its removal was attempted. */
    predicate HadFrame() {
      Processed? || ProcessingRaised?
    }
  }

  class LiveOcrView {
    var runThread: bool
    /** The paths that are regular files. */
    var files: set<string>
    /** The paths that are directories. */
    var dirs: set<string>
    /** The lines `update_ui` printed. */
    var console: seq<string>
    /** The error lines the loop printed. */
    var warnings: seq<Warning>
    /** Every path passed to `os.remove`, in call order. */
    var removeCalls: seq<string>

    /** Creates the frame and library directories and sets the run flag; the worker thread is started by the caller. */
    constructor (initialFiles: set<string>, initialDirs: set<string>)
      ensures runThread
      ensures files == initialFiles && dirs == initialDirs + {FrameDir, PhotoDir}
      ensures console == [] && warnings == [] && removeCalls == []
    {
      runThread := true;
      files := initialFiles;
      dirs := initialDirs + {FrameDir, PhotoDir};
      console := [];
      warnings := [];
      removeCalls := [];
    }

    /**
     * Runs the camera; the photo path is returned only when the command exits
     * with status 0. `raised` is set when an OSError other than a missing
     * executable leaves the call.
     */
    method CaptureFrame(camera: CameraRun) returns (framePath: Option<string>, raised: bool)
      modifies this`files, this`warnings
      ensures raised <==> camera.LaunchFailed?
      ensures framePath.Some? <==> camera.Captured?
      ensures framePath.Some? ==> framePath.value == PhotoPath
      ensures files == AfterCapture(old(files), camera, PhotoPath)
      ensures warnings == old(warnings) + CaptureWarnings(camera)
    {
      files := AfterCapture(files, camera, PhotoPath);
      raised := false;
      match camera {
        case Captured(_) =>
          framePath := Some(PhotoPath);
        case ProcessError(_) =>
          warnings := warnings + [CaptureFailed];
          framePath := None;
        case UtilityMissing =>
          warnings := warnings + [CameraUtilityNotFound];
          framePath := None;
        case LaunchFailed =>
          framePath, raised := None, true;
      }
    }

    /** `check_for_match`: a photo whose opening or OCR raises is skipped and the scan goes on. */
    method CheckForMatch(ocrText: string, photos: seq<string>, ocr: string -> Option<string>)
      returns (matched: seq<string>)
      ensures matched == SkipScan(ocrText, photos, ocr)
    {
      matched := [];
      for i := 0 to |photos|
        invariant matched == SkipScan(ocrText, photos[..i], ocr)
      {
        var photo := photos[i];
        match ocr(photo) {
          case None =>
          case Some(text) =>
            if Contains(text, ocrText) {
              matched := matched + [photo];
            }
        }
        assert photos[..i + 1] == photos[..i] + [photo];
        SkipScanAppend(ocrText, photos[..i], [photo], ocr);
      }
      assert photos[..|photos|] == photos;
    }

    /** Prints the OCR text, then the match line or "No match found". */
    method UpdateUi(ocrText: string, matches: seq<string>)
      modifies this`console
      ensures console == old(console) + ["OCR Text: " + ocrText, StatusMessage(matches)]
    {
      console := console + ["OCR Text: " + ocrText, StatusMessage(matches)];
    }

    /** `os.remove(frame_path)` inside its own try: a failure is only printed. */
    method RemoveFrame(path: string, fails: bool)
      modifies this`files, this`warnings, this`removeCalls
      ensures removeCalls == old(removeCalls) + [path]
      ensures files == if fails then old(files) else old(files) - {path}
      ensures warnings == old(warnings) + if fails then [RemoveFailed(path)] else []
    {
      removeCalls := removeCalls + [path];
      if fails {
        warnings := warnings + [RemoveFailed(path)];
      } else {
        files := files - {path};
      }
    }

    /**
     * One iteration of `update_image`'s loop body (the sleep is not modelled).
     * With no frame nothing but the capture happens; with a frame, processing
     * runs and its removal is attempted exactly once, whether processing raised or not.
     */
    method Cycle(input: CycleInput) returns (outcome: CycleOutcome)
      modifies this`files, this`console, this`warnings, this`removeCalls
      ensures outcome == (if LaunchCrash(input) then CaptureRaised
                          else if !HasFrame(old(files), input.camera, PhotoPath) then NoFrame
                          else if FrameText(input).None? then ProcessingRaised
                          else Processed)
      ensures removeCalls == old(removeCalls) + if outcome.HadFrame() then [PhotoPath] else []
      ensures files == if outcome.HadFrame() && !input.removeFails
                       then AfterCapture(old(files), input.camera, PhotoPath) - {PhotoPath}
                       else AfterCapture(old(files), input.camera, PhotoPath)
      ensures outcome != Processed ==> console == old(console)
      ensures outcome == Processed ==>
                console == old(console) +
                  ["OCR Text: " + FrameText(input).value,
                   StatusMessage(SkipScan(FrameText(input).value,
                                          GetPhotoLibrary(dirs, AfterCapture(old(files), input.camera, PhotoPath), input.listing),
                                          input.photoOcr))]
      ensures warnings == old(warnings) + CaptureWarnings(input.camera)
                + (if outcome == ProcessingRaised then [ProcessingFailed] else [])
                + (if outcome.HadFrame() && input.removeFails then [RemoveFailed(PhotoPath)] else [])
    {
      var framePath, raised := CaptureFrame(input.camera);
      if raised {
        return CaptureRaised;
      }
      if framePath.Some? && framePath.value in files {
        var frameText := FrameText(input);
        match frameText {
          case None =>
            warnings := warnings + [ProcessingFailed];
            outcome := ProcessingRaised;
          case Some(ocrText) =>
            var photos := GetPhotoLibrary(dirs, files, input.listing);
            var matches := CheckForMatch(ocrText, photos, input.photoOcr);
            UpdateUi(ocrText, matches);
            outcome := Processed;
        }
        RemoveFrame(framePath.value, input.removeFails);
      } else {
        outcome := NoFrame;
      }
    }

    /** Clears the run flag; joining the worker thread is not modelled. */
    method Stop()
      modifies this`runThread
      ensures !runThread
    {
      runThread := false;
    }

    /**
     * `while self.run_thread:` over a finite run of the environment. The flag
     * is tested only at the top of each iteration, so a stop request lets the
     * iteration in progress finish and prevents every later one; an exception
     * from starting the camera ends the worker at once. The rest of the
     * schedule, later stop requests included, is then not run, so `runThread`
     * is the flag as the worker left it: still set, until the controller's
     * `stop` clears it.
     */
    method UpdateImage(schedule: seq<Step<CycleInput>>) returns (cycles: nat, crashed: bool)
      modifies this`runThread, this`files, this`console, this`warnings, this`removeCalls
      ensures cycles == if old(runThread) then RunLength(schedule, LaunchCrash) else 0
      ensures crashed == (old(runThread) && CrashesBeforeStop(schedule, LaunchCrash))
      ensures runThread == (old(runThread) && (crashed || !HasStop(schedule)))
      ensures files - {PhotoPath} == old(files) - {PhotoPath}
      ensures |removeCalls| <= |old(removeCalls)| + cycles
      ensures forall k | |old(removeCalls)| <= k < |removeCalls| :: removeCalls[k] == PhotoPath
    {
      cycles, crashed := 0, false;
      var i := 0;
      while i < |schedule| && runThread && !crashed
        invariant 0 <= i <= |schedule|
        invariant !old(runThread) ==> !runThread && cycles == 0 && !crashed
        invariant old(runThread) ==> cycles == if runThread then i else i - 1
        invariant runThread ==> old(runThread)
        invariant crashed ==> runThread
        invariant old(runThread) ==>
                    var ran := if runThread && !crashed then i else i - 1;
                    0 <= ran && forall k | 0 <= k < ran :: schedule[k].Tick? && !LaunchCrash(schedule[k].input)
        invariant crashed ==> 0 < i && schedule[i - 1].Tick? && LaunchCrash(schedule[i - 1].input)
        invariant !runThread && old(runThread) ==> 0 < i && schedule[i - 1].StopRequest?
        invariant files - {PhotoPath} == old(files) - {PhotoPath}
        invariant |removeCalls| <= |old(removeCalls)| + cycles
        invariant forall k | |old(removeCalls)| <= k < |removeCalls| :: removeCalls[k] == PhotoPath
      {
        match schedule[i] {
          case StopRequest =>
            Stop();
          case Tick(input) =>
            var outcome := Cycle(input);
            cycles := cycles + 1;
            crashed := outcome == CaptureRaised;
        }
        i := i + 1;
      }
      if old(runThread) {
        RunEnds(schedule, if runThread && !crashed then i else i - 1, LaunchCrash);
      }
    }
  }
}
