/**
 * signifyMATCHandroid.py: the Termux capture loop with orientation and
 * contrast preprocessing, a library scan that skips unreadable photos, a
 * console banner on a match, and removal of the frame file on every exit path.
 */
module SignifyMatchAndroid {
  import opened Wrappers
  import opened Matching
  import opened Library
  import opened Messages
  import opened CaptureLoop

  const PhotoPath: string := "/data/data/com.termux/files/home/captured_frame.jpg"
  const PhotoDir: string := "/data/data/com.termux/files/home/photos"
  /** The directories `os.makedirs(PhotoDir)` creates when they are missing. */
  const PhotoDirAndAncestors: set<string> :=
    {"/data", "/data/data", "/data/data/com.termux", "/data/data/com.termux/files",
     "/data/data/com.termux/files/home", PhotoDir}

  /** The three lines `display_match_message` prints. */
  const MatchLinePrefix: string := "Match Found! Image(s): "
  const MatchBanner: seq<string> := ["********************", "** MATCH DETECTED **", "********************"]

  /** What the environment does during one iteration of the loop body. */
  datatype CycleInput = CycleInput(
    camera: CameraRun,
    // opening, orientation correction, contrast and OCR of the frame; None when one of these raised
    frameText: Option<string>,
    // `os.listdir(photo_dir)`; None when it raised
    listing: Option<seq<string>>,
    // opening and OCR of one library photo; None when either raised
    photoOcr: string -> Option<string>,
    // whether `os.remove(frame_path)` raises
    removeFails: bool)

  /** Whether the loop body raises out of `update_image`: only an OSError from starting the camera escapes. */
  predicate LaunchCrash(input: CycleInput)
  {
    input.camera.LaunchFailed?
  }

  /** `get_photo_library`: empty when listing raises, otherwise the listed names that are regular files, joined onto the directory. */
  function GetPhotoLibrary(files: set<string>, listing: Option<seq<string>>): (photos: seq<string>)
    ensures listing.None? ==> photos == []
    ensures listing.Some? ==> photos == LibraryPaths(PhotoDir, listing.value, files)
    ensures forall k | 0 <= k < |photos| :: photos[k] in files
    ensures listing.Some? && (forall k | 0 <= k < |listing.value| :: Relative(listing.value[k])) ==>
              forall k | 0 <= k < |photos| :: PhotoDir <= photos[k]
  {
    match listing
    case None => []
    case Some(names) =>
      if forall k | 0 <= k < |names| :: Relative(names[k]) then
        LibraryPathsUnderDir(PhotoDir, names, files);
        LibraryPaths(PhotoDir, names, files)
      else
        LibraryPaths(PhotoDir, names, files)
  }

  /**
   * The lines printed after matching: the match line and the banner, or
   * "No match found". The banner is printed exactly when something matched.
   */
  function MatchReport(matches: seq<string>): (lines: seq<string>)
    ensures (|lines| == 4 && lines[1..] == MatchBanner) <==> matches != []
    ensures matches != [] ==> lines[0] == MatchLinePrefix + JoinWith(", ", matches)
    ensures matches == [] ==> lines == [NoMatch]
  {
    if matches != [] then [MatchLinePrefix + JoinWith(", ", matches)] + MatchBanner
    else [NoMatch]
  }

  /** When something matched, the match line names every match. */
  lemma MatchReportAnnounces(matches: seq<string>)
    ensures matches != [] ==> forall i | 0 <= i < |matches| :: Contains(MatchReport(matches)[0], matches[i])
  {
    if matches != [] {
      forall i | 0 <= i < |matches| ensures Contains(MatchReport(matches)[0], matches[i]) {
        JoinContainsEach(", ", matches, i);
        ContainsAfterPrefix(MatchLinePrefix, JoinWith(", ", matches), matches[i]);
      }
    }
  }

  /** How one iteration of the loop body ends. */
  datatype CycleOutcome =
    | NoFrame           // the camera failed or left no file
    | Processed         // OCR text and match report printed
    | ProcessingRaised  // the try block raised; the error was printed
    | CaptureRaised     // starting the camera raised an exception nothing catches
  {
    /** Whether the frame was processed, so that its removal was attempted. */
    predicate HadFrame() {
      Processed? || ProcessingRaised?
    }
  }

  class LiveOcr {
    var runThread: bool
    /** The paths that are regular files. */
    var files: set<string>
    /** The paths that are directories. */
    var dirs: set<string>
    /** The OCR and match lines the loop printed. */
    var console: seq<string>
    /** The error lines the loop printed. */
    var warnings: seq<Warning>
    /** Every path passed to `os.remove`, in call order. */
    var removeCalls: seq<string>

    /** Creates the library directory when no such path exists and sets the run flag; the worker thread is started by the caller. */
    constructor (initialFiles: set<string>, initialDirs: set<string>)
      ensures runThread
      ensures files == initialFiles
      ensures dirs == if PhotoDir in initialDirs || PhotoDir in initialFiles then initialDirs
                      else initialDirs + PhotoDirAndAncestors
      ensures console == [] && warnings == [] && removeCalls == []
    {
      runThread := true;
      files := initialFiles;
      dirs := initialDirs;
      if PhotoDir !in initialDirs && PhotoDir !in initialFiles {
        dirs := dirs + PhotoDirAndAncestors;
      }
      console := [];
      warnings := [];
      removeCalls := [];
    }

    /**
     * Runs the camera; the photo path is returned only when the command exits
     * with status 0. `raised` is set when an OSError other than a missing
     * executable leaves the call.
     */
    method CaptureFrame(camera: CameraRun) returns (framePath: Option<string>, raised: bool)
      modifies this`files, this`warnings
      ensures raised <==> camera.LaunchFailed?
      ensures framePath.Some? <==> camera.Captured?
      ensures framePath.Some? ==> framePath.value == PhotoPath
      ensures files == AfterCapture(old(files), camera, PhotoPath)
      ensures warnings == old(warnings) + CaptureWarnings(camera)
    {
      files := AfterCapture(files, camera, PhotoPath);
      raised := false;
      match camera {
        case Captured(_) =>
          framePath := Some(PhotoPath);
        case ProcessError(_) =>
          warnings := warnings + [CaptureFailed];
          framePath := None;
        case UtilityMissing =>
          warnings := warnings + [CameraUtilityNotFound];
          framePath := None;
        case LaunchFailed =>
          framePath, raised := None, true;
      }
    }

    /** `check_for_match`: a photo whose opening or OCR raises is skipped and the scan goes on. */
    method CheckForMatch(ocrText: string, photos: seq<string>, ocr: string -> Option<string>)
      returns (matched: seq<string>)
      ensures matched == SkipScan(ocrText, photos, ocr)
    {
      matched := [];
      for i := 0 to |photos|
        invariant matched == SkipScan(ocrText, photos[..i], ocr)
      {
        var photo := photos[i];
        match ocr(photo) {
          case None =>
          case Some(text) =>
            if Contains(text, ocrText) {
              matched := matched + [photo];
            }
        }
        assert photos[..i + 1] == photos[..i] + [photo];
        SkipScanAppend(ocrText, photos[..i], [photo], ocr);
      }
      assert photos[..|photos|] == photos;
    }

    /** Prints the match banner. */
    method DisplayMatchMessage()
      modifies this`console
      ensures console == old(console) + MatchBanner
    {
      console := console + MatchBanner;
    }

    /** `os.remove(frame_path)` inside its own try: a failure is only printed. */
    method RemoveFrame(path: string, fails: bool)
      modifies this`files, this`warnings, this`removeCalls
      ensures removeCalls == old(removeCalls) + [path]
      ensures files == if fails then old(files) else old(files) - {path}
      ensures warnings == old(warnings) + if fails then [RemoveFailed(path)] else []
    {
      removeCalls := removeCalls + [path];
      if fails {
        warnings := warnings + [RemoveFailed(path)];
      } else {
        files := files - {path};
      }
    }

    /** The try block once OCR succeeded: prints the text, scans the library and prints the match report. */
    method ReportText(ocrText: string, listing: Option<seq<string>>, photoOcr: string -> Option<string>)
      modifies this`console
      ensures console == old(console) + ["OCR Text: " + ocrText] +
                MatchReport(SkipScan(ocrText, GetPhotoLibrary(files, listing), photoOcr))
    {
      console := console + ["OCR Text: " + ocrText];
      var photos := GetPhotoLibrary(files, listing);
      var matches := CheckForMatch(ocrText, photos, photoOcr);
      if matches != [] {
        console := console + [MatchLinePrefix + JoinWith(", ", matches)];
        DisplayMatchMessage();
      } else {
        console := console + [NoMatch];
      }
    }

    /**
     * One iteration of `update_image`'s loop body (the sleep is not modelled).
     * With no frame nothing but the capture happens; with a frame, processing
     * runs and its removal is attempted exactly once, whether processing raised or not.
     */
    method Cycle(input: CycleInput) returns (outcome: CycleOutcome)
      modifies this`files, this`console, this`warnings, this`removeCalls
      ensures outcome == (if LaunchCrash(input) then CaptureRaised
                          else if !HasFrame(old(files), input.camera, PhotoPath) then NoFrame
                          else if input.frameText.None? then ProcessingRaised
                          else Processed)
      ensures removeCalls == old(removeCalls) + if outcome.HadFrame() then [PhotoPath] else []
      ensures files == if outcome.HadFrame() && !input.removeFails
                       then AfterCapture(old(files), input.camera, PhotoPath) - {PhotoPath}
                       else AfterCapture(old(files), input.camera, PhotoPath)
      ensures outcome != Processed ==> console == old(console)
      ensures outcome == Processed ==>
                console == old(console) + ["OCR Text: " + input.frameText.value] +
                  MatchReport(SkipScan(input.frameText.value,
                                       GetPhotoLibrary(AfterCapture(old(files), input.camera, PhotoPath), input.listing),
                                       input.photoOcr))
      ensures warnings == old(warnings) + CaptureWarnings(input.camera)
                + (if outcome == ProcessingRaised then [ProcessingFailed] else [])
                + (if outcome.HadFrame() && input.removeFails then [RemoveFailed(PhotoPath)] else [])
    {
      var framePath, raised := CaptureFrame(input.camera);
      if raised {
        return CaptureRaised;
      }
      if framePath.Some? && framePath.value in files {
        match input.frameText {
          case None =>
            warnings := warnings + [ProcessingFailed];
            outcome := ProcessingRaised;
          case Some(ocrText) =>
            ReportText(ocrText, input.listing, input.photoOcr);
            outcome := Processed;
        }
        RemoveFrame(framePath.value, input.removeFails);
      } else {
        outcome := NoFrame;
      }
    }

    /** Clears the run flag; joining the worker thread is not modelled. */
    method Stop()
      modifies this`runThread
      ensures !runThread
    {
      runThread := false;
    }

    /**
     * `while self.run_thread:` over a finite run of the environment. The flag
     * is tested only at the top of each iteration, so a stop request lets the
     * iteration in progress finish and prevents every later one; an exception
     * from starting the camera ends the worker at once. The rest of the
     * schedule, later stop requests included, is then not run, so `runThread`
     * is the flag as the worker left it: still set, until the controller's
     * `stop` clears it.
     */
    method UpdateImage(schedule: seq<Step<CycleInput>>) returns (cycles: nat, crashed: bool)
      modifies this`runThread, this`files, this`console, this`warnings, this`removeCalls
      ensures cycles == if old(runThread) then RunLength(schedule, LaunchCrash) else 0
      ensures crashed == (old(runThread) && CrashesBeforeStop(schedule, LaunchCrash))
      ensures runThread == (old(runThread) && (crashed || !HasStop(schedule)))
      ensures files - {PhotoPath} == old(files) - {PhotoPath}
      ensures |removeCalls| <= |old(removeCalls)| + cycles
      ensures forall k | |old(removeCalls)| <= k < |removeCalls| :: removeCalls[k] == PhotoPath
    {
      cycles, crashed := 0, false;
      var i := 0;
      while i < |schedule| && runThread && !crashed
        invariant 0 <= i <= |schedule|
        invariant !old(runThread) ==> !runThread && cycles == 0 && !crashed
        invariant old(runThread) ==> cycles == if runThread then i else i - 1
        invariant runThread ==> old(runThread)
        invariant crashed ==> runThread
        invariant old(runThread) ==>
                    var ran := if runThread && !crashed then i else i - 1;
                    0 <= ran && forall k | 0 <= k < ran :: schedule[k].Tick? && !LaunchCrash(schedule[k].input)
        invariant crashed ==> 0 < i && schedule[i - 1].Tick? && LaunchCrash(schedule[i - 1].input)
        invariant !runThread && old(runThread) ==> 0 < i && schedule[i - 1].StopRequest?
        invariant files - {PhotoPath} == old(files) - {PhotoPath}
        invariant |removeCalls| <= |old(removeCalls)| + cycles
        invariant forall k | |old(removeCalls)| <= k < |removeCalls| :: removeCalls[k] == PhotoPath
      {
        match schedule[i] {
          case StopRequest =>
            Stop();
          case Tick(input) =>
            var outcome := Cycle(input);
            cycles := cycles + 1;
            crashed := outcome == CaptureRaised;
        }
        i := i + 1;
      }
      if old(runThread) {
        RunEnds(schedule, if runThread && !crashed then i else i - 1, LaunchCrash);
      }
    }
  }
}
