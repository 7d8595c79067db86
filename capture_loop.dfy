/**
 * Vocabulary shared by the capture loops: the environment's behaviour during
 * a run, the camera's outcome and the warnings printed by the loop.
 */
module CaptureLoop {

  /**
   * One event the worker observes: an iteration of the loop body with the
   * given environment behaviour, or the controller clearing the run flag
   * between two iterations.
   */
  datatype Step<I> = Tick(input: I) | StopRequest

  /** The number of iterations the loop runs before the first stop request. */
  function TicksBeforeStop<I>(schedule: seq<Step<I>>): (n: nat)
    ensures n <= |schedule|
    ensures forall k | 0 <= k < n :: schedule[k].Tick?
    ensures n < |schedule| ==> schedule[n].StopRequest?
  {
    if schedule == [] || schedule[0].StopRequest? then 0
    else 1 + TicksBeforeStop(schedule[1..])
  }

  predicate HasStop<I>(schedule: seq<Step<I>>)
  {
    exists k | 0 <= k < |schedule| :: schedule[k].StopRequest?
  }

  /** Whether an iteration before the first stop request raises out of the loop body, given which inputs make it raise. */
  predicate CrashesBeforeStop<I>(schedule: seq<Step<I>>, crashes: I -> bool)
  {
    schedule != [] && schedule[0].Tick? &&
    (crashes(schedule[0].input) || CrashesBeforeStop(schedule[1..], crashes))
  }

  lemma {:induction false} CrashesBeforeStopIff<I>(schedule: seq<Step<I>>, crashes: I -> bool)
    ensures CrashesBeforeStop(schedule, crashes) <==>
              exists k | 0 <= k < TicksBeforeStop(schedule) :: crashes(schedule[k].input)
  {
    if schedule != [] && schedule[0].Tick? {
      var rest := schedule[1..];
      CrashesBeforeStopIff(rest, crashes);
      assert TicksBeforeStop(schedule) == 1 + TicksBeforeStop(rest);
      forall k | 0 <= k < TicksBeforeStop(rest)
        ensures schedule[k + 1] == rest[k]
      {
      }
      if CrashesBeforeStop(rest, crashes) && !crashes(schedule[0].input) {
        var k :| 0 <= k < TicksBeforeStop(rest) && crashes(rest[k].input);
        assert crashes(schedule[k + 1].input);
      }
      if exists k | 0 <= k < TicksBeforeStop(schedule) :: crashes(schedule[k].input) {
        var k :| 0 <= k < TicksBeforeStop(schedule) && crashes(schedule[k].input);
        if k > 0 {
          assert crashes(rest[k - 1].input);
        }
      }
    }
  }

  /**
   * The number of iterations the loop starts when it ends at the first stop
   * request or at the first iteration that raises, whichever comes first.
   */
  function RunLength<I>(schedule: seq<Step<I>>, crashes: I -> bool): (n: nat)
    ensures n <= TicksBeforeStop(schedule)
    ensures forall k | 0 <= k < n - 1 :: !crashes(schedule[k].input)
    ensures CrashesBeforeStop(schedule, crashes) ==> 0 < n && crashes(schedule[n - 1].input)
    ensures !CrashesBeforeStop(schedule, crashes) ==>
              n == TicksBeforeStop(schedule) && forall k | 0 <= k < n :: !crashes(schedule[k].input)
  {
    if schedule == [] || schedule[0].StopRequest? then 0
    else if crashes(schedule[0].input) then 1
    else
      var rest := RunLength(schedule[1..], crashes);
      assert forall k | 0 <= k < rest :: schedule[1..][k] == schedule[k + 1];
      1 + rest
  }

  /**
   * What ends a run whose first `n` steps are iterations that did not raise:
   * the schedule running out, a stop request, or an iteration that raises.
   */
  lemma {:induction false} RunEnds<I>(schedule: seq<Step<I>>, n: nat, crashes: I -> bool)
    requires n <= |schedule|
    requires forall k | 0 <= k < n :: schedule[k].Tick? && !crashes(schedule[k].input)
    ensures n == |schedule| ==>
              RunLength(schedule, crashes) == n && !CrashesBeforeStop(schedule, crashes) && !HasStop(schedule)
    ensures n < |schedule| && schedule[n].StopRequest? ==>
              RunLength(schedule, crashes) == n && !CrashesBeforeStop(schedule, crashes) && HasStop(schedule)
    ensures n < |schedule| && schedule[n].Tick? && crashes(schedule[n].input) ==>
              RunLength(schedule, crashes) == n + 1 && CrashesBeforeStop(schedule, crashes)
  {
    if n == 0 {
      if n < |schedule| && schedule[n].StopRequest? {
        assert HasStop(schedule);
      }
    } else {
      var rest := schedule[1..];
      assert forall k | 0 <= k < |rest| :: rest[k] == schedule[k + 1];
      RunEnds(rest, n - 1, crashes);
      if HasStop(schedule) {
        var k :| 0 <= k < |schedule| && schedule[k].StopRequest?;
        assert rest[k - 1].StopRequest?;
      }
    }
  }

  /** What running `termux-camera-photo` did, and whether a frame file was left at the photo path. */
  datatype CameraRun =
    | Captured(wroteFrame: bool)      // exit status 0
    | ProcessError(wroteFrame: bool)  // non-zero exit status
    | UtilityMissing                  // the executable was not found (FileNotFoundError)
    | LaunchFailed                    // any other OSError while starting it, e.g. PermissionError
  {
    /** Whether the command started, so that `subprocess.run` returned. */
    predicate Launched() {
      Captured? || ProcessError?
    }

    predicate Wrote() {
      Launched() && wroteFrame
    }
  }

  /** The regular files after the camera ran, given the path it writes the frame to. */
  function AfterCapture(files: set<string>, camera: CameraRun, framePath: string): set<string>
  {
    if camera.Wrote() then files + {framePath} else files
  }

  /**
   * Whether a guarded loop body gets past `if frame_path and os.path.exists(frame_path)`:
   * the command succeeded and a file is at the frame path, written now or left by an earlier iteration.
   */
  predicate HasFrame(files: set<string>, camera: CameraRun, framePath: string)
    ensures HasFrame(files, camera, framePath) <==>
              camera.Captured? && (camera.wroteFrame || framePath in files)
  {
    camera.Captured? && framePath in AfterCapture(files, camera, framePath)
  }

  /** The error lines the loop prints. */
  datatype Warning =
    | CaptureFailed
    | CameraUtilityNotFound
    | ProcessingFailed
    | RemoveFailed(path: string)

  /** The warning `capture_frame` prints for a camera outcome. */
  function CaptureWarnings(camera: CameraRun): seq<Warning>
  {
    match camera
    case Captured(_) => []
    case ProcessError(_) => [CaptureFailed]
    case UtilityMissing => [CameraUtilityNotFound]
    case LaunchFailed => []
  }
}
