/**
 * instacartsignifyiOS.py: frames arrive from the camera session's delegate
 * callback on the main thread; each is recognised, shown, compared against
 * the photo library (the first failing image aborts the comparison), and a
 * notice is appended to the text view when something matched. The worker
 * thread only sleeps until the run flag is cleared.
 */
module InstacartIos {
  import opened Wrappers
  import opened Matching
  import opened Library
  import opened CaptureLoop

  /** The text `indicate_match` appends. */
  const MatchNotice: string := "\nMatch found in the photo library!"

  /**
   * What `compare_with_photo_library` returns, given `photos.get_assets()` (None
   * when it raised): None when fetching the assets, reading an asset's image or
   * recognising one of the images raised, otherwise the images whose text
   * contains `ocrText`, in library order.
   */
  function LibraryMatches<A, I>(ocrText: string, assets: Option<seq<A>>, getImage: A -> Option<I>,
                                imageOcr: I -> Option<string>): (r: Option<seq<I>>)
    ensures r.Some? <==>
              assets.Some? &&
              forall k | 0 <= k < |assets.value| ::
                getImage(assets.value[k]).Some? && imageOcr(getImage(assets.value[k]).value).Some?
    ensures r.Some? ==>
              |r.value| <= |assets.value| && forall k | 0 <= k < |r.value| :: Selected(ocrText, r.value[k], imageOcr)
    ensures r.Some? ==>
              ReadAll(assets.value, getImage).Some? &&
              r.value == SkipScan(ocrText, ReadAll(assets.value, getImage).value, imageOcr)
  {
    match assets
    case None => None
    case Some(all) =>
      ReadAllSpec(all, getImage);
      match ReadAll(all, getImage)
      case None => None
      case Some(images) => AbortScan(ocrText, images, imageOcr)
  }

  class LiveOcrView {
    var runThread: bool
    /** Whether the capture session delivers frames. */
    var sessionRunning: bool
    /** The text of the text view. */
    var text: string

    /** Starts the capture session and sets the run flag; the device discovery and the worker thread are not modelled. */
    constructor ()
      ensures runThread && sessionRunning && text == ""
    {
      runThread := true;
      sessionRunning := true;
      text := "";
    }

    /** Shows the recognised text; the frame image itself is not modelled. */
    method UpdateUi(ocrText: string)
      modifies this`text
      ensures text == ocrText
    {
      text := ocrText;
    }

    /**
     * `get_photo_library_images`: one image per asset, in asset order; a failure
     * of `photos.get_assets()` (`assets` is None) or the first asset whose image
     * cannot be read aborts the call.
     */
    method GetPhotoLibraryImages<A, I>(assets: Option<seq<A>>, getImage: A -> Option<I>) returns (images: Option<seq<I>>)
      ensures assets.None? ==> images.None?
      ensures assets.Some? ==> images == ReadAll(assets.value, getImage)
      ensures images.None? <==> assets.None? || exists k | 0 <= k < |assets.value| :: getImage(assets.value[k]).None?
      ensures images.Some? ==>
                |images.value| == |assets.value| &&
                forall k | 0 <= k < |assets.value| :: getImage(assets.value[k]) == Some(images.value[k])
    {
      if assets.None? {
        return None;
      }
      var all := assets.value;
      ReadAllSpec(all, getImage);
      var read: seq<I> := [];
      for i := 0 to |all|
        invariant |read| == i
        invariant forall k | 0 <= k < i :: getImage(all[k]) == Some(read[k])
      {
        match getImage(all[i]) {
          case None =>
            return None;
          case Some(img) =>
            read := read + [img];
        }
      }
      assert ReadAll(all, getImage).Some?;
      assert ReadAll(all, getImage).value == read;
      images := Some(read);
    }

    /** `compare_with_photo_library`, with the library and OCR given as parameters. */
    method CompareWithPhotoLibrary<A, I>(ocrText: string, assets: Option<seq<A>>, getImage: A -> Option<I>,
                                         imageOcr: I -> Option<string>)
      returns (matched: Option<seq<I>>)
      ensures matched == LibraryMatches(ocrText, assets, getImage, imageOcr)
    {
      var images := GetPhotoLibraryImages(assets, getImage);
      if images.None? {
        return None;
      }
      var library := images.value;
      var found := [];
      for i := 0 to |library|
        invariant found == SkipScan(ocrText, library[..i], imageOcr)
        invariant AllReadable(library[..i], imageOcr)
      {
        var img := library[i];
        match imageOcr(img) {
          case None =>
            return None;
          case Some(photoText) =>
            if Contains(photoText, ocrText) {
              found := found + [img];
            }
        }
        assert library[..i + 1] == library[..i] + [img];
        SkipScanAppend(ocrText, library[..i], [img], imageOcr);
      }
      assert library[..|library|] == library;
      matched := Some(found);
    }

    /** Appends the match notice; the text shown before stays in front of it. */
    method IndicateMatch<I>(matchedPhotos: seq<I>)
      modifies this`text
      ensures text == old(text) + MatchNotice
      ensures old(text) <= text
    {
      text := text + MatchNotice;
    }

    /**
     * The sample-buffer callback for one frame. `frameText` is None when
     * converting or recognising the frame raised, which ends the callback
     * before anything is shown. The two UI updates are taken to run in the order
     * they are dispatched.
     */
    method CaptureOutput<A, I>(frameText: Option<string>, assets: Option<seq<A>>, getImage: A -> Option<I>,
                               imageOcr: I -> Option<string>)
      returns (matched: Option<seq<I>>)
      modifies this`text
      ensures matched == if frameText.None? then None else LibraryMatches(frameText.value, assets, getImage, imageOcr)
      ensures frameText.None? ==> text == old(text)
      ensures frameText.Some? ==>
                text == frameText.value + if matched.Some? && matched.value != [] then MatchNotice else ""
    {
      if frameText.None? {
        return None;
      }
      var ocrText := frameText.value;
      UpdateUi(ocrText);
      matched := CompareWithPhotoLibrary(ocrText, assets, getImage, imageOcr);
      if matched.Some? && matched.value != [] {
        IndicateMatch(matched.value);
      } else {
        assert text == ocrText + "";
      }
    }

    /** Clears the run flag and stops the capture session. */
    method WillClose()
      modifies this`runThread, this`sessionRunning
      ensures !runThread && !sessionRunning
    {
      runThread := false;
      sessionRunning := false;
    }

    /**
     * `while self.run_thread: time.sleep(...)` over a finite run of the
     * environment: each tick is one sleep, and a close request is seen at the
     * top of the next iteration.
     */
    method UpdateImage(schedule: seq<Step<()>>) returns (sleeps: nat)
      modifies this`runThread, this`sessionRunning
      ensures sleeps == if old(runThread) then TicksBeforeStop(schedule) else 0
      ensures runThread == (old(runThread) && !HasStop(schedule))
      ensures runThread ==> sessionRunning == old(sessionRunning)
      ensures old(runThread) && !runThread ==> !sessionRunning
    {
      sleeps := 0;
      var i := 0;
      while i < |schedule| && runThread
        invariant 0 <= i <= |schedule|
        invariant !old(runThread) ==> !runThread && sleeps == 0
        invariant runThread ==> old(runThread) && sleeps == i && sessionRunning == old(sessionRunning)
        invariant runThread ==> forall k | 0 <= k < i :: schedule[k].Tick?
        invariant !runThread && old(runThread) ==>
                    0 < i && schedule[i - 1].StopRequest? && sleeps == i - 1 && !sessionRunning &&
                    forall k | 0 <= k < i - 1 :: schedule[k].Tick?
      {
        match schedule[i] {
          case StopRequest =>
            WillClose();
          case Tick(_) =>
            sleeps := sleeps + 1;
        }
        i := i + 1;
      }
    }
  }
}
