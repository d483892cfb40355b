/**
 * The main window of the newest revision (v0.62.36_strippedBuild_GIF_v039.py)
 * as an object: the instance attributes the playback code reads and
 * updates, and its methods performing the same steps in place. Each method
 * is proved to leave the object in the state the corresponding function of
 * module `Playback` describes.
 */
module Window {
  import opened SortedKeys
  import opened Keyframes
  import opened Playback
  import opened Naming
  import opened KeyframeDialog
  import opened ProjectLoad

  /** The lock test of `_find_next_unlocked_frame`: frame `f` has no context or its segment is not locked. */
  method FrameUnlocked(kf: KeyMap, sorted: seq<int>, frameCount: nat, f: int) returns (b: bool)
    requires ListsKeys(sorted, kf)
    ensures b == Unlocked(kf, sorted, frameCount, f)
  {
    var ctx := ContextForFrame(kf, sorted, frameCount, f);
    b := ctx.NoContext? || !ctx.data.locked;
  }

  /**
   * The sub-motion loop of `_advance_frame`: the first sub-motion ending at
   * `cur` is repeated when its counter is below its loop count, and the
   * loop stops at it either way.
   */
  method ScanSubMotions(subs: seq<SubMotion>, cur: int, counters: map<int, int>) returns (r: Repeat)
    ensures r == SubRepeat(subs, cur, counters)
  {
    var n := 0;
    while n < |subs|
      invariant 0 <= n <= |subs|
      invariant SubRepeat(subs[n..], cur, counters) == SubRepeat(subs, cur, counters)
    {
      var sub := subs[n];
      if cur == sub.end {
        var count := if sub.start in counters then counters[sub.start] else 0;
        if count < sub.data.loop {
          return Repeat(sub.start, counters[sub.start := count + 1]);
        }
        return NoRepeat;
      }
      assert subs[n..][1..] == subs[n + 1..];
      n := n + 1;
    }
    return NoRepeat;
  }

  class Sampler {
    /** `self.keyframes` */
    var keyframes: KeyMap
    /** `sorted(self.keyframes.keys())`, which the source recomputes wherever it is needed */
    var keys: seq<int>
    /** `len(self.all_frame_data)` */
    var frameCount: nat
    /** The play button is checked and the playback timer runs. */
    var playing: bool
    /** The loop button is checked. */
    var loopMode: bool
    /** `self.current_playback_frame_index` */
    var current: int
    /** `self.selected_index` */
    var selected: Option
    /** `self.is_in_complete_motion_loop` */
    var inLoop: bool
    /** `self.loop_return_point` */
    var returnPoint: int
    /** `self.loop_end_point` */
    var endPoint: int
    /** `self.sub_loop_counters` */
    var counters: map<int, int>
    /** `self.unsaved_changes` */
    var unsaved: bool

    /** The playback attributes as a `Cursor` value. */
    function State(): Cursor
      reads this
    {
      Cursor(playing, loopMode, current, selected, inLoop, returnPoint, endPoint, counters)
    }

    /** `keys` lists the keys of `keyframes` in increasing order. */
    ghost predicate Valid()
      reads this
    {
      ListsKeys(keys, keyframes)
    }

    /** The state `__init__` sets up: no frames, no keyframes, no selection, stopped. */
    constructor ()
      ensures Valid() && keyframes == map[] && frameCount == 0 && !unsaved
      ensures State() == Cursor(false, false, -1, None, false, -1, -1, map[])
    {
      keyframes := map[];
      keys := [];
      frameCount := 0;
      playing := false;
      loopMode := false;
      current := -1;
      selected := None;
      inLoop := false;
      returnPoint := -1;
      endPoint := -1;
      counters := map[];
      unsaved := false;
    }

    /** `_reset_loop_state` */
    method ResetLoopState()
      modifies this
      ensures keyframes == old(keyframes) && keys == old(keys) && frameCount == old(frameCount) && unsaved == old(unsaved)
      ensures State() == ResetLoop(old(State()))
    {
      inLoop := false;
      returnPoint := -1;
      endPoint := -1;
      counters := map[];
    }

    /** `_stop_playback_and_reset_ui` */
    method StopPlayback()
      modifies this
      ensures keyframes == old(keyframes) && keys == old(keys) && frameCount == old(frameCount) && unsaved == old(unsaved)
      ensures State() == Stop(old(State()))
    {
      playing := false;
      ResetLoopState();
    }

    /** `_update_playback_context(f)` */
    method UpdatePlaybackContext(f: int)
      requires Valid()
      modifies this
      ensures keyframes == old(keyframes) && keys == old(keys) && frameCount == old(frameCount) && unsaved == old(unsaved)
      ensures State() == EnterSegment(keyframes, keys, frameCount, old(State()), f)
    {
      var ctx := ContextForFrame(keyframes, keys, frameCount, f);
      ResetLoopState();
      if loopMode && ctx.Segment? {
        inLoop := true;
        returnPoint := ctx.start;
        endPoint := ctx.end;
      }
    }

    /** `_resume_playback(f)` */
    method ResumePlayback(f: int)
      requires Valid()
      modifies this
      ensures keyframes == old(keyframes) && keys == old(keys) && frameCount == old(frameCount) && unsaved == old(unsaved)
      ensures State() == Resume(frameCount, old(State()), f)
    {
      if !(0 <= f < frameCount) {
        StopPlayback();
        return;
      }
      current := f;
      playing := true;
      SelectFrame(f, true);
    }

    /** `_find_next_unlocked_frame(start)`: the circular scan with `idx` and `checked_count`. */
    method FindNextUnlockedFrame(start: int) returns (r: int)
      requires Valid()
      ensures r == NextUnlocked(keyframes, keys, frameCount, start)
    {
      if frameCount == 0 {
        return -1;
      }
      var kf, sorted, count := keyframes, keys, frameCount;
      ghost var ok := f => Unlocked(kf, sorted, count, f);
      assert FirstFrom(ok, count, start, 0) == NextUnlocked(kf, sorted, count, start);
      var checked := 0;
      var idx := start;
      while checked < count
        invariant 0 <= checked <= count
        invariant checked < count ==> (if idx >= count then 0 else idx) == Candidate(count, start, checked)
        invariant FirstFrom(ok, count, start, checked) == FirstFrom(ok, count, start, 0)
      {
        if idx >= count {
          idx := 0;
        }
        var unlocked := FrameUnlocked(kf, sorted, count, idx);
        if unlocked {
          assert ok(idx);
          return idx;
        }
        assert !ok(idx);
        if checked + 1 < count {
          CandidateStep(count, start, checked);
        }
        idx := idx + 1;
        checked := checked + 1;
      }
      return -1;
    }

    /**
     * `select_frame(f, from_playback)`: only the attributes are modelled;
     * the preview image and the labels are not.
     */
    method SelectFrame(f: int, fromPlayback: bool)
      requires Valid()
      modifies this
      ensures keyframes == old(keyframes) && keys == old(keys) && frameCount == old(frameCount) && unsaved == old(unsaved)
      ensures State() == Select(keyframes, keys, frameCount, old(State()), f, fromPlayback)
    {
      if !(0 <= f < frameCount) {
        return;
      }
      var ctx := ContextForFrame(keyframes, keys, frameCount, f);
      var isLocked := ctx.Segment? && ctx.data.locked;
      if isLocked && !fromPlayback {
        return;
      }
      if selected == Some(f) && !fromPlayback {
        return;
      }
      if playing && !fromPlayback {
        StopPlayback();
      }
      selected := Some(f);
      if !playing {
        current := f;
      }
    }

    /**
     * The first half of `_advance_frame`: the frame proposed after the
     * current one, with the sub-motion repeat counter or the segment-loop
     * reset applied.
     */
    method ProposeNextFrame() returns (next: int)
      requires Valid()
      modifies this`counters
      ensures Move(next, State()) == Proposed(keyframes, keys, frameCount, old(State()))
    {
      var cur := current;
      var ctx := ContextForFrame(keyframes, keys, frameCount, cur);
      if ctx.NoContext? {
        return cur + 1;
      }
      var rep := ScanSubMotions(ctx.subs, cur, counters);
      if rep.Repeat? {
        next := rep.target;
        counters := rep.counters;
      } else if inLoop && cur == endPoint {
        next := returnPoint;
        counters := map[];
      } else {
        next := cur + 1;
      }
    }

    /** `_advance_frame`: one timeout of the single-shot playback timer. */
    method AdvanceFrame()
      requires Valid()
      modifies this
      ensures keyframes == old(keyframes) && keys == old(keys) && frameCount == old(frameCount) && unsaved == old(unsaved)
      ensures State() == Tick(keyframes, keys, frameCount, old(State()))
    {
      if !playing || frameCount == 0 {
        StopPlayback();
        return;
      }
      var ctx := ContextForFrame(keyframes, keys, frameCount, current);
      var next := ProposeNextFrame();
      if next >= frameCount {
        if inLoop {
          next := returnPoint;
          counters := map[];
        } else {
          next := 0;
          UpdatePlaybackContext(next);
        }
      }
      assert Move(next, State()) == Wrapped(keyframes, keys, frameCount, Proposed(keyframes, keys, frameCount, old(State())));
      var f := FindNextUnlockedFrame(next);
      if f == -1 {
        StopPlayback();
        return;
      }
      var newCtx := ContextForFrame(keyframes, keys, frameCount, f);
      if StartOf(ctx) != StartOf(newCtx) {
        UpdatePlaybackContext(f);
      }
      ResumePlayback(f);
    }

    /** `_on_play_pause_toggled(checked)` */
    method PlayPauseToggled(checked: bool)
      requires Valid()
      modifies this
      ensures keyframes == old(keyframes) && keys == old(keys) && frameCount == old(frameCount) && unsaved == old(unsaved)
      ensures State() == PlayPause(keyframes, keys, frameCount, old(State()), checked)
    {
      if frameCount == 0 {
        playing := false;
        return;
      }
      if !checked {
        StopPlayback();
        return;
      }
      var start := if selected.Some? then selected.value else 0;
      var unlocked := FrameUnlocked(keyframes, keys, frameCount, start);
      if !unlocked {
        start := FindNextUnlockedFrame(start);
        if start == -1 {
          StopPlayback();
          return;
        }
      }
      PlayFrom(start);
    }

    /** The end of `_on_play_pause_toggled`: move the cursor to `start`, read its context and resume there. */
    method PlayFrom(start: int)
      requires Valid()
      modifies this
      ensures keyframes == old(keyframes) && keys == old(keys) && frameCount == old(frameCount) && unsaved == old(unsaved)
      ensures State() == Resume(frameCount, EnterSegment(keyframes, keys, frameCount, old(State()).(current := start), start), start)
    {
      current := start;
      UpdatePlaybackContext(current);
      ResumePlayback(current);
    }

    /** `_on_loop_toggled(checked)` */
    method LoopToggled(checked: bool)
      requires Valid()
      modifies this
      ensures keyframes == old(keyframes) && keys == old(keys) && frameCount == old(frameCount) && unsaved == old(unsaved)
      ensures State() == Playback.LoopToggled(keyframes, keys, frameCount, old(State()), checked)
    {
      loopMode := checked;
      if playing {
        UpdatePlaybackContext(current);
      }
    }

    /** `_navigate_keyframe(direction)` */
    method NavigateKeyframe(direction: int)
      requires Valid()
      modifies this
      ensures keyframes == old(keyframes) && keys == old(keys) && frameCount == old(frameCount) && unsaved == old(unsaved)
      ensures State() == Navigate(keyframes, keys, frameCount, old(State()), direction)
    {
      if |keyframes| == 0 {
        return;
      }
      var wasPlaying := playing;
      if wasPlaying {
        StopPlayback();
      }
      var target := NavTarget(keyframes, keys, frameCount, selected, direction);
      if target.None? {
        return;
      }
      var t := target.value;
      SelectFrame(t, wasPlaying);
      if wasPlaying {
        UpdatePlaybackContext(t);
        ResumePlayback(t);
      } else {
        current := t;
      }
    }

    /**
     * `_load_gif_from_path` after a successful load of `count` frames: the
     * project is reset, the entries of the project file beside the GIF
     * (`side`, empty when there is none) are taken over as they are read,
     * and frame 0 is selected unless it lies in a locked segment.
     */
    method LoadFrames(count: nat, side: KeyMap)
      modifies this
      ensures Valid() && keyframes == side && frameCount == count && !unsaved
      ensures var opens := count > 0 && Unlocked(side, keys, count, 0);
        State() == Stop(old(State())).(
          selected := if opens then Some(0) else None,
          current := if opens then 0 else old(current))
    {
      StopPlayback();
      selected := None;
      keyframes := map[];
      keys := [];
      unsaved := false;
      frameCount := count;
      keyframes := side;
      SortKeys();
      if count > 0 {
        SelectFrame(0, false);
      }
    }

    /** `_generate_next_motion_name`: the first "모션" + suffix that no keyframe is named. */
    method GenerateNextMotionName() returns (name: string)
      ensures IsFirstFree(ExistingNames(keyframes), name)
    {
      var index;
      name, index := NextMotionName(ExistingNames(keyframes));
    }

    /** `sorted(self.keyframes.keys())` after the map changed. */
    method SortKeys()
      modifies this`keys
      ensures Valid()
    {
      keys := Sorted(keyframes.Keys);
      SortedListsKeys(keyframes);
    }

    /**
     * `_open_keyframe_dialog(frame)`: a new key gets the next free motion
     * name as placeholder; the answer is applied to the map, and anything
     * but a cancel marks the project as changed.
     */
    method OpenKeyframeDialog(frame: int, answer: Answer)
      requires Valid()
      modifies this
      ensures Valid() && frameCount == old(frameCount) && State() == old(State())
      ensures answer.Cancel? ==> keyframes == old(keyframes) && unsaved == old(unsaved)
      ensures !answer.Cancel? ==> unsaved
      ensures frame in old(keyframes) ==> keyframes == Applied(old(keyframes), frame, OutcomeOf(answer, ""))
      ensures frame !in old(keyframes) ==> exists name :: (IsFirstFree(ExistingNames(old(keyframes)), name)
        && keyframes == Applied(old(keyframes), frame, OutcomeOf(answer, name)))
    {
      var isExisting := frame in keyframes;
      var placeholder := "";
      if !isExisting {
        placeholder := GenerateNextMotionName();
      }
      if answer.Cancel? {
        return;
      }
      ApplyDialogOutcome(frame, isExisting, OutcomeOf(answer, placeholder));
    }

    /** The part of `_open_keyframe_dialog` that runs once the dialog was accepted. */
    method ApplyDialogOutcome(frame: int, isExisting: bool, outcome: Outcome)
      requires Valid() && isExisting == (frame in keyframes) && !outcome.Cancelled?
      modifies this
      ensures Valid() && frameCount == old(frameCount) && State() == old(State())
      ensures keyframes == Applied(old(keyframes), frame, outcome) && unsaved
    {
      var kf := keyframes;
      if outcome.Deleted? {
        assert Applied(kf, frame, outcome) == kf - {frame};
        if isExisting && frame in kf {
          kf := kf - {frame};
        } else {
          RemoveAbsent(kf, frame);
        }
      } else {
        var data := outcome.data;
        if data.name == [] && data.kind != END {
          assert Applied(kf, frame, outcome) == kf - {frame};
          if isExisting && frame in kf {
            kf := kf - {frame};
          } else {
            RemoveAbsent(kf, frame);
          }
        } else {
          assert Applied(kf, frame, outcome) == kf[frame := data];
          kf := kf[frame := data];
        }
      }
      keyframes := kf;
      SortKeys();
      unsaved := true;
    }

    /**
     * `load_settings` with the intended upgrade of every value: the map is
     * cleared and refilled entry by entry. Nothing is loaded while no GIF
     * is open.
     */
    method LoadSettings(entries: seq<(int, Raw)>)
      requires Valid()
      modifies this
      ensures Valid() && frameCount == old(frameCount) && State() == old(State())
      ensures old(frameCount) == 0 ==> keyframes == old(keyframes) && unsaved == old(unsaved)
      ensures old(frameCount) > 0 ==> keyframes == Load(entries) && !unsaved
    {
      if frameCount == 0 {
        return;
      }
      keyframes := map[];
      var n := 0;
      while n < |entries|
        invariant 0 <= n <= |entries|
        invariant LoadInto(keyframes, entries[n..]) == Load(entries)
        invariant frameCount == old(frameCount) && State() == old(State())
      {
        var entry := entries[n];
        assert entries[n..][1..] == entries[n + 1..];
        keyframes := keyframes[entry.0 := Upgrade(entry.1)];
        n := n + 1;
      }
      SortKeys();
      unsaved := false;
    }
  }
}
