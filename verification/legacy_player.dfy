/**
 * The main window of the older revisions (Gif_Animation_Sampler_v0515.py
 * and Gif_Animation_Sampler_v06302-fix2.py) as an object: the keyframe
 * names, the frame count and the playback attributes, with methods that
 * update them in place. Each method is proved to leave the object in the
 * state the corresponding function of module `LegacyPlayback` describes.
 */
module LegacyWindow {
  import opened SortedKeys
  import opened Keyframes
  import opened LegacyMotion
  import opened LegacyPlayback
  import PyText

  class Sampler {
    /** `self.keyframes`: a motion name per key frame. */
    var keyframes: map<int, string>
    /** `sorted(self.keyframes.keys())`, which the source recomputes wherever it is needed */
    var keys: seq<int>
    /** `len(self.all_frame_data)` */
    var frameCount: nat
    /** The playback timer runs. */
    var playing: bool
    /** The loop button is checked. */
    var loopChecked: bool
    /** `self.is_looping_specific_motion` */
    var looping: bool
    /** `self.active_motion_start_index` */
    var activeStart: int
    /** `self.active_motion_end_index` */
    var activeEnd: int
    /** `self.current_playback_frame_index` */
    var current: int
    /** `self.selected_index` */
    var selected: Option
    /** `self.unsaved_changes` */
    var unsaved: bool
    /** `select_frame` ignores the frame already selected (Gif_Animation_Sampler_v06302-fix2.py only). */
    const skipsReselect: bool

    /** The playback attributes as a `Playhead` value. */
    function State(): Playhead
      reads this
    {
      Playhead(playing, loopChecked, looping, activeStart, activeEnd, current, selected)
    }

    /** `keys` lists the keys of `keyframes` in increasing order. */
    ghost predicate Valid()
      reads this
    {
      Increasing(keys) && forall k :: k in keys <==> k in keyframes
    }

    /** The state `__init__` sets up: no frames, no keyframes, no selection, stopped. */
    constructor (skipsReselect: bool)
      ensures Valid() && keyframes == map[] && frameCount == 0 && !unsaved
      ensures this.skipsReselect == skipsReselect
      ensures State() == Playhead(false, false, false, -1, -1, -1, None)
    {
      keyframes := map[];
      keys := [];
      frameCount := 0;
      playing := false;
      loopChecked := false;
      looping := false;
      activeStart := -1;
      activeEnd := -1;
      current := -1;
      selected := None;
      unsaved := false;
      this.skipsReselect := skipsReselect;
    }

    /** `_stop_playback_and_reset_ui` */
    method StopPlayback()
      modifies this
      ensures keyframes == old(keyframes) && keys == old(keys) && frameCount == old(frameCount) && unsaved == old(unsaved)
      ensures State() == Stop(old(State()))
    {
      playing := false;
    }

    /** `select_frame(index, internal)`: only the attributes are modelled; the preview image and the labels are not. */
    method SelectFrame(index: int, internal: bool)
      modifies this
      ensures keyframes == old(keyframes) && keys == old(keys) && frameCount == old(frameCount) && unsaved == old(unsaved)
      ensures State() == Select(frameCount, old(State()), index, internal, skipsReselect)
    {
      if !(0 <= index < frameCount) {
        return;
      }
      if skipsReselect && selected == Some(index) {
        return;
      }
      if playing && !internal {
        StopPlayback();
      }
      selected := Some(index);
      if !playing {
        current := index;
      }
    }

    /** `_update_playback_context_and_resume(target)` */
    method UpdatePlaybackContextAndResume(target: int)
      requires Valid()
      modifies this
      ensures keyframes == old(keyframes) && keys == old(keys) && frameCount == old(frameCount) && unsaved == old(unsaved)
      ensures State() == Resume(keys, frameCount, old(State()), target)
    {
      current := target;
      if loopChecked {
        var span := MotionSegmentForFrame(keys, frameCount, Some(current));
        LoopMotion(span);
      } else {
        looping := false;
      }
      if 0 <= current < frameCount {
        playing := true;
      } else {
        playing := false;  // `_stop_playback_and_reset_ui`
      }
    }

    /** The loop-button branch of `_update_playback_context_and_resume`: loop over `span`, the motion of the cursor, if there is one. */
    method LoopMotion(span: Span)
      modifies this
      ensures keyframes == old(keyframes) && keys == old(keys) && frameCount == old(frameCount) && unsaved == old(unsaved)
      ensures State() == LoopOn(old(State()), span)
    {
      if span.Span? {
        looping := true;
        activeStart := span.start;
        activeEnd := span.end;
        current := if activeStart <= current <= activeEnd then current else activeStart;
      } else {
        looping := false;
      }
    }

    /** `_on_play_pause_toggled(checked)` */
    method PlayPauseToggled(checked: bool)
      requires Valid()
      modifies this
      ensures keyframes == old(keyframes) && keys == old(keys) && frameCount == old(frameCount) && unsaved == old(unsaved)
      ensures State() == PlayPause(keys, frameCount, old(State()), checked, skipsReselect)
    {
      if frameCount == 0 || !checked {
        StopPlayback();
        return;
      }
      if !(0 <= current < frameCount) {
        if selected.Some? && 0 <= selected.value < frameCount {
          current := selected.value;
        } else {
          current := 0;
        }
      }
      var start := current;
      SelectFrame(start, false);
      UpdatePlaybackContextAndResume(start);
    }

    /** `_on_loop_toggled(checked)` */
    method LoopToggled(checked: bool)
      requires Valid()
      modifies this
      ensures keyframes == old(keyframes) && keys == old(keys) && frameCount == old(frameCount) && unsaved == old(unsaved)
      ensures State() == LegacyPlayback.LoopToggled(keys, frameCount, old(State()), checked)
    {
      loopChecked := checked;
      if !checked {
        looping := false;
      }
      if playing {
        UpdatePlaybackContextAndResume(current);
      }
    }

    /** `_advance_frame`: one timeout of the single-shot playback timer. */
    method AdvanceFrame()
      modifies this
      ensures keyframes == old(keyframes) && keys == old(keys) && frameCount == old(frameCount) && unsaved == old(unsaved)
      ensures State() == Advance(frameCount, old(State()), skipsReselect)
    {
      if frameCount == 0 || current == -1 {
        StopPlayback();
        return;
      }
      var next := current + 1;
      if looping && loopChecked {
        if next > activeEnd {
          current := activeStart;
        } else {
          current := next;
        }
      } else {
        if next >= frameCount {
          current := 0;
        } else {
          current := next;
        }
      }
      SelectFrame(current, true);
      playing := true;
    }

    /**
     * `_on_next_keyframe_clicked` (`forward`) and
     * `_on_prev_keyframe_clicked`: the target is the key after (before) the
     * start key of the motion the cursor or the selection is in.
     */
    method MotionButtonClicked(forward: bool)
      requires Valid()
      modifies this
      ensures keyframes == old(keyframes) && keys == old(keys) && frameCount == old(frameCount) && unsaved == old(unsaved)
      ensures State() == Navigate(keys, frameCount, old(State()), forward, skipsReselect)
    {
      assert (keys == []) == (|keyframes| == 0) by {
        if keys != [] { assert keys[0] in keys; }
        if |keyframes| != 0 { assert |keyframes.Keys| != 0; HasElement(keyframes.Keys); }
      }
      if frameCount == 0 || |keyframes| == 0 {
        if playing {
          StopPlayback();
        }
        return;
      }
      var wasPlaying := playing;
      if wasPlaying {
        playing := false;
      }
      var base := if wasPlaying then current else if selected.Some? then selected.value else 0;
      var start := StartKey(keys, frameCount, base);
      var target := if forward then NextTarget(keys, start) else PrevTarget(keys, start);
      if target != -1 {
        JumpToMotion(target, wasPlaying);
      }
    }

    /** The end of both motion-button handlers, once the timer was stopped: select the target and resume there if playback was running. */
    method JumpToMotion(target: int, wasPlaying: bool)
      requires Valid() && !playing
      modifies this
      ensures keyframes == old(keyframes) && keys == old(keys) && frameCount == old(frameCount) && unsaved == old(unsaved)
      ensures State() == JumpTo(keys, frameCount, old(State()).(playing := wasPlaying), target, skipsReselect)
    {
      SelectFrame(target, wasPlaying);
      if wasPlaying {
        UpdatePlaybackContextAndResume(target);
      } else {
        current := target;
      }
    }

    /** The wheel handler of `eventFilter` (Gif_Animation_Sampler_v0515.py:1314-1322). */
    method WheelTurned(delta: int)
      modifies this
      ensures keyframes == old(keyframes) && keys == old(keys) && frameCount == old(frameCount) && unsaved == old(unsaved)
      ensures State() == Wheel(frameCount, old(State()), delta, skipsReselect)
    {
      if frameCount == 0 {
        return;
      }
      var cur := if selected.Some? then selected.value else 0;
      var newIndex := cur;
      if delta < 0 {
        if cur < frameCount - 1 {
          newIndex := cur + 1;
        }
      } else if delta > 0 {
        if cur > 0 {
          newIndex := cur - 1;
        }
      }
      if newIndex != cur {
        SelectFrame(newIndex, false);
      }
    }

    /** `select_frame_by_offset(offset)` (Gif_Animation_Sampler_v06302-fix2.py:871-879) */
    method SelectFrameByOffset(offset: int)
      modifies this
      ensures keyframes == old(keyframes) && keys == old(keys) && frameCount == old(frameCount) && unsaved == old(unsaved)
      ensures State() == SelectByOffset(frameCount, old(State()), offset, skipsReselect)
    {
      if selected.None? || frameCount == 0 {
        return;
      }
      var newIndex := selected.value + offset;
      if 0 <= newIndex < frameCount {
        SelectFrame(newIndex, false);
      }
    }

    /**
     * `add_keyframe` (Gif_Animation_Sampler_v0515.py): the name typed in
     * `text`, stripped, becomes the name of the selected frame; an empty
     * name or a missing selection changes nothing.
     */
    method AddKeyframe(text: string)
      requires Valid()
      modifies this
      ensures Valid() && frameCount == old(frameCount) && State() == old(State())
      ensures var name := PyText.Strip(text);
        if name == [] || old(selected).None? then keyframes == old(keyframes) && unsaved == old(unsaved)
        else keyframes == old(keyframes)[old(selected).value := name] && unsaved
    {
      var name := PyText.Strip(text);
      if name == [] || selected.None? {
        return;
      }
      keyframes := keyframes[selected.value := name];
      SortKeys();
      unsaved := true;
    }

    /** `remove_keyframe`: the selected frame stops being a key frame if it was one. */
    method RemoveKeyframe()
      requires Valid()
      modifies this
      ensures Valid() && frameCount == old(frameCount) && State() == old(State())
      ensures if old(selected).Some? && old(selected).value in old(keyframes)
        then keyframes == old(keyframes) - {old(selected).value} && unsaved
        else keyframes == old(keyframes) && unsaved == old(unsaved)
    {
      if selected.Some? && selected.value in keyframes {
        keyframes := keyframes - {selected.value};
        SortKeys();
        unsaved := true;
      }
    }

    /**
     * `load_gif_file` for a file that decodes to `count` frames: a new
     * project is started (stopped, nothing selected, loop button
     * released), the keyframes of the project file beside the GIF are
     * taken over (`project`, empty when there is none or it does not
     * load), and the first frame, if any, is selected.
     */
    method LoadGif(count: nat, project: map<int, string>)
      modifies this
      ensures Valid() && keyframes == project && frameCount == count && !unsaved
      ensures State() == Playhead(false, false, false, -1, -1,
        if count > 0 then 0 else -1, if count > 0 then Some(0) else None)
    {
      StopPlayback();
      keyframes := map[];
      selected := None;
      unsaved := false;
      loopChecked := false;
      looping := false;
      activeStart := -1;
      activeEnd := -1;
      current := -1;
      frameCount := count;
      keyframes := project;
      SortKeys();
      unsaved := false;
      if count > 0 {
        SelectFrame(0, false);
      }
    }

    /** `sorted(self.keyframes.keys())` after the map changed. */
    method SortKeys()
      modifies this`keys
      ensures Valid()
    {
      keys := Sorted(keyframes.Keys);
    }
  }
}
