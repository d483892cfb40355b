/**
 * The playback cursor of the older revisions (Gif_Animation_Sampler_v0515.py
 * and Gif_Animation_Sampler_v06302-fix2.py): frame selection, the resume
 * step that picks the motion to loop, one timer tick (`_advance_frame`),
 * the previous/next motion buttons, the mouse wheel and the arrow keys.
 * Each operation is a function on a `Playhead` value; `LegacyWindow.Sampler`
 * performs the same steps in place and is proved against them.
 */
module LegacyPlayback {
  import opened SortedKeys
  import opened Keyframes
  import opened LegacyMotion

  /**
   * The instance attributes the playback code reads and writes. `playing`
   * stands for the playback timer being active.
   */
  datatype Playhead = Playhead(
    playing: bool,
    loopChecked: bool,
    looping: bool,
    activeStart: int,
    activeEnd: int,
    current: int,
    selected: Option)

  /** The cursor's frames lie in the GIF, and a looping motion is a range of frames. */
  predicate Sane(frameCount: nat, p: Playhead)
  {
    && -1 <= p.current < frameCount
    && (p.selected.Some? ==> 0 <= p.selected.value < frameCount)
    && (p.looping ==> 0 <= p.activeStart <= p.activeEnd < frameCount)
  }

  /** Every key is a frame of the GIF. */
  predicate KeysAreFrames(keys: seq<int>, frameCount: nat)
  {
    forall i :: 0 <= i < |keys| ==> 0 <= keys[i] < frameCount
  }

  /** `_stop_playback_and_reset_ui`: the timer stops; the motion loop is left as it is. */
  function Stop(p: Playhead): Playhead
  {
    p.(playing := false)
  }

  /**
   * `select_frame(index, internal)`: frames outside the GIF are ignored, and
   * in Gif_Animation_Sampler_v06302-fix2.py (`skipsReselect`) so is the
   * frame already selected; a user selection stops playback; the cursor
   * follows the selection unless the timer runs.
   */
  function Select(frameCount: nat, p: Playhead, index: int, internal: bool, skipsReselect: bool): Playhead
  {
    if !(0 <= index < frameCount) then p
    else if skipsReselect && p.selected == Some(index) then p
    else
      var p1 := if p.playing && !internal then Stop(p) else p;
      if p1.playing then p1.(selected := Some(index)) else p1.(selected := Some(index), current := index)
  }

  /**
   * `_update_playback_context_and_resume(target)`: with the loop button on,
   * loop the motion of the target when it has one; then run the timer if the
   * cursor is a frame, and stop otherwise.
   */
  function Resume(keys: seq<int>, frameCount: nat, p: Playhead, target: int): Playhead
    requires Increasing(keys)
  {
    var p1 := p.(current := target);
    var p2 := if p1.loopChecked then LoopOn(p1, MotionSpan(keys, frameCount, Some(target))) else p1.(looping := false);
    if 0 <= p2.current < frameCount then p2.(playing := true) else Stop(p2)
  }

  /** The motion loop a resume with the loop button on sets up for the motion `span` of the cursor. */
  function LoopOn(p: Playhead, span: Span): Playhead
  {
    match span
    case NoSpan => p.(looping := false)
    case Span(s, e) =>
      p.(looping := true, activeStart := s, activeEnd := e, current := if s <= p.current <= e then p.current else s)
  }

  /**
   * `_advance_frame`: without frames or cursor, stop; otherwise move the
   * cursor to the next frame, select it and restart the timer.
   */
  function Advance(frameCount: nat, p: Playhead, skipsReselect: bool): Playhead
  {
    if frameCount == 0 || p.current == -1 then Stop(p)
    else
      var next := AdvanceTarget(p.current, frameCount, p.looping && p.loopChecked, p.activeStart, p.activeEnd);
      Select(frameCount, p.(current := next), next, true, skipsReselect).(playing := true)
  }

  /**
   * `_on_next_keyframe_clicked` (`forward`) and `_on_prev_keyframe_clicked`:
   * pause, move to the next or previous motion of the motion the cursor
   * (while playing) or the selection is in, and resume if it was playing.
   */
  function Navigate(keys: seq<int>, frameCount: nat, p: Playhead, forward: bool, skipsReselect: bool): Playhead
    requires Increasing(keys)
  {
    if frameCount == 0 || keys == [] then (if p.playing then Stop(p) else p)
    else
      var start := StartKey(keys, frameCount, NavigationBase(p));
      var target := if forward then NextTarget(keys, start) else PrevTarget(keys, start);
      if target != -1 then JumpTo(keys, frameCount, p, target, skipsReselect) else Stop(p)
  }

  /** The frame whose motion the motion buttons start from: the cursor while playing, else the selection, else 0. */
  function NavigationBase(p: Playhead): int
  {
    if p.playing then p.current else if p.selected.Some? then p.selected.value else 0
  }

  /** The jump both motion buttons end with: select the target and resume there if playback was running. */
  function JumpTo(keys: seq<int>, frameCount: nat, p: Playhead, target: int, skipsReselect: bool): Playhead
    requires Increasing(keys)
  {
    var p2 := Select(frameCount, Stop(p), target, p.playing, skipsReselect);
    if p.playing then Resume(keys, frameCount, p2, target) else p2.(current := target)
  }

  /** The wheel handler of `eventFilter` (Gif_Animation_Sampler_v0515.py). */
  function Wheel(frameCount: nat, p: Playhead, delta: int, skipsReselect: bool): Playhead
  {
    if frameCount == 0 then p
    else
      var cur := if p.selected.Some? then p.selected.value else 0;
      var n := WheelTarget(cur, frameCount, delta);
      if n != cur then Select(frameCount, p, n, false, skipsReselect) else p
  }

  /** `select_frame_by_offset(offset)` (Gif_Animation_Sampler_v06302-fix2.py). */
  function SelectByOffset(frameCount: nat, p: Playhead, offset: int, skipsReselect: bool): Playhead
  {
    if p.selected.None? || frameCount == 0 then p
    else
      var n := p.selected.value + offset;
      if 0 <= n < frameCount then Select(frameCount, p, n, false, skipsReselect) else p
  }

  /**
   * `_on_play_pause_toggled(checked)`: without frames the button is
   * released; pressing it starts from the cursor, else the selection, else
   * frame 0, selecting that frame and resuming there; releasing it stops
   * the timer.
   */
  function PlayPause(keys: seq<int>, frameCount: nat, p: Playhead, checked: bool, skipsReselect: bool): Playhead
    requires Increasing(keys)
  {
    if frameCount == 0 || !checked then Stop(p)
    else
      var start := PlayStart(frameCount, p);
      var p1 := Select(frameCount, p.(current := start), start, false, skipsReselect);
      Resume(keys, frameCount, p1, start)
  }

  /** The frame playback starts from: the cursor if it is a frame, else the selection, else 0. */
  function PlayStart(frameCount: nat, p: Playhead): int
  {
    if 0 <= p.current < frameCount then p.current
    else if p.selected.Some? && 0 <= p.selected.value < frameCount then p.selected.value
    else 0
  }

  /**
   * `_on_loop_toggled(checked)`: releasing the button ends the motion
   * loop; while the timer runs, playback resumes at the cursor so that the
   * loop is chosen again.
   */
  function LoopToggled(keys: seq<int>, frameCount: nat, p: Playhead, checked: bool): Playhead
    requires Increasing(keys)
  {
    var p1 := if checked then p.(loopChecked := true) else p.(loopChecked := false, looping := false);
    if p1.playing then Resume(keys, frameCount, p1, p1.current) else p1
  }

  /** Selection keeps the cursor sane, and a selected frame of the GIF is what ends up selected. */
  lemma SelectSane(frameCount: nat, p: Playhead, index: int, internal: bool, skipsReselect: bool)
    requires Sane(frameCount, p)
    ensures var r := Select(frameCount, p, index, internal, skipsReselect);
      && Sane(frameCount, r)
      && (0 <= index < frameCount ==> r.selected == Some(index))
      && (!r.playing ==> r.current == p.current || r.current == index)
      && (!(0 <= index < frameCount) ==> r == p)
  {
  }

  /**
   * After a resume the cursor lies in the motion being looped, the
   * loop covers the target's motion, and the timer runs exactly when the
   * cursor is a frame.
   */
  lemma ResumeSane(keys: seq<int>, frameCount: nat, p: Playhead, target: int)
    requires Increasing(keys) && KeysAreFrames(keys, frameCount) && Sane(frameCount, p)
    requires -1 <= target < frameCount
    ensures var r := Resume(keys, frameCount, p, target);
      && Sane(frameCount, r)
      && (r.playing <==> 0 <= r.current)
      && r.current == target
      && (r.looping <==> p.loopChecked && MotionSpan(keys, frameCount, Some(target)).Span?)
      && (r.looping ==>
            && r.activeStart <= r.current <= r.activeEnd
            && Span(r.activeStart, r.activeEnd) == MotionSpan(keys, frameCount, Some(target)))
  {
    var seg := MotionSpan(keys, frameCount, Some(target));
    SegmentRule(keys, frameCount, target);
    if seg.Span? {
      var n :| 0 <= n < |keys| && keys[n] == seg.start && seg.start <= target <= seg.end
        && seg.end == MotionEnd(keys, frameCount, n) && (n + 1 < |keys| ==> target < keys[n + 1]);
      assert 0 <= keys[n];
      if n + 1 < |keys| { assert keys[n + 1] < frameCount; }
    }
  }

  /**
   * A tick of a sane cursor lands on a frame of the GIF, keeps running, and
   * never leaves a looping motion it is in; without the loop it visits the
   * frames cyclically.
   */
  lemma AdvanceSane(frameCount: nat, p: Playhead, skipsReselect: bool)
    requires Sane(frameCount, p)
    ensures var r := Advance(frameCount, p, skipsReselect);
      && Sane(frameCount, r)
      && (frameCount > 0 && p.current != -1 ==>
            && r.playing && 0 <= r.current < frameCount
            && r.current == AdvanceTarget(p.current, frameCount, p.looping && p.loopChecked, p.activeStart, p.activeEnd))
      && ((frameCount > 0 && p.current != -1 && p.looping && p.loopChecked && p.activeStart <= p.current <= p.activeEnd)
            ==> p.activeStart <= r.current <= p.activeEnd)
      && (frameCount > 0 && p.current != -1 && !(p.looping && p.loopChecked) ==> r.current == (p.current + 1) % frameCount)
  {
    if frameCount > 0 && p.current != -1 {
      AdvanceInRange(p.current, frameCount, p.looping && p.loopChecked, p.activeStart, p.activeEnd);
    }
  }

  /** A jump to a frame of the GIF puts the cursor on it and keeps playback running if it was. */
  lemma JumpToSane(keys: seq<int>, frameCount: nat, p: Playhead, target: int, skipsReselect: bool)
    requires Increasing(keys) && KeysAreFrames(keys, frameCount) && Sane(frameCount, p)
    requires 0 <= target < frameCount
    ensures var r := JumpTo(keys, frameCount, p, target, skipsReselect);
      Sane(frameCount, r) && r.current == target && r.playing == p.playing
  {
    var p2 := Select(frameCount, Stop(p), target, p.playing, skipsReselect);
    SelectSane(frameCount, Stop(p), target, p.playing, skipsReselect);
    if p.playing {
      ResumeSane(keys, frameCount, p2, target);
    }
  }

  /**
   * The motion buttons keep the cursor sane; with keys and frames, the new
   * cursor is a key: the one after (or before) the start key of the motion
   * the selection or playing cursor is in.
   */
  lemma NavigateSane(keys: seq<int>, frameCount: nat, p: Playhead, forward: bool, skipsReselect: bool)
    requires Increasing(keys) && KeysAreFrames(keys, frameCount) && Sane(frameCount, p)
    ensures var r := Navigate(keys, frameCount, p, forward, skipsReselect);
      && Sane(frameCount, r)
      && (frameCount > 0 && keys != [] ==>
            var start := StartKey(keys, frameCount, NavigationBase(p));
            && r.current == (if forward then NextTarget(keys, start) else PrevTarget(keys, start))
            && r.current in keys
            && r.playing == p.playing)
  {
    if frameCount > 0 && keys != [] {
      var start := StartKey(keys, frameCount, NavigationBase(p));
      var target := if forward then NextTarget(keys, start) else PrevTarget(keys, start);
      TargetsAreKeys(keys, start);
      var n :| 0 <= n < |keys| && keys[n] == target;
      JumpToSane(keys, frameCount, p, target, skipsReselect);
    }
  }

  /**
   * The wheel keeps the cursor sane; it selects the neighbour of the
   * selection (or of frame 0) in the direction of the turn when there is
   * one, and changes nothing otherwise.
   */
  lemma WheelSane(frameCount: nat, p: Playhead, delta: int, skipsReselect: bool)
    requires Sane(frameCount, p)
    ensures var r := Wheel(frameCount, p, delta, skipsReselect);
      && Sane(frameCount, r)
      && (frameCount > 0 ==>
            var cur := if p.selected.Some? then p.selected.value else 0;
            var n := WheelTarget(cur, frameCount, delta);
            && (n != cur ==> r.selected == Some(n))
            && (n == cur ==> r == p))
      && (frameCount == 0 ==> r == p)
  {
    if frameCount > 0 {
      var cur := if p.selected.Some? then p.selected.value else 0;
      WheelInRange(cur, frameCount, delta);
      SelectSane(frameCount, p, WheelTarget(cur, frameCount, delta), false, skipsReselect);
    }
  }

  /**
   * Pressing play with frames starts the timer on a frame of the GIF: the
   * cursor, else the selection, else frame 0; releasing it stops the
   * timer and changes nothing else.
   */
  lemma PlayPauseSane(keys: seq<int>, frameCount: nat, p: Playhead, checked: bool, skipsReselect: bool)
    requires Increasing(keys) && KeysAreFrames(keys, frameCount) && Sane(frameCount, p)
    ensures var r := PlayPause(keys, frameCount, p, checked, skipsReselect);
      && Sane(frameCount, r)
      && (checked && frameCount > 0 ==> r.playing && r.current == PlayStart(frameCount, p) && 0 <= r.current < frameCount)
      && (!checked || frameCount == 0 ==> r == p.(playing := false))
  {
    if checked && frameCount > 0 {
      var start := PlayStart(frameCount, p);
      SelectSane(frameCount, p.(current := start), start, false, skipsReselect);
      ResumeSane(keys, frameCount, Select(frameCount, p.(current := start), start, false, skipsReselect), start);
    }
  }

  /**
   * The loop button keeps the cursor sane and the cursor where it is; once
   * released, no motion loops; pressed during playback, the motion of the
   * cursor loops if it has one.
   */
  lemma LoopToggledSane(keys: seq<int>, frameCount: nat, p: Playhead, checked: bool)
    requires Increasing(keys) && KeysAreFrames(keys, frameCount) && Sane(frameCount, p)
    ensures var r := LoopToggled(keys, frameCount, p, checked);
      && Sane(frameCount, r)
      && r.loopChecked == checked
      && r.current == p.current
      && (!checked ==> !r.looping)
      && (checked && p.playing ==> (r.looping <==> MotionSpan(keys, frameCount, Some(p.current)).Span?))
  {
    var p1 := if checked then p.(loopChecked := true) else p.(loopChecked := false, looping := false);
    if p.playing {
      ResumeSane(keys, frameCount, p1, p1.current);
    }
  }

  /** An offset selection moves the selection by exactly the offset, or leaves everything as it is. */
  lemma SelectByOffsetRule(frameCount: nat, p: Playhead, offset: int, skipsReselect: bool)
    requires Sane(frameCount, p)
    ensures var r := SelectByOffset(frameCount, p, offset, skipsReselect);
      && Sane(frameCount, r)
      && (r == p || (p.selected.Some? && r.selected == Some(p.selected.value + offset)))
      && (p.selected.Some? && !(0 <= p.selected.value + offset < frameCount) ==> r == p)
  {
    if p.selected.Some? && frameCount > 0 {
      SelectSane(frameCount, p, p.selected.value + offset, false, skipsReselect);
    }
  }
}
