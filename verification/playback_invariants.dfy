/**
 * What the handlers of the newest revision (v0.62.36_strippedBuild_GIF_v039.py)
 * promise about the playback attributes: a running timer sits on a frame,
 * a selection is a frame, and an armed segment loop spans frames of the
 * GIF. Every handler keeps these facts, and each one states what it does
 * to the selection, the timer and the loop.
 */
module PlaybackInvariants {
  import opened SortedKeys
  import opened Keyframes
  import opened Playback
  import opened PlaybackLemmas
  import opened SegmentLemmas

  /**
   * The attributes are consistent: playing means the cursor is a frame, a
   * selection is a frame, and the segment loop runs between two frames with
   * the return point not after the end point.
   */
  ghost predicate Sane(frameCount: nat, c: Cursor)
  {
    && (c.playing ==> 0 <= c.current < frameCount)
    && (c.selected.Some? ==> 0 <= c.selected.value < frameCount)
    && (c.inLoop ==> 0 <= c.returnPoint <= c.endPoint < frameCount)
  }

  /**
   * `_update_playback_context(f)`: the loop is armed exactly when loop mode
   * is on and `f` lies in a segment, and then spans that segment; the
   * counters are cleared and nothing else changes.
   */
  lemma EnterSegmentRule(kf: KeyMap, sorted: seq<int>, frameCount: nat, c: Cursor, f: int)
    requires ListsKeys(sorted, kf) && KeysInFrames(kf, frameCount) && Sane(frameCount, c) && 0 <= f
    ensures var r := EnterSegment(kf, sorted, frameCount, c, f);
      var ctx := ContextAt(kf, sorted, frameCount, f);
      && Sane(frameCount, r)
      && (r.inLoop <==> c.loopMode && ctx.Segment?)
      && (r.inLoop ==> r.returnPoint == ctx.start && r.endPoint == ctx.end)
      && r.counters == map[]
      && r.playing == c.playing && r.current == c.current && r.selected == c.selected && r.loopMode == c.loopMode
  {
    if ContextAt(kf, sorted, frameCount, f).Segment? {
      SegmentWithinFrames(kf, sorted, frameCount, f);
    }
  }

  /** `_resume_playback(f)`: the timer runs on `f` and selects it when `f` is a frame; otherwise playback stops. */
  lemma ResumeRule(frameCount: nat, c: Cursor, f: int)
    requires Sane(frameCount, c)
    ensures var r := Resume(frameCount, c, f);
      && Sane(frameCount, r)
      && (r.playing <==> 0 <= f < frameCount)
      && (r.playing ==> r.current == f && r.selected == Some(f) && r.inLoop == c.inLoop)
      && (!r.playing ==> !r.inLoop)
  {
  }

  /**
   * `select_frame(f, from_playback)`: a frame outside the GIF changes
   * nothing; a click never selects a locked frame and stops a running
   * playback when it selects; playback itself selects any frame and keeps
   * running.
   */
  lemma SelectRule(kf: KeyMap, sorted: seq<int>, frameCount: nat, c: Cursor, f: int, fromPlayback: bool)
    requires ListsKeys(sorted, kf) && Sane(frameCount, c)
    ensures var r := Select(kf, sorted, frameCount, c, f, fromPlayback);
      && Sane(frameCount, r)
      && (!(0 <= f < frameCount) ==> r == c)
      && (r.selected != c.selected ==> r.selected == Some(f))
      && (!fromPlayback && r.selected != c.selected ==> Unlocked(kf, sorted, frameCount, f) && !r.playing && r.current == f)
      && (!fromPlayback && 0 <= f < frameCount && Unlocked(kf, sorted, frameCount, f) ==> r.selected == Some(f))
      && (fromPlayback && 0 <= f < frameCount ==>
            r.selected == Some(f) && r.playing == c.playing && r.current == (if c.playing then c.current else f))
  {
  }

  /**
   * `_on_play_pause_toggled(checked)`: pausing stops; playing starts
   * exactly when some frame is unlocked, on an unlocked frame that it
   * selects, with the loop armed exactly when loop mode is on and that
   * frame lies in a segment.
   */
  lemma PlayPauseRule(kf: KeyMap, sorted: seq<int>, frameCount: nat, c: Cursor, checked: bool)
    requires ListsKeys(sorted, kf) && KeysInFrames(kf, frameCount) && Sane(frameCount, c)
    ensures var r := PlayPause(kf, sorted, frameCount, c, checked);
      && Sane(frameCount, r)
      && (!checked || frameCount == 0 ==> !r.playing)
      && (checked && frameCount > 0 ==>
            (r.playing <==> exists f :: 0 <= f < frameCount && Unlocked(kf, sorted, frameCount, f)))
      && (r.playing ==> Unlocked(kf, sorted, frameCount, r.current) && r.selected == Some(r.current))
      && (r.playing ==> (r.inLoop <==> c.loopMode && ContextAt(kf, sorted, frameCount, r.current).Segment?))
  {
    if frameCount > 0 && checked {
      var s := if c.selected.Some? then c.selected.value else 0;
      if IsLockedFrame(kf, sorted, frameCount, s) {
        NextUnlockedInFrames(kf, sorted, frameCount, s);
        var start := NextUnlocked(kf, sorted, frameCount, s);
        if start != -1 {
          PlayFromRule(kf, sorted, frameCount, c, start);
        }
      } else {
        PlayFromRule(kf, sorted, frameCount, c, s);
        assert 0 <= s < frameCount && Unlocked(kf, sorted, frameCount, s);
      }
    }
  }

  /** The end of `_on_play_pause_toggled`: move to an unlocked frame, read its context and resume there. */
  lemma PlayFromRule(kf: KeyMap, sorted: seq<int>, frameCount: nat, c: Cursor, start: int)
    requires ListsKeys(sorted, kf) && KeysInFrames(kf, frameCount) && Sane(frameCount, c)
    requires 0 <= start < frameCount && Unlocked(kf, sorted, frameCount, start)
    ensures var r := Resume(frameCount, EnterSegment(kf, sorted, frameCount, c.(current := start), start), start);
      && Sane(frameCount, r) && r.playing && r.current == start && r.selected == Some(start)
      && (r.inLoop <==> c.loopMode && ContextAt(kf, sorted, frameCount, start).Segment?)
  {
    EnterSegmentRule(kf, sorted, frameCount, c.(current := start), start);
  }

  /**
   * `_on_loop_toggled(checked)`: loop mode follows the button; while
   * playing, the loop is re-armed exactly when loop mode is on and the
   * cursor lies in a segment; while stopped, nothing else changes.
   */
  lemma LoopToggledRule(kf: KeyMap, sorted: seq<int>, frameCount: nat, c: Cursor, checked: bool)
    requires ListsKeys(sorted, kf) && KeysInFrames(kf, frameCount) && Sane(frameCount, c)
    ensures var r := LoopToggled(kf, sorted, frameCount, c, checked);
      var ctx := ContextAt(kf, sorted, frameCount, c.current);
      && Sane(frameCount, r)
      && r.loopMode == checked && r.playing == c.playing && r.current == c.current && r.selected == c.selected
      && (r.playing ==> (r.inLoop <==> checked && ctx.Segment?))
      && (r.playing && r.inLoop ==> r.returnPoint == ctx.start && r.endPoint == ctx.end)
      && (!r.playing ==> r == c.(loopMode := checked))
  {
    if c.playing {
      EnterSegmentRule(kf, sorted, frameCount, c.(loopMode := checked), c.current);
    }
  }

  /** One tick of `_advance_frame` keeps the attributes consistent. */
  lemma TickSane(kf: KeyMap, sorted: seq<int>, frameCount: nat, c: Cursor)
    requires ListsKeys(sorted, kf) && KeysInFrames(kf, frameCount) && Sane(frameCount, c)
    ensures Sane(frameCount, Tick(kf, sorted, frameCount, c))
  {
    if c.playing && frameCount > 0 {
      var p := Proposed(kf, sorted, frameCount, c);
      ProposedInRange(kf, sorted, frameCount, c);
      assert Sane(frameCount, p.cursor);
      var m := WrappedSane(kf, sorted, frameCount, p);
      var f := NextUnlocked(kf, sorted, frameCount, m.next);
      NextUnlockedInFrames(kf, sorted, frameCount, m.next);
      if f != -1 {
        EnterSegmentRule(kf, sorted, frameCount, m.cursor, f);
        ResumeRule(frameCount, m.cursor, f);
        ResumeRule(frameCount, EnterSegment(kf, sorted, frameCount, m.cursor, f), f);
      }
    }
  }

  /** The wrap of `_advance_frame` keeps the attributes consistent and proposes a frame at or above 0. */
  lemma WrappedSane(kf: KeyMap, sorted: seq<int>, frameCount: nat, p: Move) returns (m: Move)
    requires ListsKeys(sorted, kf) && KeysInFrames(kf, frameCount) && Sane(frameCount, p.cursor) && 0 <= p.next
    ensures m == Wrapped(kf, sorted, frameCount, p) && Sane(frameCount, m.cursor) && 0 <= m.next
  {
    m := Wrapped(kf, sorted, frameCount, p);
    if frameCount <= p.next && !p.cursor.inLoop {
      EnterSegmentRule(kf, sorted, frameCount, p.cursor, 0);
    }
  }

  /**
   * `_navigate_keyframe(direction)`: with a target, the target is selected
   * and becomes the cursor, and a running playback keeps running there;
   * without one, playback stops and nothing else changes.
   */
  lemma NavigateRule(kf: KeyMap, sorted: seq<int>, frameCount: nat, c: Cursor, direction: int)
    requires ListsKeys(sorted, kf) && KeysInFrames(kf, frameCount) && Sane(frameCount, c)
    ensures var r := Navigate(kf, sorted, frameCount, c, direction);
      var t := NavTarget(kf, sorted, frameCount, c.selected, direction);
      && Sane(frameCount, r)
      && (|kf| == 0 ==> r == c)
      && (|kf| != 0 && t.None? ==> r == (if c.playing then Stop(c) else c))
      && (|kf| != 0 && t.Some? ==> r.selected == Some(t.value) && r.current == t.value && r.playing == c.playing)
  {
    var t := NavTarget(kf, sorted, frameCount, c.selected, direction);
    if |kf| != 0 && t.Some? {
      NavTargetRule(kf, sorted, frameCount, c.selected, direction);
      var c1 := if c.playing then Stop(c) else c;
      SelectRule(kf, sorted, frameCount, c1, t.value, c.playing);
      var c2 := Select(kf, sorted, frameCount, c1, t.value, c.playing);
      if c.playing {
        EnterSegmentRule(kf, sorted, frameCount, c2, t.value);
        ResumeRule(frameCount, EnterSegment(kf, sorted, frameCount, c2, t.value), t.value);
      }
    }
  }
}
