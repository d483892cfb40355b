/**
 * The playback cursor of the newest revision
 * (v0.62.36_strippedBuild_GIF_v039.py): the locked-frame skip, one timer
 * tick (`_advance_frame`), the segment-loop bookkeeping, frame selection,
 * the play/pause and loop toggles, and keyframe navigation.
 *
 * Each operation is a function on a `Cursor` value; class `Window.Sampler`
 * performs the same steps in place and is proved against them.
 */
module Playback {
  import opened SortedKeys
  import opened Keyframes

  /**
   * The instance attributes the playback code reads and writes. `playing`
   * stands for both the checked play button and the running timer.
   */
  datatype Cursor = Cursor(
    playing: bool,
    loopMode: bool,
    current: int,
    selected: Option,
    inLoop: bool,
    returnPoint: int,
    endPoint: int,
    counters: map<int, int>)

  /** `_reset_loop_state`: leave the segment loop and forget every repeat counter. */
  function ResetLoop(c: Cursor): (r: Cursor)
    ensures !r.inLoop && r.returnPoint == -1 && r.endPoint == -1 && r.counters == map[]
    ensures r.(inLoop := c.inLoop, returnPoint := c.returnPoint, endPoint := c.endPoint, counters := c.counters) == c
  {
    c.(inLoop := false, returnPoint := -1, endPoint := -1, counters := map[])
  }

  /** `_stop_playback_and_reset_ui`: stop the timer and reset the loop state. */
  function Stop(c: Cursor): (r: Cursor)
    ensures !r.playing && r == ResetLoop(c).(playing := false)
  {
    ResetLoop(c).(playing := false)
  }

  /**
   * `_update_playback_context`: reset the loop state, then, in loop mode,
   * loop over the segment of frame `f` when it has one.
   */
  function EnterSegment(kf: KeyMap, sorted: seq<int>, frameCount: nat, c: Cursor, f: int): (r: Cursor)
    requires ListsKeys(sorted, kf)
  {
    var ctx := ContextAt(kf, sorted, frameCount, f);
    if c.loopMode && ctx.Segment? then
      ResetLoop(c).(inLoop := true, returnPoint := ctx.start, endPoint := ctx.end)
    else ResetLoop(c)
  }

  /**
   * `_resume_playback`: a frame outside `[0, frameCount)` stops playback;
   * otherwise the cursor and the selection move to it and playback runs.
   */
  function Resume(frameCount: nat, c: Cursor, f: int): (r: Cursor)
  {
    if 0 <= f < frameCount then c.(current := f, playing := true, selected := Some(f))
    else Stop(c)
  }

  /** Frame `f` is not inside a locked segment. */
  predicate Unlocked(kf: KeyMap, sorted: seq<int>, frameCount: nat, f: int)
    requires ListsKeys(sorted, kf)
  {
    !IsLockedFrame(kf, sorted, frameCount, f)
  }

  /**
   * The `j`-th index `_find_next_unlocked_frame` examines from `start`:
   * counting up from `start`, and from 0 once the count reaches the frame count.
   */
  function Candidate(frameCount: nat, start: int, j: nat): int
  {
    if start + j < frameCount then start + j
    else if start < frameCount then j - (frameCount - start)
    else j
  }

  /** Incrementing the index examined last and wrapping it at the frame count gives the next candidate. */
  lemma CandidateStep(frameCount: nat, start: int, j: nat)
    requires j + 1 < frameCount
    ensures var idx := Candidate(frameCount, start, j) + 1;
      (if idx >= frameCount then 0 else idx) == Candidate(frameCount, start, j + 1)
  {
  }

  /** The first candidate, from the `j`-th on, that satisfies `ok`, or -1. */
  function FirstFrom(ok: int -> bool, frameCount: nat, start: int, j: nat): int
    decreases frameCount - j
  {
    if j >= frameCount then -1
    else if ok(Candidate(frameCount, start, j)) then Candidate(frameCount, start, j)
    else FirstFrom(ok, frameCount, start, j + 1)
  }

  /** `_find_next_unlocked_frame(start)`. */
  function NextUnlocked(kf: KeyMap, sorted: seq<int>, frameCount: nat, start: int): int
    requires ListsKeys(sorted, kf)
  {
    FirstFrom(f => Unlocked(kf, sorted, frameCount, f), frameCount, start, 0)
  }

  /** `sub_loop_counters.get(start, 0)`. */
  function CountOf(counters: map<int, int>, start: int): int
  {
    if start in counters then counters[start] else 0
  }

  /** The outcome of the sub-motion scan of `_advance_frame`. */
  datatype Repeat = NoRepeat | Repeat(target: int, counters: map<int, int>)

  /**
   * The scan over the sub-motions: the first one that ends at `cur` is
   * repeated when its counter is still below its `loop` value.
   */
  function SubRepeat(subs: seq<SubMotion>, cur: int, counters: map<int, int>): Repeat
  {
    if subs == [] then NoRepeat
    else if cur == subs[0].end then
      var count := CountOf(counters, subs[0].start);
      if count < subs[0].data.loop then Repeat(subs[0].start, counters[subs[0].start := count + 1])
      else NoRepeat
    else SubRepeat(subs[1..], cur, counters)
  }

  /** A proposed next frame together with the cursor it is proposed from. */
  datatype Move = Move(next: int, cursor: Cursor)

  /** The frame `_advance_frame` proposes before the range check. */
  function Proposed(kf: KeyMap, sorted: seq<int>, frameCount: nat, c: Cursor): Move
    requires ListsKeys(sorted, kf)
  {
    var ctx := ContextAt(kf, sorted, frameCount, c.current);
    if ctx.NoContext? then Move(c.current + 1, c)
    else
      match SubRepeat(ctx.subs, c.current, c.counters)
      case Repeat(target, counters) => Move(target, c.(counters := counters))
      case NoRepeat =>
        if c.inLoop && c.current == c.endPoint then Move(c.returnPoint, c.(counters := map[]))
        else Move(c.current + 1, c)
  }

  /** Past the last frame: back to the loop's return point, or to frame 0 with a fresh context. */
  function Wrapped(kf: KeyMap, sorted: seq<int>, frameCount: nat, m: Move): Move
    requires ListsKeys(sorted, kf)
  {
    if m.next < frameCount then m
    else if m.cursor.inLoop then Move(m.cursor.returnPoint, m.cursor.(counters := map[]))
    else Move(0, EnterSegment(kf, sorted, frameCount, m.cursor, 0))
  }

  /** `_advance_frame`: one timer tick. */
  function Tick(kf: KeyMap, sorted: seq<int>, frameCount: nat, c: Cursor): Cursor
    requires ListsKeys(sorted, kf)
  {
    if !c.playing || frameCount == 0 then Stop(c)
    else
      var m := Wrapped(kf, sorted, frameCount, Proposed(kf, sorted, frameCount, c));
      var f := NextUnlocked(kf, sorted, frameCount, m.next);
      if f == -1 then Stop(m.cursor)
      else
        var oldStart := StartOf(ContextAt(kf, sorted, frameCount, c.current));
        var newStart := StartOf(ContextAt(kf, sorted, frameCount, f));
        Resume(frameCount, if oldStart != newStart then EnterSegment(kf, sorted, frameCount, m.cursor, f) else m.cursor, f)
  }

  /**
   * `select_frame(f, from_playback)`: out-of-range frames are ignored; a
   * user selection ignores locked frames and the already selected frame,
   * and stops playback; the cursor follows the selection unless playing.
   */
  function Select(kf: KeyMap, sorted: seq<int>, frameCount: nat, c: Cursor, f: int, fromPlayback: bool): (r: Cursor)
    requires ListsKeys(sorted, kf)
  {
    if !(0 <= f < frameCount) then c
    else if !fromPlayback && IsLockedFrame(kf, sorted, frameCount, f) then c
    else if !fromPlayback && c.selected == Some(f) then c
    else
      var c1 := if c.playing && !fromPlayback then Stop(c) else c;
      if c1.playing then c1.(selected := Some(f)) else c1.(selected := Some(f), current := f)
  }

  /**
   * `_on_play_pause_toggled(checked)`: playback starts from the selection
   * (or 0), moved on by the locked-frame skip when it is locked, and stops
   * when the skip finds nothing.
   */
  function PlayPause(kf: KeyMap, sorted: seq<int>, frameCount: nat, c: Cursor, checked: bool): Cursor
    requires ListsKeys(sorted, kf)
  {
    if frameCount == 0 then c.(playing := false)
    else if !checked then Stop(c)
    else
      var s := if c.selected.Some? then c.selected.value else 0;
      var start := if IsLockedFrame(kf, sorted, frameCount, s) then NextUnlocked(kf, sorted, frameCount, s) else s;
      if IsLockedFrame(kf, sorted, frameCount, s) && start == -1 then Stop(c)
      else Resume(frameCount, EnterSegment(kf, sorted, frameCount, c.(current := start), start), start)
  }

  /** `_on_loop_toggled(checked)`: a running playback re-reads its context. */
  function LoopToggled(kf: KeyMap, sorted: seq<int>, frameCount: nat, c: Cursor, checked: bool): Cursor
    requires ListsKeys(sorted, kf)
  {
    var c1 := c.(loopMode := checked);
    if c1.playing then EnterSegment(kf, sorted, frameCount, c1, c1.current) else c1
  }

  /** The keys that do not lie in a locked segment, increasing. */
  function UnlockedKeys(kf: KeyMap, sorted: seq<int>, frameCount: nat): (r: seq<int>)
    requires ListsKeys(sorted, kf)
    ensures Increasing(r)
    ensures forall k :: k in r <==> k in kf && Unlocked(kf, sorted, frameCount, k)
  {
    Filter(sorted, k => k in kf && Unlocked(kf, sorted, frameCount, k))
  }

  /**
   * The key `_navigate_keyframe(direction)` jumps to from the selection
   * (or 0): the next unlocked key for direction 1, the previous one for any
   * other direction, wrapping around; none when every key is locked.
   */
  function NavTarget(kf: KeyMap, sorted: seq<int>, frameCount: nat, selected: Option, direction: int): Option
    requires ListsKeys(sorted, kf)
  {
    var keys := UnlockedKeys(kf, sorted, frameCount);
    if keys == [] then None
    else
      var cur := if selected.Some? then selected.value else 0;
      Some(if direction == 1 then CyclicNext(keys, cur) else CyclicPrev(keys, cur))
  }

  /** The element after `cur` in an increasing list, wrapping to the first (`bisect_right`). */
  function CyclicNext(keys: seq<int>, cur: int): int
    requires Increasing(keys) && keys != []
  {
    var at := BisectRight(keys, cur);
    if at < |keys| then keys[at] else keys[0]
  }

  /** The element before `cur` in an increasing list, wrapping to the last (`bisect_left`). */
  function CyclicPrev(keys: seq<int>, cur: int): int
    requires Increasing(keys) && keys != []
  {
    var at := BisectLeft(keys, cur);
    if at > 0 then keys[at - 1] else keys[|keys| - 1]
  }

  /** `_navigate_keyframe(direction)`. */
  function Navigate(kf: KeyMap, sorted: seq<int>, frameCount: nat, c: Cursor, direction: int): Cursor
    requires ListsKeys(sorted, kf)
  {
    if |kf| == 0 then c
    else
      var c1 := if c.playing then Stop(c) else c;
      match NavTarget(kf, sorted, frameCount, c.selected, direction)
      case None => c1
      case Some(t) =>
        var c2 := Select(kf, sorted, frameCount, c1, t, c.playing);
        if c.playing then Resume(frameCount, EnterSegment(kf, sorted, frameCount, c2, t), t)
        else c2.(current := t)
  }
}
