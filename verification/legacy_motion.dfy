/**
 * Motion segments of the older revisions (Gif_Animation_Sampler_v0515.py
 * and Gif_Animation_Sampler_v06302-fix2.py, whose code for this is the
 * same). A keyframe there is only a motion name; the sorted keys cut the
 * frames from the first key on into motions, each running from its key to
 * one before the next key, the last one to the last frame.
 */
module LegacyMotion {
  import opened SortedKeys
  import opened Keyframes

  /** `(start, end)` of a motion, or `(None, None)`. */
  datatype Span = NoSpan | Span(start: int, end: int)

  /** In an increasing list, the position of an element is its index. */
  lemma IndexOfIncreasing(keys: seq<int>, n: nat)
    requires Increasing(keys) && n < |keys|
    ensures IndexOf(keys, keys[n]) == n
  {
    var i := IndexOf(keys, keys[n]);
    assert !(i < n) && !(n < i);
  }

  /** The last frame of the motion starting at the key at index `n`: one before the next key, or the last frame. */
  function MotionEnd(keys: seq<int>, frameCount: nat, n: nat): int
    requires n < |keys|
  {
    if n + 1 < |keys| then keys[n + 1] - 1 else frameCount - 1
  }

  /**
   * `_get_motion_segment_for_frame(frame)`: the motion whose start key is
   * the greatest key at or below the frame, when the frame does not lie
   * past its end.
   */
  function MotionSpan(keys: seq<int>, frameCount: nat, frame: Option): Span
    requires Increasing(keys)
  {
    if keys == [] || frame.None? then NoSpan
    else
      var at := BisectRight(keys, frame.value);
      if at == 0 then NoSpan
      else
        var end := MotionEnd(keys, frameCount, IndexOf(keys, keys[at - 1]));
        if keys[at - 1] <= frame.value <= end then Span(keys[at - 1], end) else NoSpan
  }

  /**
   * The loop of `_get_motion_segment_for_frame`: the keys are walked in
   * order, remembering the last one at or below the frame, until one lies
   * above it.
   */
  method MotionSegmentForFrame(keys: seq<int>, frameCount: nat, frame: Option) returns (r: Span)
    requires Increasing(keys)
    ensures r == MotionSpan(keys, frameCount, frame)
  {
    if keys == [] || frame.None? {
      return NoSpan;
    }
    var start: Option := None;
    var n := 0;
    while n < |keys|
      invariant 0 <= n <= |keys|
      invariant forall i :: 0 <= i < n ==> keys[i] <= frame.value
      invariant start == if n == 0 then None else Some(keys[n - 1])
    {
      if keys[n] <= frame.value {
        start := Some(keys[n]);
      } else {
        break;
      }
      n := n + 1;
    }
    assert n == BisectRight(keys, frame.value) by {
      var at := BisectRight(keys, frame.value);
      assert !(n < at) && !(at < n);
    }
    if start.None? {
      return NoSpan;
    }
    var idx := IndexOf(keys, start.value);
    var end := if idx + 1 < |keys| then keys[idx + 1] - 1 else frameCount - 1;
    if start.value <= frame.value <= end {
      r := Span(start.value, end);
    } else {
      r := NoSpan;
    }
  }

  /**
   * A frame lies in a motion exactly when some key is at or below it and
   * it does not lie past the last frame behind the last key; the motion
   * then starts at the greatest such key, contains the frame, and ends one
   * before the next key, or at the last frame when there is none.
   */
  lemma SegmentRule(keys: seq<int>, frameCount: nat, f: int)
    requires Increasing(keys)
    ensures var r := MotionSpan(keys, frameCount, Some(f));
      && (r.NoSpan? <==> ((forall i :: 0 <= i < |keys| ==> f < keys[i])
            || (f >= frameCount && forall i :: 0 <= i < |keys| ==> keys[i] <= f)))
      && (r.Span? ==> exists n :: (0 <= n < |keys| && keys[n] == r.start && r.start <= f <= r.end
            && r.end == MotionEnd(keys, frameCount, n)
            && (n + 1 < |keys| ==> f < keys[n + 1])))
  {
    if keys != [] {
      var at := BisectRight(keys, f);
      if at > 0 {
        IndexOfIncreasing(keys, at - 1);
        if at < |keys| {
          assert f < keys[at];
        }
      }
    }
  }

  /** A motion holds no other key than its start. */
  lemma SegmentHasOneKey(keys: seq<int>, frameCount: nat, f: int, i: nat)
    requires Increasing(keys) && MotionSpan(keys, frameCount, Some(f)).Span? && i < |keys|
    ensures var r := MotionSpan(keys, frameCount, Some(f));
      !(r.start < keys[i] <= r.end)
  {
    SegmentRule(keys, frameCount, f);
    var r := MotionSpan(keys, frameCount, Some(f));
    var n :| 0 <= n < |keys| && keys[n] == r.start && r.start <= f <= r.end
      && r.end == MotionEnd(keys, frameCount, n) && (n + 1 < |keys| ==> f < keys[n + 1]);
    if n < i {
      assert keys[n + 1] <= keys[i];
    } else if i < n {
      assert keys[i] < keys[n];
    }
  }

  /** Every frame of a motion has that same motion: the motions tile the frames they cover. */
  lemma SegmentConstant(keys: seq<int>, frameCount: nat, f: int, g: int)
    requires Increasing(keys)
    requires MotionSpan(keys, frameCount, Some(f)).Span?
    requires MotionSpan(keys, frameCount, Some(f)).start <= g <= MotionSpan(keys, frameCount, Some(f)).end
    ensures MotionSpan(keys, frameCount, Some(g)) == MotionSpan(keys, frameCount, Some(f))
  {
    var at := BisectRight(keys, f);
    var n := at - 1;
    IndexOfIncreasing(keys, n);
    var end := MotionEnd(keys, frameCount, n);
    assert MotionSpan(keys, frameCount, Some(f)) == Span(keys[n], end);
    BisectRightAt(keys, g, at);
  }

  /** Every frame from the first key to the last frame lies in a motion (when the keys are frames). */
  lemma SegmentCovers(keys: seq<int>, frameCount: nat, f: int)
    requires Increasing(keys) && keys != [] && keys[0] <= f < frameCount
    ensures MotionSpan(keys, frameCount, Some(f)).Span?
  {
    SegmentRule(keys, frameCount, f);
  }

  /**
   * `_get_current_motion_start_key(frame, keys)` as written: the greatest
   * key at or below the frame, reached through a series of range tests.
   */
  function StartKey(keys: seq<int>, frameCount: nat, f: int): Option
    requires Increasing(keys)
  {
    if keys == [] then None
    else
      var at := BisectRight(keys, f);
      if at == 0 then
        if keys[0] == f then Some(keys[0]) else None
      else
        var start := keys[at - 1];
        var end := MotionEnd(keys, frameCount, IndexOf(keys, start));
        if start <= f <= end then Some(start)
        else if f > end && at < |keys| && f < keys[at] then Some(start)
        else if f > keys[|keys| - 1] then Some(keys[|keys| - 1])
        else None
  }

  /**
   * The start key is the greatest key at or below the frame. There is none
   * when every key lies above the frame, and, as written, also when the
   * frame is the last key and lies at or past the frame count.
   */
  lemma StartKeyRule(keys: seq<int>, frameCount: nat, f: int)
    requires Increasing(keys)
    ensures var r := StartKey(keys, frameCount, f);
      && (r.None? <==> ((forall i :: 0 <= i < |keys| ==> f < keys[i])
            || (f == keys[|keys| - 1] && f >= frameCount)))
      && (r.Some? ==> exists n :: (0 <= n < |keys| && keys[n] == r.value && r.value <= f
            && forall i :: 0 <= i < |keys| && keys[i] <= f ==> keys[i] <= r.value))
  {
    if keys != [] {
      var at := BisectRight(keys, f);
      if at > 0 {
        IndexOfIncreasing(keys, at - 1);
        if at < |keys| {
          assert f < keys[at];
        }
        forall i | 0 <= i < |keys| && keys[i] <= f ensures keys[i] <= keys[at - 1] {
          assert i < at;
        }
      }
    }
  }

  /** For a frame of the GIF, the start key is exactly the greatest key at or below it. */
  lemma StartKeyOfFrame(keys: seq<int>, frameCount: nat, f: int)
    requires Increasing(keys) && 0 <= f < frameCount
    ensures StartKey(keys, frameCount, f).None? <==> forall i :: 0 <= i < |keys| ==> f < keys[i]
  {
    StartKeyRule(keys, frameCount, f);
  }

  /** The start key of a frame in a motion is that motion's start. */
  lemma StartKeyOfSegment(keys: seq<int>, frameCount: nat, f: int)
    requires Increasing(keys) && MotionSpan(keys, frameCount, Some(f)).Span?
    ensures StartKey(keys, frameCount, f) == Some(MotionSpan(keys, frameCount, Some(f)).start)
  {
    var at := BisectRight(keys, f);
    IndexOfIncreasing(keys, at - 1);
  }

  /**
   * The key `_on_next_keyframe_clicked` moves to from the current motion's
   * start key: the next key, wrapping to the first; the first key when
   * there is no start key.
   */
  function NextTarget(keys: seq<int>, start: Option): int
    requires Increasing(keys) && keys != []
  {
    if start.None? || start.value !in keys then keys[0]
    else
      var idx := IndexOf(keys, start.value);
      if idx + 1 >= |keys| then keys[0] else keys[idx + 1]
  }

  /**
   * The key `_on_prev_keyframe_clicked` moves to: the previous key,
   * wrapping to the last; the last key when there is no start key.
   */
  function PrevTarget(keys: seq<int>, start: Option): int
    requires Increasing(keys) && keys != []
  {
    if start.None? || start.value !in keys then keys[|keys| - 1]
    else
      var idx := IndexOf(keys, start.value);
      if idx - 1 < 0 then keys[|keys| - 1] else keys[idx - 1]
  }

  /** Moving to the next motion and then to the previous one comes back, and the other way round. */
  lemma NextPrevInverse(keys: seq<int>, n: nat)
    requires Increasing(keys) && n < |keys|
    ensures PrevTarget(keys, Some(NextTarget(keys, Some(keys[n])))) == keys[n]
    ensures NextTarget(keys, Some(PrevTarget(keys, Some(keys[n])))) == keys[n]
  {
    IndexOfIncreasing(keys, n);
    IndexOfIncreasing(keys, 0);
    IndexOfIncreasing(keys, |keys| - 1);
    if n + 1 < |keys| { IndexOfIncreasing(keys, n + 1); }
    if n > 0 { IndexOfIncreasing(keys, n - 1); }
  }

  /** From a key, the target of the next button is a key, and the one of the previous button is one too; each differs from the start unless there is one key. */
  lemma TargetsAreKeys(keys: seq<int>, start: Option)
    requires Increasing(keys) && keys != []
    ensures NextTarget(keys, start) in keys && PrevTarget(keys, start) in keys
    ensures start.Some? && start.value in keys && |keys| > 1 ==>
      NextTarget(keys, start) != start.value && PrevTarget(keys, start) != start.value
  {
    if start.Some? && start.value in keys {
      var idx := IndexOf(keys, start.value);
      if idx + 1 < |keys| { assert keys[idx + 1] in keys; }
      if idx > 0 { assert keys[idx - 1] in keys; }
      if idx + 1 >= |keys| && |keys| > 1 { assert keys[0] < keys[idx]; }
      if idx == 0 && |keys| > 1 { assert keys[0] < keys[|keys| - 1]; }
    }
    assert keys[0] in keys;
    assert keys[|keys| - 1] in keys;
  }

  /**
   * `_advance_frame`'s choice of the next frame: one on, back to the start
   * of the active motion past its end when a motion loops, and back to 0
   * past the last frame otherwise.
   */
  function AdvanceTarget(cur: int, frameCount: nat, loopActive: bool, start: int, end: int): int
  {
    var next := cur + 1;
    if loopActive then (if next > end then start else next)
    else if next >= frameCount then 0 else next
  }

  /**
   * The next frame lies in the GIF, and a looping motion is never left:
   * without the loop the frames are visited cyclically.
   */
  lemma AdvanceInRange(cur: int, frameCount: nat, loopActive: bool, start: int, end: int)
    requires 0 <= cur && frameCount > 0
    requires loopActive ==> 0 <= start <= end < frameCount
    ensures 0 <= AdvanceTarget(cur, frameCount, loopActive, start, end) < frameCount
    ensures loopActive && start <= cur <= end ==> start <= AdvanceTarget(cur, frameCount, loopActive, start, end) <= end
    ensures !loopActive && cur < frameCount ==> AdvanceTarget(cur, frameCount, loopActive, start, end) == (cur + 1) % frameCount
  {
  }

  /**
   * The wheel step of `eventFilter` (Gif_Animation_Sampler_v0515.py): a
   * turn towards the user moves one frame on, away from the user one frame
   * back, never past either end.
   */
  function WheelTarget(cur: int, frameCount: nat, delta: int): int
  {
    if delta < 0 then (if cur < frameCount - 1 then cur + 1 else cur)
    else if delta > 0 then (if cur > 0 then cur - 1 else cur)
    else cur
  }

  /** The wheel keeps a frame of the GIF in the GIF and moves by at most one frame in the direction of the turn. */
  lemma WheelInRange(cur: int, frameCount: nat, delta: int)
    requires 0 <= cur < frameCount
    ensures var n := WheelTarget(cur, frameCount, delta);
      && 0 <= n < frameCount
      && (delta < 0 ==> n == cur + 1 || (n == cur && cur == frameCount - 1))
      && (delta > 0 ==> n == cur - 1 || (n == cur && cur == 0))
      && (delta == 0 ==> n == cur)
  {
  }
}
