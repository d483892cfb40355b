/**
 * What the playback operations of the newest revision promise: the
 * locked-frame skip visits every frame once and finds the first unlocked
 * one, a tick only ever lands on an unlocked frame, a segment loop never
 * leaves its segment, repeat counters never exceed the sub-motion's `loop`
 * value, and navigation picks the neighbouring unlocked key.
 */
module PlaybackLemmas {
  import opened SortedKeys
  import opened Keyframes
  import opened SegmentLemmas
  import opened Playback

  /** Every keyframe sits on a frame of the animation. */
  ghost predicate KeysInFrames(kf: KeyMap, frameCount: nat)
  {
    forall k :: k in kf ==> 0 <= k < frameCount
  }

  /** Where frame `f` comes in the order `_find_next_unlocked_frame` examines frames from `start`. */
  function CandidateIndex(frameCount: nat, start: int, f: int): int
  {
    if start >= frameCount then f
    else if f >= start then f - start
    else frameCount - start + f
  }

  /**
   * From a non-negative start, the candidates are the frames `[0, frameCount)`,
   * each examined exactly once: `CandidateIndex` is the inverse of `Candidate`.
   */
  lemma CandidatesCover(frameCount: nat, start: int)
    requires 0 <= start
    ensures forall j :: 0 <= j < frameCount ==> 0 <= Candidate(frameCount, start, j) < frameCount
    ensures forall j :: 0 <= j < frameCount ==> CandidateIndex(frameCount, start, Candidate(frameCount, start, j)) == j
    ensures forall f :: 0 <= f < frameCount ==>
      0 <= CandidateIndex(frameCount, start, f) < frameCount && Candidate(frameCount, start, CandidateIndex(frameCount, start, f)) == f
  {
  }

  lemma {:induction false} FirstFromRule(ok: int -> bool, frameCount: nat, start: int, j: nat)
    requires 0 <= start
    ensures var r := FirstFrom(ok, frameCount, start, j);
      && (r == -1 <==> forall n :: j <= n < frameCount ==> !ok(Candidate(frameCount, start, n)))
      && (r != -1 ==> exists n :: (j <= n < frameCount && r == Candidate(frameCount, start, n) && ok(r)
            && forall m :: j <= m < n ==> !ok(Candidate(frameCount, start, m))))
    decreases frameCount - j
  {
    if j < frameCount && !ok(Candidate(frameCount, start, j)) {
      FirstFromRule(ok, frameCount, start, j + 1);
      var r := FirstFrom(ok, frameCount, start, j);
      if r != -1 {
        var n :| j + 1 <= n < frameCount && r == Candidate(frameCount, start, n) && ok(r)
          && forall m :: j + 1 <= m < n ==> !ok(Candidate(frameCount, start, m));
        assert forall m :: j <= m < n ==> !ok(Candidate(frameCount, start, m));
      }
    }
  }

  /**
   * `_find_next_unlocked_frame` examines at most `frameCount` candidates
   * and returns the first unlocked one, or -1 when all of them are locked.
   */
  lemma NextUnlockedRule(kf: KeyMap, sorted: seq<int>, frameCount: nat, start: int)
    requires ListsKeys(sorted, kf) && 0 <= start
    ensures var r := NextUnlocked(kf, sorted, frameCount, start);
      && (r == -1 <==> forall n :: 0 <= n < frameCount ==> !Unlocked(kf, sorted, frameCount, Candidate(frameCount, start, n)))
      && (r != -1 ==> exists n :: (0 <= n < frameCount && r == Candidate(frameCount, start, n) && Unlocked(kf, sorted, frameCount, r)
            && forall m :: 0 <= m < n ==> !Unlocked(kf, sorted, frameCount, Candidate(frameCount, start, m))))
  {
    FirstFromRule(f => Unlocked(kf, sorted, frameCount, f), frameCount, start, 0);
  }

  /**
   * From a start at or above 0 the skip returns -1 exactly when every frame
   * is locked; otherwise an unlocked frame in `[0, frameCount)`, reached by
   * walking forward from `start` (wrapping past the last frame) over locked
   * frames only.
   */
  lemma NextUnlockedInFrames(kf: KeyMap, sorted: seq<int>, frameCount: nat, start: int)
    requires ListsKeys(sorted, kf) && 0 <= start
    ensures var r := NextUnlocked(kf, sorted, frameCount, start);
      && (r == -1 <==> forall f :: 0 <= f < frameCount ==> !Unlocked(kf, sorted, frameCount, f))
      && (r != -1 ==> 0 <= r < frameCount && Unlocked(kf, sorted, frameCount, r))
      && (r != -1 && start < frameCount && start <= r ==> forall f :: start <= f < r ==> !Unlocked(kf, sorted, frameCount, f))
      && (r != -1 && start < frameCount && r < start ==>
            forall f :: (start <= f < frameCount || 0 <= f < r) ==> !Unlocked(kf, sorted, frameCount, f))
      && (r != -1 && frameCount <= start ==> forall f :: 0 <= f < r ==> !Unlocked(kf, sorted, frameCount, f))
  {
    var r := NextUnlocked(kf, sorted, frameCount, start);
    NextUnlockedRule(kf, sorted, frameCount, start);
    CandidatesCover(frameCount, start);
    if r == -1 {
      forall f | 0 <= f < frameCount ensures !Unlocked(kf, sorted, frameCount, f) {
        var n := CandidateIndex(frameCount, start, f);
        assert !Unlocked(kf, sorted, frameCount, Candidate(frameCount, start, n));
      }
    } else {
      var n :| 0 <= n < frameCount && r == Candidate(frameCount, start, n) && Unlocked(kf, sorted, frameCount, r)
        && forall m :: 0 <= m < n ==> !Unlocked(kf, sorted, frameCount, Candidate(frameCount, start, m));
      if start < frameCount && start <= r {
        forall f | start <= f < r ensures !Unlocked(kf, sorted, frameCount, f) {
          assert CandidateIndex(frameCount, start, f) < n;
        }
      }
      if start < frameCount && r < start {
        forall f | start <= f < frameCount || 0 <= f < r ensures !Unlocked(kf, sorted, frameCount, f) {
          assert CandidateIndex(frameCount, start, f) < n;
        }
      }
      if frameCount <= start {
        forall f | 0 <= f < r ensures !Unlocked(kf, sorted, frameCount, f) {
          assert CandidateIndex(frameCount, start, f) < n;
        }
      }
    }
  }

  /** Whatever the start, a result other than -1 satisfies the test. */
  lemma {:induction false} FirstFromFound(ok: int -> bool, frameCount: nat, start: int, j: nat)
    ensures FirstFrom(ok, frameCount, start, j) == -1 || ok(FirstFrom(ok, frameCount, start, j))
    decreases frameCount - j
  {
    if j < frameCount && !ok(Candidate(frameCount, start, j)) {
      FirstFromFound(ok, frameCount, start, j + 1);
    }
  }

  /** The repeated sub-motion: the first one ending at `cur`, whose counter was below its `loop`. */
  lemma {:induction false} SubRepeatRule(subs: seq<SubMotion>, cur: int, counters: map<int, int>) returns (j: nat)
    requires SubRepeat(subs, cur, counters).Repeat?
    ensures j < |subs| && subs[j].end == cur
    ensures forall k :: 0 <= k < j ==> subs[k].end != cur
    ensures CountOf(counters, subs[j].start) < subs[j].data.loop
    ensures SubRepeat(subs, cur, counters) == Repeat(subs[j].start, counters[subs[j].start := CountOf(counters, subs[j].start) + 1])
  {
    if cur == subs[0].end {
      j := 0;
    } else {
      var k := SubRepeatRule(subs[1..], cur, counters);
      j := k + 1;
    }
  }

  /** A tick that keeps playing lands on an unlocked frame in range, and selects it. */
  lemma TickLandsOnUnlockedFrame(kf: KeyMap, sorted: seq<int>, frameCount: nat, c: Cursor)
    requires ListsKeys(sorted, kf)
    ensures var r := Tick(kf, sorted, frameCount, c);
      r.playing ==> 0 <= r.current < frameCount && Unlocked(kf, sorted, frameCount, r.current) && r.selected == Some(r.current)
  {
    if c.playing && frameCount > 0 {
      var m := Wrapped(kf, sorted, frameCount, Proposed(kf, sorted, frameCount, c));
      FirstFromFound(f => Unlocked(kf, sorted, frameCount, f), frameCount, m.next, 0);
    }
  }

  /** The frame a tick proposes is never negative, and only the counters change. */
  lemma ProposedInRange(kf: KeyMap, sorted: seq<int>, frameCount: nat, c: Cursor)
    requires ListsKeys(sorted, kf) && KeysInFrames(kf, frameCount)
    requires 0 <= c.current && (c.inLoop ==> 0 <= c.returnPoint)
    ensures var m := Proposed(kf, sorted, frameCount, c);
      0 <= m.next && m.cursor == c.(counters := m.cursor.counters)
  {
    var ctx := ContextAt(kf, sorted, frameCount, c.current);
    if ctx.Segment? && SubRepeat(ctx.subs, c.current, c.counters).Repeat? {
      var j := SubRepeatRule(ctx.subs, c.current, c.counters);
      SegmentWithinFrames(kf, sorted, frameCount, c.current);
      RepeatProposed(kf, sorted, frameCount, c, j);
    }
  }

  /**
   * While playing, a tick stops exactly when every frame is locked (with
   * keyframes on frames of the animation and the cursor on one of them).
   */
  lemma TickStopsOnlyWhenAllLocked(kf: KeyMap, sorted: seq<int>, frameCount: nat, c: Cursor)
    requires ListsKeys(sorted, kf) && KeysInFrames(kf, frameCount)
    requires c.playing && 0 <= c.current < frameCount && (c.inLoop ==> 0 <= c.returnPoint)
    ensures !Tick(kf, sorted, frameCount, c).playing <==> forall f :: 0 <= f < frameCount ==> !Unlocked(kf, sorted, frameCount, f)
  {
    var p := Proposed(kf, sorted, frameCount, c);
    ProposedInRange(kf, sorted, frameCount, c);
    var m := Wrapped(kf, sorted, frameCount, p);
    assert 0 <= m.next;
    NextUnlockedInFrames(kf, sorted, frameCount, m.next);
  }

  /** An unlocked frame in range is the first candidate examined from itself. */
  lemma NextUnlockedAtStart(kf: KeyMap, sorted: seq<int>, frameCount: nat, start: int)
    requires ListsKeys(sorted, kf) && 0 <= start < frameCount && Unlocked(kf, sorted, frameCount, start)
    ensures NextUnlocked(kf, sorted, frameCount, start) == start
  {
  }

  /**
   * Playback that loops over a segment: playing, in the segment loop, on an
   * unlocked frame whose segment is the loop's `[returnPoint, endPoint]`.
   */
  ghost predicate LoopingIn(kf: KeyMap, sorted: seq<int>, frameCount: nat, c: Cursor)
    requires ListsKeys(sorted, kf)
  {
    && c.playing && c.inLoop && 0 <= c.current < frameCount
    && Unlocked(kf, sorted, frameCount, c.current)
    && var ctx := ContextAt(kf, sorted, frameCount, c.current);
       ctx.Segment? && ctx.start == c.returnPoint && ctx.end == c.endPoint
  }

  /** The frame a tick proposes inside a looped segment stays inside it. */
  lemma ProposedInSegment(kf: KeyMap, sorted: seq<int>, frameCount: nat, c: Cursor)
    requires ListsKeys(sorted, kf) && KeysInFrames(kf, frameCount) && LoopingIn(kf, sorted, frameCount, c)
    ensures var m := Proposed(kf, sorted, frameCount, c);
      && c.returnPoint <= m.next <= c.endPoint < frameCount
      && m.cursor == c.(counters := m.cursor.counters)
  {
    var ctx := ContextAt(kf, sorted, frameCount, c.current);
    SegmentWithinFrames(kf, sorted, frameCount, c.current);
    if SubRepeat(ctx.subs, c.current, c.counters).Repeat? {
      var j := SubRepeatRule(ctx.subs, c.current, c.counters);
      RepeatProposed(kf, sorted, frameCount, c, j);
    }
  }

  /**
   * Segment-loop mode never leaves its segment: from a looped segment, a
   * tick moves to a frame of the same segment, keeps the loop bounds and
   * keeps looping; at the loop's end, unless a sub-motion repeats, it
   * returns to the loop's start with the counters cleared.
   */
  lemma SegmentLoopIsClosed(kf: KeyMap, sorted: seq<int>, frameCount: nat, c: Cursor)
    requires ListsKeys(sorted, kf) && KeysInFrames(kf, frameCount) && LoopingIn(kf, sorted, frameCount, c)
    ensures var r := Tick(kf, sorted, frameCount, c);
      && LoopingIn(kf, sorted, frameCount, r)
      && r.returnPoint == c.returnPoint && r.endPoint == c.endPoint
      && c.returnPoint <= r.current <= c.endPoint
      && ContextAt(kf, sorted, frameCount, r.current) == ContextAt(kf, sorted, frameCount, c.current)
    ensures var ctx := ContextAt(kf, sorted, frameCount, c.current);
      c.current == c.endPoint && SubRepeat(ctx.subs, c.current, c.counters).NoRepeat? ==>
        Tick(kf, sorted, frameCount, c).current == c.returnPoint && Tick(kf, sorted, frameCount, c).counters == map[]
  {
    var ctx := ContextAt(kf, sorted, frameCount, c.current);
    var m := Proposed(kf, sorted, frameCount, c);
    ProposedInSegment(kf, sorted, frameCount, c);
    SegmentConstant(kf, sorted, frameCount, c.current, m.next);
    NextUnlockedAtStart(kf, sorted, frameCount, m.next);
  }

  /** The `loop` value of the first sub-motion starting at `s`, or 0. */
  function SubLoopOf(subs: seq<SubMotion>, s: int): int
  {
    if subs == [] then 0
    else if subs[0].start == s then subs[0].data.loop
    else SubLoopOf(subs[1..], s)
  }

  lemma {:induction false} SubLoopOfStrict(subs: seq<SubMotion>, j: nat)
    requires j < |subs|
    requires forall a, b :: 0 <= a < b < |subs| ==> subs[a].start < subs[b].start
    ensures SubLoopOf(subs, subs[j].start) == subs[j].data.loop
  {
    if j > 0 {
      assert subs[0].start < subs[j].start;
      assert subs[1..][j - 1] == subs[j];
      SubLoopOfStrict(subs[1..], j - 1);
    }
  }

  /** How often the sub-motion starting at frame `s` may repeat. */
  ghost function LoopTarget(kf: KeyMap, sorted: seq<int>, frameCount: nat, s: int): int
    requires ListsKeys(sorted, kf)
  {
    var ctx := ContextAt(kf, sorted, frameCount, s);
    if ctx.Segment? then SubLoopOf(ctx.subs, s) else 0
  }

  /** Every repeat counter lies between 0 and its sub-motion's `loop` value. */
  ghost predicate CountersBounded(kf: KeyMap, sorted: seq<int>, frameCount: nat, counters: map<int, int>)
    requires ListsKeys(sorted, kf)
  {
    forall s :: s in counters ==> 0 <= counters[s] <= LoopTarget(kf, sorted, frameCount, s)
  }

  /** A repeat raises one counter by one, up to its sub-motion's `loop` value. */
  lemma RepeatKeepsCountersBounded(kf: KeyMap, sorted: seq<int>, frameCount: nat, c: Cursor)
    requires ListsKeys(sorted, kf) && 0 <= c.current
    requires CountersBounded(kf, sorted, frameCount, c.counters)
    ensures CountersBounded(kf, sorted, frameCount, Proposed(kf, sorted, frameCount, c).cursor.counters)
  {
    var ctx := ContextAt(kf, sorted, frameCount, c.current);
    var m := Proposed(kf, sorted, frameCount, c);
    if ctx.Segment? && SubRepeat(ctx.subs, c.current, c.counters).Repeat? {
      var j := SubRepeatRule(ctx.subs, c.current, c.counters);
      RepeatProposed(kf, sorted, frameCount, c, j);
      BumpKeepsBounded(kf, sorted, frameCount, c.counters, ctx.subs[j].start);
    } else {
      assert m.cursor.counters == c.counters || m.cursor.counters == map[];
    }
  }

  /** Counting one more repeat of a sub-motion below its `loop` value keeps every counter in bounds. */
  lemma BumpKeepsBounded(kf: KeyMap, sorted: seq<int>, frameCount: nat, counters: map<int, int>, s: int)
    requires ListsKeys(sorted, kf) && CountersBounded(kf, sorted, frameCount, counters)
    requires CountOf(counters, s) < LoopTarget(kf, sorted, frameCount, s)
    ensures CountersBounded(kf, sorted, frameCount, counters[s := CountOf(counters, s) + 1])
  {
  }

  /**
   * A sub-motion is repeated at most `loop` times before its counter is
   * cleared: ticks keep every counter within its sub-motion's `loop` value.
   */
  lemma TickKeepsCountersBounded(kf: KeyMap, sorted: seq<int>, frameCount: nat, c: Cursor)
    requires ListsKeys(sorted, kf) && (c.playing ==> 0 <= c.current)
    requires CountersBounded(kf, sorted, frameCount, c.counters)
    ensures CountersBounded(kf, sorted, frameCount, Tick(kf, sorted, frameCount, c).counters)
  {
    TickCounters(kf, sorted, frameCount, c);
    if Tick(kf, sorted, frameCount, c).counters != map[] {
      RepeatKeepsCountersBounded(kf, sorted, frameCount, c);
    }
  }

  /** A tick either clears the counters or keeps those of the proposed move. */
  lemma TickCounters(kf: KeyMap, sorted: seq<int>, frameCount: nat, c: Cursor)
    requires ListsKeys(sorted, kf)
    ensures var r := Tick(kf, sorted, frameCount, c);
      r.counters == map[] || (c.playing && frameCount > 0 && r.counters == Proposed(kf, sorted, frameCount, c).cursor.counters)
  {
  }

  /** With sub-motion ends strictly increasing, the one ending at `cur` is the one the scan finds. */
  lemma {:induction false} SubRepeatAt(subs: seq<SubMotion>, cur: int, counters: map<int, int>, j: nat)
    requires j < |subs| && subs[j].end == cur
    requires forall a, b :: 0 <= a < b < |subs| ==> subs[a].end < subs[b].end
    requires CountOf(counters, subs[j].start) < subs[j].data.loop
    ensures SubRepeat(subs, cur, counters) == Repeat(subs[j].start, counters[subs[j].start := CountOf(counters, subs[j].start) + 1])
  {
    if j > 0 {
      assert subs[0].end < subs[j].end;
      assert subs[1..][j - 1] == subs[j];
      SubRepeatAt(subs[1..], cur, counters, j - 1);
    }
  }

  /**
   * At the end of sub-motion `j` of the current segment, with its counter
   * below its `loop` value, the tick proposes the sub-motion's start, a
   * frame of the same segment, and counts the repeat.
   */
  lemma RepeatProposed(kf: KeyMap, sorted: seq<int>, frameCount: nat, c: Cursor, j: nat)
    requires ListsKeys(sorted, kf) && 0 <= c.current
    requires ContextAt(kf, sorted, frameCount, c.current).Segment?
    requires j < |ContextAt(kf, sorted, frameCount, c.current).subs|
    requires ContextAt(kf, sorted, frameCount, c.current).subs[j].end == c.current
    requires var sub := ContextAt(kf, sorted, frameCount, c.current).subs[j];
      CountOf(c.counters, sub.start) < sub.data.loop
    ensures var ctx := ContextAt(kf, sorted, frameCount, c.current);
      var s := ctx.subs[j].start;
      && Proposed(kf, sorted, frameCount, c) == Move(s, c.(counters := c.counters[s := CountOf(c.counters, s) + 1]))
      && ctx.start <= s <= c.current
      && ContextAt(kf, sorted, frameCount, s) == ctx
      && LoopTarget(kf, sorted, frameCount, s) == ctx.subs[j].data.loop
  {
    var ctx := ContextAt(kf, sorted, frameCount, c.current);
    SubMotionsTile(kf, sorted, frameCount, c.current);
    TilesBounds(ctx.subs, ctx.start, ctx.end);
    forall a, b | 0 <= a < b < |ctx.subs| ensures ctx.subs[a].end < ctx.subs[b].end {
      TilesOrdered(ctx.subs, ctx.start, ctx.end, a, b);
    }
    SubRepeatAt(ctx.subs, c.current, c.counters, j);
    var s := ctx.subs[j].start;
    SegmentConstant(kf, sorted, frameCount, c.current, s);
    SubLoopOfStrict(ctx.subs, j);
  }

  /**
   * At the end of a sub-motion whose counter is below its `loop` value, a
   * tick jumps back to the sub-motion's start and counts the repeat.
   */
  lemma TickRepeatsSubMotion(kf: KeyMap, sorted: seq<int>, frameCount: nat, c: Cursor, j: nat)
    requires ListsKeys(sorted, kf) && KeysInFrames(kf, frameCount)
    requires c.playing && 0 <= c.current < frameCount && Unlocked(kf, sorted, frameCount, c.current)
    requires ContextAt(kf, sorted, frameCount, c.current).Segment?
    requires j < |ContextAt(kf, sorted, frameCount, c.current).subs|
    requires ContextAt(kf, sorted, frameCount, c.current).subs[j].end == c.current
    requires var sub := ContextAt(kf, sorted, frameCount, c.current).subs[j];
      CountOf(c.counters, sub.start) < sub.data.loop
    ensures var sub := ContextAt(kf, sorted, frameCount, c.current).subs[j];
      var r := Tick(kf, sorted, frameCount, c);
      && r.playing && r.current == sub.start
      && r.counters == c.counters[sub.start := CountOf(c.counters, sub.start) + 1]
      && r.inLoop == c.inLoop && r.returnPoint == c.returnPoint && r.endPoint == c.endPoint
  {
    var ctx := ContextAt(kf, sorted, frameCount, c.current);
    var s := ctx.subs[j].start;
    RepeatProposed(kf, sorted, frameCount, c, j);
    var m := Proposed(kf, sorted, frameCount, c);
    assert Wrapped(kf, sorted, frameCount, m) == m;
    assert Unlocked(kf, sorted, frameCount, s);
    NextUnlockedAtStart(kf, sorted, frameCount, s);
    assert Tick(kf, sorted, frameCount, c) == Resume(frameCount, m.cursor, s);
  }

  /**
   * Where nothing repeats and no segment loop ends, a tick steps to the
   * next frame when that frame is unlocked.
   */
  lemma TickStepsForward(kf: KeyMap, sorted: seq<int>, frameCount: nat, c: Cursor)
    requires ListsKeys(sorted, kf)
    requires c.playing && 0 <= c.current && c.current + 1 < frameCount
    requires var ctx := ContextAt(kf, sorted, frameCount, c.current);
      ctx.NoContext? || (SubRepeat(ctx.subs, c.current, c.counters).NoRepeat? && !(c.inLoop && c.current == c.endPoint))
    requires Unlocked(kf, sorted, frameCount, c.current + 1)
    ensures Tick(kf, sorted, frameCount, c).playing && Tick(kf, sorted, frameCount, c).current == c.current + 1
  {
    var m := Proposed(kf, sorted, frameCount, c);
    assert m == Move(c.current + 1, c);
    assert Wrapped(kf, sorted, frameCount, m) == m;
    NextUnlockedAtStart(kf, sorted, frameCount, c.current + 1);
  }

  /**
   * Stepping past the last frame outside a segment loop restarts playback at
   * the first unlocked frame, or stops it when every frame is locked.
   */
  lemma TickWrapsToFirstUnlocked(kf: KeyMap, sorted: seq<int>, frameCount: nat, c: Cursor)
    requires ListsKeys(sorted, kf)
    requires c.playing && !c.inLoop && c.current == frameCount - 1
    requires var ctx := ContextAt(kf, sorted, frameCount, c.current);
      ctx.NoContext? || SubRepeat(ctx.subs, c.current, c.counters).NoRepeat?
    ensures var r := Tick(kf, sorted, frameCount, c);
      && (r.playing <==> exists f :: 0 <= f < frameCount && Unlocked(kf, sorted, frameCount, f))
      && (r.playing ==> Unlocked(kf, sorted, frameCount, r.current) && forall f :: 0 <= f < r.current ==> !Unlocked(kf, sorted, frameCount, f))
  {
    NextUnlockedInFrames(kf, sorted, frameCount, 0);
  }

  /** The first and last elements of an increasing list are its least and greatest. */
  lemma IncreasingEnds(keys: seq<int>)
    requires Increasing(keys) && keys != []
    ensures forall k :: k in keys ==> keys[0] <= k <= keys[|keys| - 1]
  {
    forall k | k in keys ensures keys[0] <= k <= keys[|keys| - 1] {
      var n :| 0 <= n < |keys| && keys[n] == k;
      if 0 < n { assert keys[0] < keys[n]; }
      if n < |keys| - 1 { assert keys[n] < keys[|keys| - 1]; }
    }
  }

  /** The cyclic successor: the least element above `cur`, else the least element. */
  lemma CyclicNextRule(keys: seq<int>, cur: int)
    requires Increasing(keys) && keys != []
    ensures var t := CyclicNext(keys, cur);
      && t in keys
      && if exists k :: k in keys && cur < k then
           cur < t && forall k :: k in keys && cur < k ==> t <= k
         else forall k :: k in keys ==> t <= k
  {
    IncreasingEnds(keys);
    var at := BisectRight(keys, cur);
    if at < |keys| { assert keys[at] in keys; }
    forall k | k in keys && cur < k ensures at < |keys| && keys[at] <= k {
      var n :| 0 <= n < |keys| && keys[n] == k;
      if at < n { assert keys[at] < keys[n]; }
    }
  }

  /** The cyclic predecessor: the greatest element below `cur`, else the greatest element. */
  lemma CyclicPrevRule(keys: seq<int>, cur: int)
    requires Increasing(keys) && keys != []
    ensures var t := CyclicPrev(keys, cur);
      && t in keys
      && if exists k :: k in keys && k < cur then
           t < cur && forall k :: k in keys && k < cur ==> k <= t
         else forall k :: k in keys ==> k <= t
  {
    IncreasingEnds(keys);
    var at := BisectLeft(keys, cur);
    if at > 0 { assert keys[at - 1] in keys; }
    forall k | k in keys && k < cur ensures at > 0 && k <= keys[at - 1] {
      var n :| 0 <= n < |keys| && keys[n] == k;
      if n < at - 1 { assert keys[n] < keys[at - 1]; }
    }
  }

  /**
   * `_navigate_keyframe`: none exactly when every key is locked; forward,
   * the least unlocked key after the selection (or the least unlocked key
   * when there is none after it); backward, the greatest unlocked key before
   * the selection (or the greatest unlocked key).
   */
  lemma NavTargetRule(kf: KeyMap, sorted: seq<int>, frameCount: nat, selected: Option, direction: int)
    requires ListsKeys(sorted, kf)
    ensures var keys := UnlockedKeys(kf, sorted, frameCount);
      var t := NavTarget(kf, sorted, frameCount, selected, direction);
      var cur := if selected.Some? then selected.value else 0;
      && (t.None? <==> keys == [])
      && (t.Some? ==> t.value in keys)
      && (t.Some? && direction == 1 ==>
            if exists k :: k in keys && cur < k then
              cur < t.value && forall k :: k in keys && cur < k ==> t.value <= k
            else forall k :: k in keys ==> t.value <= k)
      && (t.Some? && direction != 1 ==>
            if exists k :: k in keys && k < cur then
              t.value < cur && forall k :: k in keys && k < cur ==> k <= t.value
            else forall k :: k in keys ==> k <= t.value)
  {
    var keys := UnlockedKeys(kf, sorted, frameCount);
    var cur := if selected.Some? then selected.value else 0;
    if keys != [] {
      if direction == 1 {
        CyclicNextRule(keys, cur);
      } else {
        CyclicPrevRule(keys, cur);
      }
    }
  }
}
