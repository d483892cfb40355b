/**
 * Keyframe segmentation of the newest revision
 * (v0.62.36_strippedBuild_GIF_v039.py): keyframe records, the
 * classification of "true start" keys, and the context (segment and
 * sub-motions) that a frame belongs to.
 */
module Keyframes {
  import opened SortedKeys

  /** Keyframe type codes as stored in the project file. */
  const START: int := 1
  const MIDDLE: int := 2
  const END: int := 9

  /** One keyframe record `{name, type, loop, locked}`. */
  datatype Keyframe = Keyframe(name: string, kind: int, loop: int, locked: bool)

  /** `self.keyframes`: frame index to keyframe record. */
  type KeyMap = map<int, Keyframe>

  datatype SegmentKind = Simple | Complete | SimpleEnd

  /** A sub-motion `{start, end, data}` inside a segment. */
  datatype SubMotion = SubMotion(start: int, end: int, data: Keyframe)

  /**
   * The dictionary returned by `_get_keyframe_context_for_frame`: either the
   * "none" default, or a segment with its kind, bounds, anchor record and
   * sub-motions.
   */
  datatype Context =
    | NoContext
    | Segment(kind: SegmentKind, start: int, end: int, data: Keyframe, subs: seq<SubMotion>)

  /** The value of `context.get("start")`: absent for the "none" context. */
  function StartOf(c: Context): (s: Option)
    ensures s.Some? <==> c.Segment?
  {
    if c.Segment? then Some(c.start) else None
  }

  datatype Option = None | Some(value: int)

  /** `sorted` is `sorted(kf.keys())`. */
  ghost predicate ListsKeys(sorted: seq<int>, kf: KeyMap)
  {
    && Increasing(sorted) && |sorted| == |kf|
    && (forall k :: k in sorted <==> k in kf)
    && (forall n :: 0 <= n < |sorted| ==> sorted[n] in kf)
  }

  lemma SortedListsKeys(kf: KeyMap)
    ensures ListsKeys(Sorted(kf.Keys), kf)
  {
    var sorted := Sorted(kf.Keys);
    forall n | 0 <= n < |sorted| ensures sorted[n] in kf {
      assert sorted[n] in sorted;
    }
  }

  /** Whether some key of `keys` lies strictly between `lo` and `hi` and has type End. */
  function EndBetween(kf: KeyMap, keys: seq<int>, lo: int, hi: int): bool
    requires forall k :: k in keys ==> k in kf
  {
    exists k :: k in keys && lo < k < hi && kf[k].kind == END
  }

  /**
   * `_is_sub_motion`: a Middle key whose preceding key (in sorted order) is a
   * Start or Middle key, with no End key strictly between the two.
   */
  function IsSubMotion(kf: KeyMap, sorted: seq<int>, key: int): bool
    requires ListsKeys(sorted, kf)
  {
    if key !in kf || kf[key].kind != MIDDLE then false
    else
      var at := BisectLeft(sorted, key);
      if at == 0 then false
      else
        var prev := sorted[at - 1];
        if kf[prev].kind == START || kf[prev].kind == MIDDLE then
          !EndBetween(kf, sorted, prev, key)
        else false
  }

  /**
   * A key that opens a new segment: a Start key, a locked key that is not an
   * End key, or a Middle key that is not a sub-motion.
   */
  function IsTrueStart(kf: KeyMap, sorted: seq<int>, key: int): bool
    requires ListsKeys(sorted, kf)
    requires key in kf
  {
    var v := kf[key];
    v.kind == START || (v.locked && v.kind != END)
    || (v.kind == MIDDLE && !IsSubMotion(kf, sorted, key))
  }

  /** `true_start_keys`, in increasing order. */
  function TrueStarts(kf: KeyMap, sorted: seq<int>): (r: seq<int>)
    requires ListsKeys(sorted, kf)
    ensures Increasing(r)
    ensures forall k :: k in r <==> k in kf && IsTrueStart(kf, sorted, k)
  {
    Filter(sorted, k => k in kf && IsTrueStart(kf, sorted, k))
  }

  /** The terminator of a segment found by the forward scan. */
  datatype Terminator = Terminator(end: int, kind: SegmentKind)

  /**
   * The forward scan over the keys of `rest` that follow `start`: the next
   * true start ends the segment just before it, an End key ends it on
   * itself, and otherwise it runs to the last frame.
   */
  function ScanEnd(kf: KeyMap, sorted: seq<int>, rest: seq<int>, start: int, frameCount: nat): Terminator
    requires ListsKeys(sorted, kf)
    requires forall k :: k in rest ==> k in kf
  {
    if rest == [] then Terminator(frameCount - 1, Simple)
    else
      var key := rest[0];
      if key > start && IsTrueStart(kf, sorted, key) then Terminator(key - 1, Simple)
      else if key > start && kf[key].kind == END then Terminator(key, Complete)
      else ScanEnd(kf, sorted, rest[1..], start, frameCount)
  }

  /** `sub_motion_keys`: the non-End keys within `[start, end]`, increasing. */
  function SubMotionKeys(kf: KeyMap, sorted: seq<int>, start: int, end: int): (r: seq<int>)
    requires ListsKeys(sorted, kf)
    ensures Increasing(r)
    ensures forall k :: k in r <==> k in kf && start <= k <= end && kf[k].kind != END
  {
    Filter(sorted, k => k in kf && start <= k <= end && kf[k].kind != END)
  }

  /** The `j`-th sub-motion: from its key to one before the next key, or to `end`. */
  function SubMotionAt(kf: KeyMap, keys: seq<int>, end: int, j: nat): SubMotion
    requires forall n :: 0 <= n < |keys| ==> keys[n] in kf
    requires j < |keys|
  {
    SubMotion(keys[j], if j + 1 < |keys| then keys[j + 1] - 1 else end, kf[keys[j]])
  }

  function SubMotions(kf: KeyMap, keys: seq<int>, end: int): (r: seq<SubMotion>)
    requires forall n :: 0 <= n < |keys| ==> keys[n] in kf
    ensures |r| == |keys|
  {
    seq(|keys|, j requires 0 <= j < |keys| => SubMotionAt(kf, keys, end, j))
  }

  /** Whether the smallest key is an End key that nothing before it overrides. */
  function SimpleEndApplies(kf: KeyMap, sorted: seq<int>): bool
    requires ListsKeys(sorted, kf) && sorted != []
  {
    var first := sorted[0];
    kf[first].kind == END
    && !(exists k :: k in sorted && k < first && (kf[k].kind == START || kf[k].kind == MIDDLE))
    && !(exists k :: k in sorted && k < first && kf[k].locked && kf[k].kind != END)
  }

  /** The "simple_end" context: the whole range `[0, first]` as one segment. */
  function SimpleEndContext(kf: KeyMap, first: int): Context
    requires first in kf
  {
    Segment(SimpleEnd, 0, first, kf[first], [SubMotion(0, first, kf[first])])
  }

  /**
   * `_get_keyframe_context_for_frame` for a frame index `i`, given the sorted
   * key list (the `None` frame is handled by the method below). `frameCount`
   * is the number of decoded frames; with no frames or no keyframes there is
   * no context.
   */
  function ContextAt(kf: KeyMap, sorted: seq<int>, frameCount: nat, i: int): (c: Context)
    requires ListsKeys(sorted, kf)
    ensures |kf| == 0 || frameCount == 0 ==> c == NoContext
    ensures c.Segment? ==> i <= c.end && (c.start <= i || (c.kind == SimpleEnd && i < 0))
  {
    if |kf| == 0 || frameCount == 0 then NoContext
    else if SimpleEndApplies(kf, sorted) && i <= sorted[0] then SimpleEndContext(kf, sorted[0])
    else
      var starts := TrueStarts(kf, sorted);
      var at := BisectRight(starts, i);
      if at == 0 then NoContext else SegmentFrom(kf, sorted, frameCount, starts[at - 1], i)
  }

  /** The segment the true start `start` opens, when it reaches frame `i`. */
  function SegmentFrom(kf: KeyMap, sorted: seq<int>, frameCount: nat, start: int, i: int): (c: Context)
    requires ListsKeys(sorted, kf) && start in kf
    ensures c.Segment? ==> c.start == start && start <= i <= c.end
  {
    var t := ScanEnd(kf, sorted, sorted, start, frameCount);
    if start <= i <= t.end then
      Segment(t.kind, start, t.end, kf[start], SubMotions(kf, SubMotionKeys(kf, sorted, start, t.end), t.end))
    else NoContext
  }

  /** Whether frame `i` lies in a segment whose anchor record is locked. */
  predicate IsLockedFrame(kf: KeyMap, sorted: seq<int>, frameCount: nat, i: int)
    requires ListsKeys(sorted, kf)
  {
    var c := ContextAt(kf, sorted, frameCount, i);
    c.Segment? && c.data.locked
  }

  /**
   * `_get_keyframe_context_for_frame` as written: the two forward loops (the
   * terminator scan and the construction of the sub-motion list) run over
   * the sorted keys.
   */
  method KeyframeContext(kf: KeyMap, frameCount: nat, frame: Option) returns (c: Context)
    ensures frame.None? ==> c == NoContext
    ensures frame.Some? ==> c == ContextAt(kf, Sorted(kf.Keys), frameCount, frame.value)
  {
    if frame.None? {
      return NoContext;
    }
    var sorted := Sorted(kf.Keys);
    c := ContextForFrame(kf, sorted, frameCount, frame.value);
  }

  /** `_get_keyframe_context_for_frame` once `sorted_keys` is computed. */
  method ContextForFrame(kf: KeyMap, sorted: seq<int>, frameCount: nat, i: int) returns (c: Context)
    requires ListsKeys(sorted, kf)
    ensures c == ContextAt(kf, sorted, frameCount, i)
  {
    if |kf| == 0 || frameCount == 0 {
      return NoContext;
    }
    if SimpleEndApplies(kf, sorted) && i <= sorted[0] {
      return SimpleEndContext(kf, sorted[0]);
    }
    var starts := TrueStarts(kf, sorted);
    if starts == [] {
      return NoContext;
    }
    var at := BisectRight(starts, i);
    if at == 0 {
      return NoContext;
    }
    c := SegmentOfStart(kf, sorted, frameCount, starts[at - 1], i);
  }

  /** The rest of `_get_keyframe_context_for_frame` once the segment's start is known. */
  method SegmentOfStart(kf: KeyMap, sorted: seq<int>, frameCount: nat, start: int, i: int) returns (c: Context)
    requires ListsKeys(sorted, kf) && start in kf
    ensures c == SegmentFrom(kf, sorted, frameCount, start, i)
  {
    var term := ScanTerminator(kf, sorted, start, frameCount);
    if !(start <= i <= term.end) {
      return NoContext;
    }
    var subs := BuildSubMotions(kf, SubMotionKeys(kf, sorted, start, term.end), term.end);
    c := Segment(term.kind, start, term.end, kf[start], subs);
  }

  /** The terminator scan of `_get_keyframe_context_for_frame`. */
  method ScanTerminator(kf: KeyMap, sorted: seq<int>, start: int, frameCount: nat) returns (t: Terminator)
    requires ListsKeys(sorted, kf)
    ensures t == ScanEnd(kf, sorted, sorted, start, frameCount)
  {
    var end := frameCount - 1;
    var kind := Simple;
    var n := 0;
    while n < |sorted|
      invariant 0 <= n <= |sorted|
      invariant ScanEnd(kf, sorted, sorted[n..], start, frameCount) == ScanEnd(kf, sorted, sorted, start, frameCount)
    {
      var key := sorted[n];
      if key > start {
        if IsTrueStart(kf, sorted, key) {
          end := key - 1;
          break;
        }
        if kf[key].kind == END {
          end := key;
          kind := Complete;
          break;
        }
      }
      n := n + 1;
    }
    t := Terminator(end, kind);
  }

  /** The loop that lists one sub-motion per key of `keys`. */
  method BuildSubMotions(kf: KeyMap, keys: seq<int>, end: int) returns (subs: seq<SubMotion>)
    requires forall n :: 0 <= n < |keys| ==> keys[n] in kf
    ensures subs == SubMotions(kf, keys, end)
  {
    subs := [];
    var j := 0;
    while j < |keys|
      invariant 0 <= j <= |keys|
      invariant subs == SubMotions(kf, keys, end)[..j]
    {
      var subEnd := end;
      if j + 1 < |keys| {
        subEnd := keys[j + 1] - 1;
      }
      subs := subs + [SubMotion(keys[j], subEnd, kf[keys[j]])];
      j := j + 1;
    }
  }
}
