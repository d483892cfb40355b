/**
 * What `_get_keyframe_context_for_frame` and `_is_sub_motion` promise,
 * stated over the keyframe map itself. `sorted` is always the map's sorted
 * key list (`ListsKeys`), which determines it uniquely.
 */
module SegmentLemmas {
  import opened SortedKeys
  import opened Keyframes

  /** `p` is the key immediately before `k`: no key lies strictly between. */
  ghost predicate Precedes(kf: KeyMap, p: int, k: int)
  {
    p in kf && p < k && forall q :: q in kf ==> q <= p || k <= q
  }

  /** Whether `kf` has a Start or Middle key immediately before `k`. */
  ghost predicate FollowsStartOrMiddle(kf: KeyMap, k: int)
  {
    exists p :: Precedes(kf, p, k) && (kf[p].kind == START || kf[p].kind == MIDDLE)
  }

  /** A key that neither opens a new segment nor closes one. */
  ghost predicate Quiet(kf: KeyMap, sorted: seq<int>, key: int)
    requires ListsKeys(sorted, kf) && key in kf
  {
    !IsTrueStart(kf, sorted, key) && kf[key].kind != END
  }

  lemma PrecedesUnique(kf: KeyMap, p: int, q: int, k: int)
    requires Precedes(kf, p, k) && Precedes(kf, q, k)
    ensures p == q
  {
  }

  lemma FirstIsLeast(kf: KeyMap, sorted: seq<int>, p: int)
    requires ListsKeys(sorted, kf) && p in kf
    ensures sorted[0] <= p
  {
    var m :| 0 <= m < |sorted| && sorted[m] == p;
  }

  lemma {:induction false} BisectLeftAt(sorted: seq<int>, n: nat)
    requires Increasing(sorted) && n < |sorted|
    ensures BisectLeft(sorted, sorted[n]) == n
  {
    if n > 0 {
      assert sorted[1..][n - 1] == sorted[n];
      BisectLeftAt(sorted[1..], n - 1);
    }
  }

  /** In a sorted key list, the element before position `at` is the key immediately before. */
  lemma PredecessorInSorted(kf: KeyMap, sorted: seq<int>, at: nat)
    requires ListsKeys(sorted, kf) && 0 < at < |sorted|
    ensures Precedes(kf, sorted[at - 1], sorted[at])
  {
    var p, k := sorted[at - 1], sorted[at];
    forall q | q in kf ensures q <= p || k <= q {
      var n :| 0 <= n < |sorted| && sorted[n] == q;
      if n < at - 1 { assert sorted[n] < sorted[at - 1]; }
      else if n > at { assert sorted[at] < sorted[n]; }
    }
  }

  /**
   * The "End strictly between" test of `_is_sub_motion` never fires: two
   * neighbours of the sorted key list have no key between them.
   */
  lemma NoEndBetweenNeighbours(kf: KeyMap, sorted: seq<int>, at: nat)
    requires ListsKeys(sorted, kf) && 0 < at < |sorted|
    ensures !EndBetween(kf, sorted, sorted[at - 1], sorted[at])
  {
    PredecessorInSorted(kf, sorted, at);
  }

  lemma SubMotionAtNeighbour(kf: KeyMap, sorted: seq<int>, n: nat)
    requires ListsKeys(sorted, kf) && 0 < n < |sorted|
    ensures IsSubMotion(kf, sorted, sorted[n]) <==>
      kf[sorted[n]].kind == MIDDLE && (kf[sorted[n - 1]].kind == START || kf[sorted[n - 1]].kind == MIDDLE)
  {
    BisectLeftAt(sorted, n);
    NoEndBetweenNeighbours(kf, sorted, n);
  }

  /**
   * `_is_sub_motion`: a key is a sub-motion exactly when it is a Middle key
   * whose immediately preceding key is a Start or Middle key.
   */
  lemma SubMotionRule(kf: KeyMap, sorted: seq<int>, key: int)
    requires ListsKeys(sorted, kf) && key in kf
    ensures IsSubMotion(kf, sorted, key) <==> kf[key].kind == MIDDLE && FollowsStartOrMiddle(kf, key)
  {
    var n :| 0 <= n < |sorted| && sorted[n] == key;
    if n > 0 {
      SubMotionAtNeighbour(kf, sorted, n);
      PredecessorInSorted(kf, sorted, n);
      forall p | Precedes(kf, p, key) ensures p == sorted[n - 1] {
        PrecedesUnique(kf, p, sorted[n - 1], key);
      }
    } else {
      BisectLeftAt(sorted, 0);
      forall p | p in kf ensures key <= p {
        FirstIsLeast(kf, sorted, p);
      }
    }
  }

  /**
   * The "true start" rule: a Start key, a locked non-End key, or a Middle key
   * that does not directly follow a Start or Middle key.
   */
  lemma TrueStartRule(kf: KeyMap, sorted: seq<int>, key: int)
    requires ListsKeys(sorted, kf) && key in kf
    ensures IsTrueStart(kf, sorted, key) <==>
      || kf[key].kind == START
      || (kf[key].locked && kf[key].kind != END)
      || (kf[key].kind == MIDDLE && !FollowsStartOrMiddle(kf, key))
  {
    SubMotionRule(kf, sorted, key);
  }

  /** What the terminator scan over an increasing run of keys finds. */
  lemma {:induction false} ScanEndRule(kf: KeyMap, sorted: seq<int>, rest: seq<int>, start: int, frameCount: nat)
    requires ListsKeys(sorted, kf)
    requires Increasing(rest) && forall k :: k in rest ==> k in kf
    ensures var t := ScanEnd(kf, sorted, rest, start, frameCount);
      && t.kind != SimpleEnd
      && (t.kind == Complete ==>
            && t.end in rest && start < t.end && kf[t.end].kind == END
            && forall k :: k in rest && start < k < t.end ==> Quiet(kf, sorted, k))
      && (t.kind == Simple ==>
            || (&& t.end + 1 in rest && start < t.end + 1 && IsTrueStart(kf, sorted, t.end + 1)
                && forall k :: k in rest && start < k <= t.end ==> Quiet(kf, sorted, k))
            || (&& t.end == frameCount - 1
                && forall k :: k in rest && start < k ==> Quiet(kf, sorted, k)))
  {
    if rest != [] {
      var key := rest[0];
      var tail := rest[1..];
      HeadAndTail(rest);
      if key > start && IsTrueStart(kf, sorted, key) {
        assert ScanEnd(kf, sorted, rest, start, frameCount) == Terminator(key - 1, Simple);
      } else if key > start && kf[key].kind == END {
        assert ScanEnd(kf, sorted, rest, start, frameCount) == Terminator(key, Complete);
      } else {
        assert ScanEnd(kf, sorted, rest, start, frameCount) == ScanEnd(kf, sorted, tail, start, frameCount);
        ScanEndRule(kf, sorted, tail, start, frameCount);
      }
    }
  }

  /** An increasing list is its head followed by an increasing tail of greater elements. */
  lemma HeadAndTail(rest: seq<int>)
    requires Increasing(rest) && rest != []
    ensures Increasing(rest[1..])
    ensures forall k :: k in rest ==> k == rest[0] || (k in rest[1..] && rest[0] < k)
  {
    forall k | k in rest ensures k == rest[0] || (k in rest[1..] && rest[0] < k) {
      var n :| 0 <= n < |rest| && rest[n] == k;
      if n > 0 { assert rest[1..][n - 1] == k; }
    }
  }

  /** The greatest true start at or below `i`, when there is one. */
  lemma GreatestTrueStart(kf: KeyMap, sorted: seq<int>, i: int)
    requires ListsKeys(sorted, kf)
    ensures var starts := TrueStarts(kf, sorted);
      var at := BisectRight(starts, i);
      && (at > 0 ==>
            && starts[at - 1] in kf && IsTrueStart(kf, sorted, starts[at - 1]) && starts[at - 1] <= i
            && forall k :: k in kf && starts[at - 1] < k <= i ==> !IsTrueStart(kf, sorted, k))
      && (at == 0 ==> forall k :: k in kf && k <= i ==> !IsTrueStart(kf, sorted, k))
  {
    var starts := TrueStarts(kf, sorted);
    var at := BisectRight(starts, i);
    BisectRightGreatest(starts, i);
    if at > 0 {
      assert starts[at - 1] in starts;
    }
  }

  /**
   * Outside the "simple_end" case, a frame's segment starts at the greatest
   * true start at or below it, and the anchor record is that key's record.
   */
  lemma SegmentStartRule(kf: KeyMap, sorted: seq<int>, frameCount: nat, i: int)
    requires ListsKeys(sorted, kf)
    requires ContextAt(kf, sorted, frameCount, i).Segment? && ContextAt(kf, sorted, frameCount, i).kind != SimpleEnd
    ensures var c := ContextAt(kf, sorted, frameCount, i);
      && c.start in kf && IsTrueStart(kf, sorted, c.start) && c.start <= i <= c.end
      && c.data == kf[c.start]
      && forall k :: k in kf && c.start < k <= i ==> !IsTrueStart(kf, sorted, k)
  {
    GreatestTrueStart(kf, sorted, i);
  }

  /**
   * A frame with no true start at or below it has no context, except in the
   * "simple_end" case (an End key is the smallest key and `i` is not above it).
   */
  lemma NoTrueStartNoContext(kf: KeyMap, sorted: seq<int>, frameCount: nat, i: int)
    requires ListsKeys(sorted, kf)
    requires forall k :: k in kf && k <= i ==> !IsTrueStart(kf, sorted, k)
    requires |kf| > 0 ==> kf[sorted[0]].kind != END || sorted[0] < i
    ensures ContextAt(kf, sorted, frameCount, i) == NoContext
  {
    GreatestTrueStart(kf, sorted, i);
  }

  /**
   * Where a segment from `start` ends: on the first End key after it, with
   * only quiet keys between (complete); just before the next true start,
   * or at the last frame, with only quiet keys before (simple).
   */
  ghost predicate EndsAsScanned(kf: KeyMap, sorted: seq<int>, frameCount: nat, start: int, end: int, kind: SegmentKind)
    requires ListsKeys(sorted, kf)
  {
    && (kind == Complete ==>
          && end in kf && start < end && kf[end].kind == END
          && forall k :: k in kf && start < k < end ==> Quiet(kf, sorted, k))
    && (kind == Simple ==>
          || (&& end + 1 in kf && start < end + 1 && IsTrueStart(kf, sorted, end + 1)
              && forall k :: k in kf && start < k <= end ==> Quiet(kf, sorted, k))
          || (&& end == frameCount - 1
              && forall k :: k in kf && start < k ==> Quiet(kf, sorted, k)))
  }

  /** The end of a segment: before the next true start, on the first End key, or at the last frame. */
  lemma SegmentEndRule(kf: KeyMap, sorted: seq<int>, frameCount: nat, i: int)
    requires ListsKeys(sorted, kf)
    requires ContextAt(kf, sorted, frameCount, i).Segment? && ContextAt(kf, sorted, frameCount, i).kind != SimpleEnd
    ensures var c := ContextAt(kf, sorted, frameCount, i);
      EndsAsScanned(kf, sorted, frameCount, c.start, c.end, c.kind)
  {
    var c := ContextAt(kf, sorted, frameCount, i);
    SegmentFromScan(kf, sorted, frameCount, i);
    ScanEndOverKeys(kf, sorted, c.start, frameCount);
  }

  /** `ScanEndRule` for the scan over all keys, stated over the keys of the map. */
  lemma ScanEndOverKeys(kf: KeyMap, sorted: seq<int>, start: int, frameCount: nat)
    requires ListsKeys(sorted, kf)
    ensures var t := ScanEnd(kf, sorted, sorted, start, frameCount);
      EndsAsScanned(kf, sorted, frameCount, start, t.end, t.kind)
  {
    ScanEndRule(kf, sorted, sorted, start, frameCount);
  }

  /** A segment opened by a true start ends where the terminator scan from its start says. */
  lemma SegmentFromScan(kf: KeyMap, sorted: seq<int>, frameCount: nat, i: int)
    requires ListsKeys(sorted, kf)
    requires ContextAt(kf, sorted, frameCount, i).Segment? && ContextAt(kf, sorted, frameCount, i).kind != SimpleEnd
    ensures var c := ContextAt(kf, sorted, frameCount, i);
      var t := ScanEnd(kf, sorted, sorted, c.start, frameCount);
      c.end == t.end && c.kind == t.kind
  {
  }

  /**
   * The two `any(k < first_key ...)` tests of the "simple_end" check look
   * for keys below the smallest key, so they never find one.
   */
  lemma SimpleEndTestsNeverFire(kf: KeyMap, sorted: seq<int>)
    requires ListsKeys(sorted, kf) && |kf| > 0
    ensures !(exists k :: k in sorted && k < sorted[0] && (kf[k].kind == START || kf[k].kind == MIDDLE))
    ensures !(exists k :: k in sorted && k < sorted[0] && kf[k].locked && kf[k].kind != END)
  {
    forall k | k in sorted ensures sorted[0] <= k {
      FirstIsLeast(kf, sorted, k);
    }
  }

  /** The smallest key being an End key makes `[0, smallest]` one "simple_end" segment. */
  lemma SimpleEndRule(kf: KeyMap, sorted: seq<int>, frameCount: nat, i: int)
    requires ListsKeys(sorted, kf) && |kf| > 0 && frameCount > 0
    requires kf[sorted[0]].kind == END && i <= sorted[0]
    ensures var first := sorted[0];
      ContextAt(kf, sorted, frameCount, i) == Segment(SimpleEnd, 0, first, kf[first], [SubMotion(0, first, kf[first])])
  {
    SimpleEndTestsNeverFire(kf, sorted);
  }

  /** A "simple_end" context only arises from an End key that is the smallest key. */
  lemma SimpleEndOnlyBelowFirstEnd(kf: KeyMap, sorted: seq<int>, frameCount: nat, i: int)
    requires ListsKeys(sorted, kf)
    requires ContextAt(kf, sorted, frameCount, i).Segment? && ContextAt(kf, sorted, frameCount, i).kind == SimpleEnd
    ensures |kf| > 0 && kf[sorted[0]].kind == END && i <= sorted[0]
    ensures ContextAt(kf, sorted, frameCount, i) == SimpleEndContext(kf, sorted[0])
  {
    var starts := TrueStarts(kf, sorted);
    var at := BisectRight(starts, i);
    if at > 0 {
      ScanEndRule(kf, sorted, sorted, starts[at - 1], frameCount);
    }
  }

  /** `subs` splits `[lo, hi]` into consecutive non-empty ranges. */
  ghost predicate Tiles(subs: seq<SubMotion>, lo: int, hi: int)
  {
    && |subs| > 0
    && subs[0].start == lo
    && subs[|subs| - 1].end == hi
    && (forall j :: 0 <= j < |subs| ==> subs[j].start <= subs[j].end)
    && (forall j :: 0 <= j < |subs| - 1 ==> subs[j].end + 1 == subs[j + 1].start)
  }

  lemma {:induction false} TilesOrdered(subs: seq<SubMotion>, lo: int, hi: int, a: nat, b: nat)
    requires Tiles(subs, lo, hi) && a < b < |subs|
    ensures subs[a].end < subs[b].start
    decreases b - a
  {
    if a + 1 < b {
      TilesOrdered(subs, lo, hi, a + 1, b);
    }
  }

  /** Every frame of a tiled range lies in exactly one of its sub-motions. */
  lemma {:induction false} TilesCover(subs: seq<SubMotion>, lo: int, hi: int, f: int)
    requires Tiles(subs, lo, hi) && lo <= f <= hi
    ensures exists j :: 0 <= j < |subs| && subs[j].start <= f <= subs[j].end
    ensures forall a, b ::
      (0 <= a < |subs| && 0 <= b < |subs| && subs[a].start <= f <= subs[a].end && subs[b].start <= f <= subs[b].end)
      ==> a == b
    decreases |subs|
  {
    forall a, b | 0 <= a < |subs| && 0 <= b < |subs|
        && subs[a].start <= f <= subs[a].end && subs[b].start <= f <= subs[b].end
      ensures a == b
    {
      if a < b { TilesOrdered(subs, lo, hi, a, b); }
      if b < a { TilesOrdered(subs, lo, hi, b, a); }
    }
    if subs[0].end < f {
      var rest := subs[1..];
      assert Tiles(rest, subs[1].start, hi) by {
        forall j | 0 <= j < |rest| - 1 ensures rest[j].end + 1 == rest[j + 1].start {
          assert rest[j] == subs[j + 1] && rest[j + 1] == subs[j + 2];
        }
      }
      TilesCover(rest, subs[1].start, hi, f);
      var j :| 0 <= j < |rest| && rest[j].start <= f <= rest[j].end;
      assert subs[j + 1] == rest[j];
    }
  }

  /**
   * A segment's sub-motions tile it: they start at the segment's start, each
   * ends one frame before the next begins, and the last ends at the segment's
   * end. Outside "simple_end" their starts are exactly the non-End keys of
   * the segment, each carrying its own record.
   */
  lemma SubMotionsTile(kf: KeyMap, sorted: seq<int>, frameCount: nat, i: int)
    requires ListsKeys(sorted, kf)
    requires 0 <= i && ContextAt(kf, sorted, frameCount, i).Segment?
    ensures var c := ContextAt(kf, sorted, frameCount, i);
      Tiles(c.subs, c.start, c.end)
    ensures var c := ContextAt(kf, sorted, frameCount, i);
      c.kind != SimpleEnd ==> OnePerKey(kf, c.subs, c.start, c.end)
  {
    var c := ContextAt(kf, sorted, frameCount, i);
    if c.kind != SimpleEnd {
      SegmentShape(kf, sorted, frameCount, i);
      SubMotionListTiles(kf, SubMotionKeys(kf, sorted, c.start, c.end), c.start, c.end);
    } else {
      SimpleEndOnlyBelowFirstEnd(kf, sorted, frameCount, i);
    }
  }

  /** Outside "simple_end", the sub-motions are built from the segment's non-End keys. */
  lemma SegmentShape(kf: KeyMap, sorted: seq<int>, frameCount: nat, i: int)
    requires ListsKeys(sorted, kf)
    requires ContextAt(kf, sorted, frameCount, i).Segment? && ContextAt(kf, sorted, frameCount, i).kind != SimpleEnd
    ensures var c := ContextAt(kf, sorted, frameCount, i);
      && c.start in SubMotionKeys(kf, sorted, c.start, c.end)
      && c.subs == SubMotions(kf, SubMotionKeys(kf, sorted, c.start, c.end), c.end)
  {
    SegmentStartRule(kf, sorted, frameCount, i);
  }

  /**
   * Each sub-motion starts on a key and carries that key's record, and the
   * non-End keys of `[start, end]` are exactly the sub-motions' starts.
   */
  ghost predicate OnePerKey(kf: KeyMap, subs: seq<SubMotion>, start: int, end: int)
  {
    && (forall j :: 0 <= j < |subs| ==> subs[j].start in kf && subs[j].data == kf[subs[j].start])
    && (forall k :: k in kf && start <= k <= end && kf[k].kind != END <==>
          exists j :: 0 <= j < |subs| && subs[j].start == k)
  }

  /** The sub-motion list built from the non-End keys of `[start, end]`. */
  lemma SubMotionListTiles(kf: KeyMap, keys: seq<int>, start: int, end: int)
    requires Increasing(keys) && start in keys
    requires forall k :: k in keys <==> k in kf && start <= k <= end && kf[k].kind != END
    ensures Tiles(SubMotions(kf, keys, end), start, end)
    ensures OnePerKey(kf, SubMotions(kf, keys, end), start, end)
  {
    forall n | 0 <= n < |keys| ensures keys[n] in kf && start <= keys[n] <= end {
      assert keys[n] in keys;
    }
    var subs := SubMotions(kf, keys, end);
    SubMotionsShape(kf, keys, end);
    var n :| 0 <= n < |keys| && keys[n] == start;
    FirstIsMin(keys, start);
    forall k | k in kf && start <= k <= end && kf[k].kind != END
      ensures exists j :: 0 <= j < |subs| && subs[j].start == k
    {
      var m :| 0 <= m < |keys| && keys[m] == k;
      assert subs[m].start == k;
    }
  }

  lemma FirstIsMin(keys: seq<int>, x: int)
    requires Increasing(keys) && x in keys
    ensures keys[0] <= x
  {
    var m :| 0 <= m < |keys| && keys[m] == x;
    if m > 0 {
      assert keys[0] < keys[m];
    }
  }

  /** Each sub-motion runs from its key to just before the next key, the last one to `end`. */
  lemma SubMotionsShape(kf: KeyMap, keys: seq<int>, end: int)
    requires Increasing(keys)
    requires forall n :: 0 <= n < |keys| ==> keys[n] in kf && keys[n] <= end
    ensures var subs := SubMotions(kf, keys, end);
      && (forall j :: 0 <= j < |subs| ==> subs[j].start == keys[j] && subs[j].data == kf[keys[j]])
      && (forall j :: 0 <= j < |subs| ==> subs[j].start <= subs[j].end)
      && (forall j :: 0 <= j < |subs| - 1 ==> subs[j].end + 1 == subs[j + 1].start)
      && (|subs| > 0 ==> subs[|subs| - 1].end == end)
  {
    var subs := SubMotions(kf, keys, end);
    forall j | 0 <= j < |subs|
      ensures subs[j].start == keys[j] && subs[j].data == kf[keys[j]]
      ensures subs[j].end == if j + 1 < |keys| then keys[j + 1] - 1 else end
    {
      assert subs[j] == SubMotionAt(kf, keys, end, j);
    }
    forall j | 0 <= j < |subs| - 1 ensures keys[j] < keys[j + 1] {
    }
  }

  /** With every key a frame index, a segment stays within `[0, frameCount)`. */
  lemma SegmentWithinFrames(kf: KeyMap, sorted: seq<int>, frameCount: nat, i: int)
    requires ListsKeys(sorted, kf)
    requires forall k :: k in kf ==> 0 <= k < frameCount
    requires 0 <= i && ContextAt(kf, sorted, frameCount, i).Segment?
    ensures var c := ContextAt(kf, sorted, frameCount, i);
      0 <= c.start <= c.end < frameCount
  {
    var c := ContextAt(kf, sorted, frameCount, i);
    if c.kind == SimpleEnd {
      SimpleEndOnlyBelowFirstEnd(kf, sorted, frameCount, i);
      assert sorted[0] in sorted;
    } else {
      SegmentStartRule(kf, sorted, frameCount, i);
      SegmentEndRule(kf, sorted, frameCount, i);
    }
  }

  /** An End key is never a true start. */
  lemma EndNeverTrueStart(kf: KeyMap, sorted: seq<int>, key: int)
    requires ListsKeys(sorted, kf) && key in kf && kf[key].kind == END
    ensures !IsTrueStart(kf, sorted, key)
  {
  }

  /** No true start lies after a segment's start and within the segment. */
  lemma NoTrueStartInside(kf: KeyMap, sorted: seq<int>, frameCount: nat, i: int, k: int)
    requires ListsKeys(sorted, kf)
    requires ContextAt(kf, sorted, frameCount, i).Segment? && ContextAt(kf, sorted, frameCount, i).kind != SimpleEnd
    requires k in kf && ContextAt(kf, sorted, frameCount, i).start < k <= ContextAt(kf, sorted, frameCount, i).end
    ensures !IsTrueStart(kf, sorted, k)
  {
    var c := ContextAt(kf, sorted, frameCount, i);
    SegmentEndRule(kf, sorted, frameCount, i);
    if c.kind == Complete && k == c.end {
      EndNeverTrueStart(kf, sorted, k);
    }
  }

  /**
   * Segments partition the frames they cover: every frame of a segment has
   * that same segment (bounds, kind, anchor and sub-motions) as its context.
   */
  lemma SegmentConstant(kf: KeyMap, sorted: seq<int>, frameCount: nat, i: int, j: int)
    requires ListsKeys(sorted, kf)
    requires ContextAt(kf, sorted, frameCount, i).Segment?
    requires ContextAt(kf, sorted, frameCount, i).start <= j <= ContextAt(kf, sorted, frameCount, i).end
    ensures ContextAt(kf, sorted, frameCount, j) == ContextAt(kf, sorted, frameCount, i)
  {
    var c := ContextAt(kf, sorted, frameCount, i);
    if c.kind == SimpleEnd {
      SimpleEndOnlyBelowFirstEnd(kf, sorted, frameCount, i);
      SimpleEndRule(kf, sorted, frameCount, j);
    } else {
      TrueSegmentConstant(kf, sorted, frameCount, i, j);
    }
  }

  /** `SegmentConstant` for a segment opened by a true start: `j` falls behind the same start as `i`. */
  lemma TrueSegmentConstant(kf: KeyMap, sorted: seq<int>, frameCount: nat, i: int, j: int)
    requires ListsKeys(sorted, kf)
    requires ContextAt(kf, sorted, frameCount, i).Segment? && ContextAt(kf, sorted, frameCount, i).kind != SimpleEnd
    requires ContextAt(kf, sorted, frameCount, i).start <= j <= ContextAt(kf, sorted, frameCount, i).end
    ensures ContextAt(kf, sorted, frameCount, j) == ContextAt(kf, sorted, frameCount, i)
  {
    var c := ContextAt(kf, sorted, frameCount, i);
    var starts := TrueStarts(kf, sorted);
    var at := BisectRight(starts, i);
    StartsAroundSegment(kf, sorted, frameCount, i);
    PastSimpleEnd(kf, sorted, frameCount, i, i);
    PastSimpleEnd(kf, sorted, frameCount, i, j);
    BisectRightAt(starts, j, at);
    ContextFromStart(kf, sorted, frameCount, i);
    ContextFromStart(kf, sorted, frameCount, j);
    SegmentFromSame(kf, sorted, frameCount, c.start, i, j);
  }

  /** A segment opened by a true start lies between that start and the next one. */
  lemma StartsAroundSegment(kf: KeyMap, sorted: seq<int>, frameCount: nat, i: int)
    requires ListsKeys(sorted, kf)
    requires ContextAt(kf, sorted, frameCount, i).Segment? && ContextAt(kf, sorted, frameCount, i).kind != SimpleEnd
    ensures var c := ContextAt(kf, sorted, frameCount, i);
      var starts := TrueStarts(kf, sorted);
      var at := BisectRight(starts, i);
      at > 0 && starts[at - 1] == c.start && (at < |starts| ==> c.end < starts[at])
  {
    var c := ContextAt(kf, sorted, frameCount, i);
    var starts := TrueStarts(kf, sorted);
    var at := BisectRight(starts, i);
    SegmentStartRule(kf, sorted, frameCount, i);
    if at < |starts| {
      var s := starts[at];
      assert s in starts && c.start < s;
      if s <= c.end {
        NoTrueStartInside(kf, sorted, frameCount, i, s);
      }
    }
  }

  /** From the start of a segment opened by a true start on, the "simple_end" case does not apply. */
  lemma PastSimpleEnd(kf: KeyMap, sorted: seq<int>, frameCount: nat, i: int, j: int)
    requires ListsKeys(sorted, kf)
    requires ContextAt(kf, sorted, frameCount, i).Segment? && ContextAt(kf, sorted, frameCount, i).kind != SimpleEnd
    requires ContextAt(kf, sorted, frameCount, i).start <= j
    ensures |kf| > 0 && frameCount > 0 && !(SimpleEndApplies(kf, sorted) && j <= sorted[0])
  {
    var c := ContextAt(kf, sorted, frameCount, i);
    SegmentStartRule(kf, sorted, frameCount, i);
    if SimpleEndApplies(kf, sorted) {
      FirstIsLeast(kf, sorted, c.start);
      EndNeverTrueStart(kf, sorted, sorted[0]);
    }
  }

  /** Every frame of the segment a start opens has that same segment. */
  lemma SegmentFromSame(kf: KeyMap, sorted: seq<int>, frameCount: nat, start: int, i: int, j: int)
    requires ListsKeys(sorted, kf) && start in kf
    requires SegmentFrom(kf, sorted, frameCount, start, i).Segment?
    requires start <= j <= SegmentFrom(kf, sorted, frameCount, start, i).end
    ensures SegmentFrom(kf, sorted, frameCount, start, j) == SegmentFrom(kf, sorted, frameCount, start, i)
  {
  }

  /** Past the "simple_end" case, a frame behind a true start has the segment that start opens. */
  lemma ContextFromStart(kf: KeyMap, sorted: seq<int>, frameCount: nat, i: int)
    requires ListsKeys(sorted, kf) && |kf| > 0 && frameCount > 0
    requires !(SimpleEndApplies(kf, sorted) && i <= sorted[0])
    requires BisectRight(TrueStarts(kf, sorted), i) > 0
    ensures var starts := TrueStarts(kf, sorted);
      ContextAt(kf, sorted, frameCount, i) == SegmentFrom(kf, sorted, frameCount, starts[BisectRight(starts, i) - 1], i)
  {
  }

  /** The ranges of a tiling lie within it, in strictly increasing order. */
  lemma TilesBounds(subs: seq<SubMotion>, lo: int, hi: int)
    requires Tiles(subs, lo, hi)
    ensures forall k :: 0 <= k < |subs| ==> lo <= subs[k].start <= subs[k].end <= hi
    ensures forall a, b :: 0 <= a < b < |subs| ==> subs[a].start < subs[b].start
  {
    forall a, b | 0 <= a < b < |subs| ensures subs[a].end < subs[b].start {
      TilesOrdered(subs, lo, hi, a, b);
    }
  }
}
