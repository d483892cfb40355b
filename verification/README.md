# GIF Animation Sampler — keyframe segmentation and playback cursor

The GIF Animation Sampler is a desktop tool. It shows the frames of an
animated GIF on a timeline. The user marks some frames as key frames and
names them as motions. A playback timer then steps through the frames,
looping inside the motion the cursor is in.

This project models the logic behind that tool in three revisions:

- **`v0.62.36_strippedBuild_GIF_v039.py`** (the newest). A key frame is a
  record with a name, a kind, a loop count and a locked flag. The kinds are
  1 = start, 2 = middle and 9 = end. Key frames are grouped into motions
  and sub-motions.
- **`Gif_Animation_Sampler_v06302-fix2.py`** and
  **`Gif_Animation_Sampler_v0515.py`**. A key frame is just a name, and a
  motion runs from one key frame to the frame before the next.

## Modules, newest revision

- `SortedKeys`: `sorted(...)` of a key set, `bisect_right` and `bisect_left`.
- `Keyframes`: the key-frame record and the segment context of a frame
  (`_get_keyframe_context_for_frame`, `_is_sub_motion`). Its methods are the
  source's loops.
- `SegmentLemmas`: what a segment is, in terms independent of the scan that
  computes it:
  - its start is the greatest "true start" at or below the frame;
  - its end is the next end key or the frame before the next true start;
  - its sub-motions tile it;
  - every frame inside it has the same context.
- `Playback`: the playback cursor as a value (`Cursor`), and one function per
  handler, e.g. `Tick` is one timeout of `_advance_frame`.
- `PlaybackLemmas`: the properties playback promises:
  - it lands only on unlocked frames;
  - it stops only when every frame is locked;
  - a segment loop never leaves its segment;
  - sub-motion repeats and their counters stay bounded;
  - navigation goes to the next or previous unlocked key, cyclically.
- `PlaybackInvariants`: each handler keeps the attributes consistent (a
  running timer and a selection sit on frames, an armed loop spans frames)
  and states what it does to the selection, the timer and the loop.
- `Window`: the main window as a class, `Window.Sampler`. Its fields are the
  instance attributes. Its methods update them in place and are proved to
  agree with the `Playback` functions.
- `Naming`: `_generate_next_suffix` and `_generate_next_motion_name`.
- `KeyframeDialog`: the keyframe settings dialog (its initial state, the loop
  count buttons, `get_data`) and how its outcome is applied to the keyframes.
- `ProjectLoad`: the key-frame upgrade loop of `load_settings`, as written and
  corrected (see Findings), and the entries `save_settings` writes, which
  both versions read back unchanged.

## Modules, older revisions

- `LegacyMotion`: `_get_motion_segment_for_frame`,
  `_get_current_motion_start_key`, the targets of the next and previous
  motion buttons, the frame `_advance_frame` moves to, and the wheel step.
- `LegacyPlayback`: the playback attributes as a value (`Playhead`) and one
  function per handler. Lemmas show that every handler keeps the attributes
  sane and does what it promises.
- `LegacyWindow`: the main window of the older revisions as a class,
  `LegacyWindow.Sampler`, proved against `LegacyPlayback`.
- `StyleSheet`: `_extract_background_color_hex` and
  `_replace_background_color_in_style`.
- `PyText`: Python's `str.strip()`.
- `FrameFormat`: `_format_frame_number`.

## Model

| member | source | states |
|---|---|---|
| SortedKeys.Sorted | v0.62.36_strippedBuild_GIF_v039.py:1180 | `sorted(keys)`: a strictly increasing list holding exactly the keys of the set, each once |
| SortedKeys.IncreasingListingUnique | v0.62.36_strippedBuild_GIF_v039.py:1180 | two increasing lists with the same members are equal, so the sorted key list is determined by the key set |
| SortedKeys.BisectRight | v0.62.36_strippedBuild_GIF_v039.py:1201 | `bisect_right`: the split point with every earlier element `<= x` and every later element `> x` |
| SortedKeys.BisectRightAt | v0.62.36_strippedBuild_GIF_v039.py:1201 | on increasing keys, the insertion point is the position whose left neighbour is at or below the value and whose right neighbour is above it |
| SortedKeys.BisectRightGreatest | v0.62.36_strippedBuild_GIF_v039.py:1201 | every listed key at or below the value is at or below the key just left of the insertion point, which therefore exists |
| SortedKeys.BisectLeft | v0.62.36_strippedBuild_GIF_v039.py:1241 | `bisect_left`: the split point with every earlier element `< x` and every later element `>= x` |
| SortedKeys.Filter | v0.62.36_strippedBuild_GIF_v039.py:1265 | a list comprehension with a condition keeps exactly the members that pass it, in order |
| Keyframes.TrueStarts | v0.62.36_strippedBuild_GIF_v039.py:1196 | the true-start keys: increasing, and exactly the keys for which the true-start test holds |
| Keyframes.IsSubMotion | v0.62.36_strippedBuild_GIF_v039.py:1236-1255 | `_is_sub_motion`; `SegmentLemmas.SubMotionRule` characterises it |
| Keyframes.IsTrueStart | v0.62.36_strippedBuild_GIF_v039.py:1196 | the test that a key opens a segment; `SegmentLemmas.TrueStartRule` characterises it |
| Keyframes.ScanEnd | v0.62.36_strippedBuild_GIF_v039.py:1207-1221 | the terminator scan as a function; `SegmentLemmas.ScanEndRule` characterises it |
| Keyframes.SubMotionKeys | v0.62.36_strippedBuild_GIF_v039.py:1225 | the sub-motion keys of a segment: increasing, and exactly the non-end keys between its start and its end |
| Keyframes.SubMotions | v0.62.36_strippedBuild_GIF_v039.py:1226-1230 | one sub-motion per sub-motion key |
| Keyframes.ContextAt | v0.62.36_strippedBuild_GIF_v039.py:1175-1234 | no key frames or no frames gives the default context; a segment context always ends at or after the frame and starts at or before it, except for a simple-end segment asked about a negative index |
| Keyframes.KeyframeContext | v0.62.36_strippedBuild_GIF_v039.py:1175-1234 | no frame index gives the default context; otherwise the context over the sorted keys |
| Keyframes.ContextForFrame | v0.62.36_strippedBuild_GIF_v039.py:1180-1234 | the method with the simple-end test, the bisection and the scan computes the context specified by `ContextAt` |
| Keyframes.SegmentFrom | v0.62.36_strippedBuild_GIF_v039.py:1207-1234 | a segment opened at `start` for frame `i` starts at `start` and contains `i` |
| Keyframes.SegmentOfStart | v0.62.36_strippedBuild_GIF_v039.py:1207-1232 | the terminator scan and the sub-motion loop from a given start compute `SegmentFrom` |
| Keyframes.ScanTerminator | v0.62.36_strippedBuild_GIF_v039.py:1207-1221 | the loop over the sorted keys finds the end that `ScanEnd` specifies; `SegmentLemmas.ScanEndRule` says what that end is |
| Keyframes.BuildSubMotions | v0.62.36_strippedBuild_GIF_v039.py:1224-1231 | the loop that appends sub-motions builds `SubMotions`; `SegmentLemmas.SubMotionsShape` says how they fit together |
| SegmentLemmas.SubMotionRule | v0.62.36_strippedBuild_GIF_v039.py:1236-1255 | a key is a sub-motion iff it is a middle key whose nearest lower key is a start or middle key (the inner scan for end keys never fires) |
| SegmentLemmas.SubMotionAtNeighbour | v0.62.36_strippedBuild_GIF_v039.py:1241-1251 | the same rule, read off the neighbour in the sorted list |
| SegmentLemmas.PredecessorInSorted | v0.62.36_strippedBuild_GIF_v039.py:1241-1245 | the element before a key in the sorted list is the greatest key below it |
| SegmentLemmas.NoEndBetweenNeighbours | v0.62.36_strippedBuild_GIF_v039.py:1247-1251 | no key lies strictly between neighbours in the sorted list, so the end-key check between them is always false |
| SegmentLemmas.TrueStartRule | v0.62.36_strippedBuild_GIF_v039.py:1196 | a key is a true start iff it is a start key, or a locked non-end key, or a middle key not following a start or middle key |
| SegmentLemmas.EndNeverTrueStart | v0.62.36_strippedBuild_GIF_v039.py:1196 | an end key is never a true start |
| SegmentLemmas.GreatestTrueStart | v0.62.36_strippedBuild_GIF_v039.py:1198-1205 | the bisection picks the greatest true start at or below the frame, or finds none |
| SegmentLemmas.ScanEndRule | v0.62.36_strippedBuild_GIF_v039.py:1207-1221 | a complete segment ends at an end key with only quiet keys before it; a simple one ends just before the next true start or at the last frame |
| SegmentLemmas.SegmentStartRule | v0.62.36_strippedBuild_GIF_v039.py:1196-1205 | a non-simple-end segment starts at a true start at or below the frame, with no true start between them, and carries that key's record |
| SegmentLemmas.NoTrueStartNoContext | v0.62.36_strippedBuild_GIF_v039.py:1198-1203 | with no true start at or below the frame, and the simple-end case not applying, the context is the default |
| SegmentLemmas.SegmentEndRule | v0.62.36_strippedBuild_GIF_v039.py:1207-1221 | the end of the frame's segment is the one the terminator scan over all keys finds (`EndsAsScanned`) |
| SegmentLemmas.ScanEndOverKeys | v0.62.36_strippedBuild_GIF_v039.py:1207-1221 | the scan over all keys ends at the first End key after the start, or before the next true start, or at the last frame, with no End key or true start in between |
| SegmentLemmas.SimpleEndTestsNeverFire | v0.62.36_strippedBuild_GIF_v039.py:1186-1191 | no key lies below the first key, so both `any(...)` tests of the simple-end case are false |
| SegmentLemmas.SimpleEndRule | v0.62.36_strippedBuild_GIF_v039.py:1182-1194 | when the first key is an end key, every frame up to it is in the simple-end segment from frame 0 to that key |
| SegmentLemmas.SimpleEndOnlyBelowFirstEnd | v0.62.36_strippedBuild_GIF_v039.py:1182-1194 | conversely, a simple-end context arises only when the first key is an end key and the frame is at or below it |
| SegmentLemmas.TilesOrdered | v0.62.36_strippedBuild_GIF_v039.py:1226-1230 | tiling sub-motions are ordered: an earlier one ends before a later one starts |
| SegmentLemmas.TilesCover | v0.62.36_strippedBuild_GIF_v039.py:1226-1230 | every frame of a tiled range lies in exactly one sub-motion |
| SegmentLemmas.TilesBounds | v0.62.36_strippedBuild_GIF_v039.py:1226-1230 | tiling sub-motions stay inside the range, and their starts increase |
| SegmentLemmas.SubMotionsShape | v0.62.36_strippedBuild_GIF_v039.py:1226-1230 | sub-motion `j` starts at key `j`, carries its record, and ends just before the next one starts; the last one ends at the segment end |
| SegmentLemmas.SubMotionListTiles | v0.62.36_strippedBuild_GIF_v039.py:1225-1230 | the sub-motions of a segment tile it, one per non-end key inside it |
| SegmentLemmas.SubMotionsTile | v0.62.36_strippedBuild_GIF_v039.py:1223-1232 | the sub-motions in any segment context tile the segment |
| SegmentLemmas.SegmentShape | v0.62.36_strippedBuild_GIF_v039.py:1223-1232 | a segment's start is its first sub-motion key, and its sub-motions are built from its sub-motion keys |
| SegmentLemmas.SegmentWithinFrames | v0.62.36_strippedBuild_GIF_v039.py:1207-1232 | when every key is a frame index, a segment lies within the frames |
| SegmentLemmas.NoTrueStartInside | v0.62.36_strippedBuild_GIF_v039.py:1210-1217 | no true start lies after a segment's start and at or before its end |
| SegmentLemmas.SegmentConstant | v0.62.36_strippedBuild_GIF_v039.py:1175-1234 | every frame of a segment has the same context as the frame that found it |
| SegmentLemmas.TrueSegmentConstant | v0.62.36_strippedBuild_GIF_v039.py:1175-1234 | every frame of a segment opened by a true start has that same segment as its context |
| Playback.ResetLoop | v0.62.36_strippedBuild_GIF_v039.py:1059-1063 | `_reset_loop_state` leaves the segment loop off, with no return or end point and no counters, and changes nothing else |
| Playback.Stop | v0.62.36_strippedBuild_GIF_v039.py:1098-1102 | `_stop_playback_and_reset_ui`: playback stops and the loop state is reset |
| Playback.UnlockedKeys | v0.62.36_strippedBuild_GIF_v039.py:1265 | the navigation keys: increasing, and exactly the key frames whose context is not locked |
| Playback.EnterSegment | v0.62.36_strippedBuild_GIF_v039.py:1065-1076 | `_update_playback_context`; `PlaybackInvariants.EnterSegmentRule` states its effect |
| Playback.Resume | v0.62.36_strippedBuild_GIF_v039.py:1078-1089 | `_resume_playback`; `PlaybackInvariants.ResumeRule` states its effect |
| Playback.NextUnlocked | v0.62.36_strippedBuild_GIF_v039.py:1157-1173 | the locked-frame skip; `PlaybackLemmas.NextUnlockedInFrames` characterises it |
| Playback.SubRepeat | v0.62.36_strippedBuild_GIF_v039.py:1117-1128 | the sub-motion scan of a tick; `PlaybackLemmas.SubRepeatRule` and `PlaybackLemmas.SubRepeatAt` characterise it |
| Playback.Proposed | v0.62.36_strippedBuild_GIF_v039.py:1109-1135 | the frame a tick proposes; `PlaybackLemmas.ProposedInRange` and `PlaybackLemmas.ProposedInSegment` bound it |
| Playback.Tick | v0.62.36_strippedBuild_GIF_v039.py:1104-1155 | one timeout of `_advance_frame`; the `Tick*` lemmas and `PlaybackInvariants.TickSane` state its properties |
| Playback.Select | v0.62.36_strippedBuild_GIF_v039.py:878-898 | `select_frame`; `PlaybackInvariants.SelectRule` states its effect |
| Playback.PlayPause | v0.62.36_strippedBuild_GIF_v039.py:1041-1057 | `_on_play_pause_toggled`; `PlaybackInvariants.PlayPauseRule` states its effect |
| Playback.LoopToggled | v0.62.36_strippedBuild_GIF_v039.py:1091-1096 | `_on_loop_toggled`; `PlaybackInvariants.LoopToggledRule` states its effect |
| Playback.NavTarget | v0.62.36_strippedBuild_GIF_v039.py:1265-1276 | the key `_navigate_keyframe` jumps to; `PlaybackLemmas.NavTargetRule` characterises it |
| Playback.Navigate | v0.62.36_strippedBuild_GIF_v039.py:1260-1283 | `_navigate_keyframe`; `PlaybackInvariants.NavigateRule` states its effect |
| PlaybackLemmas.CandidatesCover | v0.62.36_strippedBuild_GIF_v039.py:1160-1171 | the frames the search visits are a rotation of all frames: each frame once, in wrapped order from the start |
| PlaybackLemmas.FirstFromRule | v0.62.36_strippedBuild_GIF_v039.py:1160-1173 | the search returns the first visited frame that passes the test, or -1 iff none does |
| PlaybackLemmas.FirstFromFound | v0.62.36_strippedBuild_GIF_v039.py:1166-1168 | a frame the search returns passes the test |
| PlaybackLemmas.NextUnlockedRule | v0.62.36_strippedBuild_GIF_v039.py:1157-1173 | `_find_next_unlocked_frame` returns the first unlocked frame in visiting order, or -1 iff every visited frame is locked |
| PlaybackLemmas.NextUnlockedInFrames | v0.62.36_strippedBuild_GIF_v039.py:1157-1173 | the same in frame terms: -1 iff every frame is locked; otherwise an unlocked frame, with every frame skipped on the way (wrapping past the end) locked |
| PlaybackLemmas.NextUnlockedAtStart | v0.62.36_strippedBuild_GIF_v039.py:1166-1168 | an unlocked start frame is returned as is |
| PlaybackLemmas.SubRepeatRule | v0.62.36_strippedBuild_GIF_v039.py:1117-1128 | a repeat comes from the first sub-motion ending at the frame whose counter is below its loop count, and increments that counter |
| PlaybackLemmas.SubRepeatAt | v0.62.36_strippedBuild_GIF_v039.py:1117-1128 | conversely, such a sub-motion causes a jump back to its start |
| PlaybackLemmas.TickLandsOnUnlockedFrame | v0.62.36_strippedBuild_GIF_v039.py:1145-1155 | after a tick, playback that is still running is on an unlocked frame, and that frame is selected |
| PlaybackLemmas.ProposedInRange | v0.62.36_strippedBuild_GIF_v039.py:1109-1143 | the frame proposed before the unlocked search is never negative, and the proposal changes only the counters |
| PlaybackLemmas.TickStopsOnlyWhenAllLocked | v0.62.36_strippedBuild_GIF_v039.py:1145-1149 | a running tick stops iff every frame is locked |
| PlaybackLemmas.ProposedInSegment | v0.62.36_strippedBuild_GIF_v039.py:1117-1135 | inside a segment loop, the proposed frame stays between the return point and the end point |
| PlaybackLemmas.SegmentLoopIsClosed | v0.62.36_strippedBuild_GIF_v039.py:1130-1155 | a segment loop is invariant under a tick: the cursor stays in the segment and the context is kept; at the loop end with no repeat pending, it returns to the start with cleared counters |
| PlaybackLemmas.SubLoopOfStrict | v0.62.36_strippedBuild_GIF_v039.py:1121-1122 | the loop count looked up for a sub-motion's start is that sub-motion's own loop count |
| PlaybackLemmas.RepeatKeepsCountersBounded | v0.62.36_strippedBuild_GIF_v039.py:1117-1128 | a repeat never raises a counter above its sub-motion's loop count |
| PlaybackLemmas.TickKeepsCountersBounded | v0.62.36_strippedBuild_GIF_v039.py:1104-1155 | every tick keeps all counters within their loop counts |
| PlaybackLemmas.TickRepeatsSubMotion | v0.62.36_strippedBuild_GIF_v039.py:1117-1128 | at a sub-motion end whose counter is below its loop count, the tick jumps back to the sub-motion start, increments the counter, and keeps the loop |
| PlaybackLemmas.RepeatProposed | v0.62.36_strippedBuild_GIF_v039.py:1117-1128 | at the end of a sub-motion below its loop count, the proposed frame is the sub-motion start, inside the same segment, with its counter raised by one |
| PlaybackLemmas.TickStepsForward | v0.62.36_strippedBuild_GIF_v039.py:1130-1135 | with no repeat and no loop end due, and the next frame unlocked, a tick moves to the next frame |
| PlaybackLemmas.TickWrapsToFirstUnlocked | v0.62.36_strippedBuild_GIF_v039.py:1137-1149 | outside a loop, a tick from the last frame wraps to the first unlocked frame, or stops iff there is none |
| PlaybackLemmas.IncreasingEnds | v0.62.36_strippedBuild_GIF_v039.py:1273 | the first and last elements of an increasing list bound all its elements |
| PlaybackLemmas.CyclicNextRule | v0.62.36_strippedBuild_GIF_v039.py:1271-1273 | the next key is the least key above the current frame, wrapping to the least key |
| PlaybackLemmas.CyclicPrevRule | v0.62.36_strippedBuild_GIF_v039.py:1274-1276 | the previous key is the greatest key below the current frame, wrapping to the greatest key |
| PlaybackLemmas.NavTargetRule | v0.62.36_strippedBuild_GIF_v039.py:1265-1276 | navigation finds a target iff some key is unlocked; the target is the next or previous unlocked key, cyclically |
| PlaybackInvariants.EnterSegmentRule | v0.62.36_strippedBuild_GIF_v039.py:1065-1076 | the segment loop is armed iff loop mode is on and the frame lies in a segment, and then spans exactly that segment within the frames; the counters are cleared and nothing else changes |
| PlaybackInvariants.ResumeRule | v0.62.36_strippedBuild_GIF_v039.py:1078-1089 | the timer runs iff the frame is in range, and then the cursor and the selection are that frame; otherwise the loop is off |
| PlaybackInvariants.SelectRule | v0.62.36_strippedBuild_GIF_v039.py:878-898 | an out-of-range index changes nothing; a click never selects a locked frame, and when it selects it stops playback and moves the cursor; playback selects any frame and keeps running |
| PlaybackInvariants.PlayPauseRule | v0.62.36_strippedBuild_GIF_v039.py:1041-1057 | pausing stops; playing starts iff some frame is unlocked, on an unlocked frame it selects, with the loop armed iff loop mode is on and that frame lies in a segment |
| PlaybackInvariants.PlayFromRule | v0.62.36_strippedBuild_GIF_v039.py:1053-1055 | starting from an unlocked frame plays it, selects it and arms the loop iff loop mode is on and it lies in a segment |
| PlaybackInvariants.LoopToggledRule | v0.62.36_strippedBuild_GIF_v039.py:1091-1096 | loop mode follows the button; while playing the loop is re-armed iff loop mode is on and the cursor lies in a segment; while stopped nothing else changes |
| PlaybackInvariants.TickSane | v0.62.36_strippedBuild_GIF_v039.py:1104-1155 | a tick keeps the cursor, the selection and the loop bounds within the frames |
| PlaybackInvariants.WrappedSane | v0.62.36_strippedBuild_GIF_v039.py:1137-1143 | the wrap past the last frame keeps the attributes consistent and proposes a frame at or above 0 |
| PlaybackInvariants.NavigateRule | v0.62.36_strippedBuild_GIF_v039.py:1260-1283 | with a target, the target becomes the selection and the cursor and playback keeps its state; without one, playback stops and nothing else changes |
| Window.Sampler.constructor | v0.62.36_strippedBuild_GIF_v039.py:379-395 | a new window has no frames, no key frames, no selection, no playback and no unsaved changes |
| Window.Sampler.ResetLoopState | v0.62.36_strippedBuild_GIF_v039.py:1059-1063 | the attributes after the call are `ResetLoop` of those before it; the key frames are untouched |
| Window.Sampler.StopPlayback | v0.62.36_strippedBuild_GIF_v039.py:1098-1102 | the cursor becomes `Stop` of the old cursor |
| Window.Sampler.UpdatePlaybackContext | v0.62.36_strippedBuild_GIF_v039.py:1065-1076 | the cursor becomes `EnterSegment`: the segment loop is armed iff the loop button is on and the frame is in a segment |
| Window.Sampler.ResumePlayback | v0.62.36_strippedBuild_GIF_v039.py:1078-1089 | the cursor becomes `Resume`: playing and selected on an in-range frame, stopped otherwise |
| Window.Sampler.FindNextUnlockedFrame | v0.62.36_strippedBuild_GIF_v039.py:1157-1173 | the loop returns `NextUnlocked`, the frame `PlaybackLemmas.NextUnlockedInFrames` characterises |
| Window.FrameUnlocked | v0.62.36_strippedBuild_GIF_v039.py:1166-1168 | the lock test answers whether the frame is outside every locked segment |
| Window.Sampler.SelectFrame | v0.62.36_strippedBuild_GIF_v039.py:878-898 | the cursor becomes `Select`: a user selection stops playback; an out-of-range index changes nothing |
| Window.Sampler.ProposeNextFrame | v0.62.36_strippedBuild_GIF_v039.py:1109-1143 | the frame and counters after the sub-motion loop and the wrap are `Proposed` of the old cursor |
| Window.ScanSubMotions | v0.62.36_strippedBuild_GIF_v039.py:1117-1128 | the sub-motion loop returns the repeat `SubRepeat` specifies: the first sub-motion ending at the cursor, repeated while below its loop count |
| Window.Sampler.AdvanceFrame | v0.62.36_strippedBuild_GIF_v039.py:1104-1155 | one timeout updates the cursor to `Tick` of the old cursor; the `PlaybackLemmas` tick lemmas describe it |
| Window.Sampler.PlayPauseToggled | v0.62.36_strippedBuild_GIF_v039.py:1041-1057 | the cursor becomes `PlayPause` of the old cursor |
| Window.Sampler.PlayFrom | v0.62.36_strippedBuild_GIF_v039.py:1053-1055 | the cursor moves to the start frame, enters its segment and resumes there |
| Window.Sampler.LoopToggled | v0.62.36_strippedBuild_GIF_v039.py:1091-1096 | the cursor becomes `LoopToggled` of the old cursor: the loop is re-armed only while playing |
| Window.Sampler.NavigateKeyframe | v0.62.36_strippedBuild_GIF_v039.py:1260-1283 | the cursor becomes `Navigate` of the old cursor; `PlaybackLemmas.NavTargetRule` gives its target |
| Window.Sampler.LoadFrames | v0.62.36_strippedBuild_GIF_v039.py:820-855 | loading a GIF stops playback, takes over the project file beside it as read, marks the project saved, and selects frame 0 only when there are frames and frame 0 is unlocked |
| Window.Sampler.GenerateNextMotionName | v0.62.36_strippedBuild_GIF_v039.py:547-555 | the generated name is the first `모션<suffix>` ("motion" followed by a letter suffix) not used by any key frame |
| Window.Sampler.OpenKeyframeDialog | v0.62.36_strippedBuild_GIF_v039.py:617-649 | cancelling changes nothing; otherwise the dialog outcome is applied to the frame (a new frame uses the first free motion name as placeholder) and the project is marked unsaved |
| Window.Sampler.ApplyDialogOutcome | v0.62.36_strippedBuild_GIF_v039.py:636-648 | the key frames become `Applied` of the outcome, with the sorted keys kept in step |
| Window.Sampler.LoadSettings | v0.62.36_strippedBuild_GIF_v039.py:585-611 | with no frames loaded nothing changes; otherwise the key frames become exactly the upgraded entries of the file and the project is saved |
| Naming.Suffix | v0.62.36_strippedBuild_GIF_v039.py:538-545 | the letter suffix of an index: letters only, and empty iff the index is negative |
| Naming.Value | v0.62.36_strippedBuild_GIF_v039.py:538-545 | reading a suffix back gives -1 only for the empty suffix |
| Naming.NextSuffix | v0.62.36_strippedBuild_GIF_v039.py:538-545 | the `while` loop of `_generate_next_suffix` computes `Suffix` |
| Naming.ValueOfSuffix | v0.62.36_strippedBuild_GIF_v039.py:538-545 | the suffix of an index reads back as that index |
| Naming.SuffixOfValue | v0.62.36_strippedBuild_GIF_v039.py:538-545 | every letter string is the suffix of the index it reads as (bijective base 26) |
| Naming.SuffixInjective | v0.62.36_strippedBuild_GIF_v039.py:538-545 | distinct indexes get distinct suffixes |
| Naming.MotionNameInjective | v0.62.36_strippedBuild_GIF_v039.py:547-555 | distinct indexes get distinct motion names |
| Naming.LaterNameIsNew | v0.62.36_strippedBuild_GIF_v039.py:547-555 | a name with a later index is none of the names with earlier indexes |
| Naming.NamesBelowCount | v0.62.36_strippedBuild_GIF_v039.py:547-555 | the first `n` motion names are `n` distinct names |
| Naming.TakenNamesCount | v0.62.36_strippedBuild_GIF_v039.py:549-554 | if the first `n` names are all taken, there are at least `n` existing names, so the search ends |
| Naming.ExistingNames | v0.62.36_strippedBuild_GIF_v039.py:548 | the existing names are exactly the names of the key frames |
| Naming.FirstFreeUnique | v0.62.36_strippedBuild_GIF_v039.py:547-555 | at most one name is the first free motion name |
| Naming.NextMotionName | v0.62.36_strippedBuild_GIF_v039.py:547-555 | the loop returns a motion name not in use, every earlier name is in use, and it needs at most one step per existing name |
| KeyframeDialog.StepLoopCount | v0.62.36_strippedBuild_GIF_v039.py:324-329 | the loop count after a button press is the old count plus the step, clamped to 0..9 |
| KeyframeDialog.StepLoopCountUndo | v0.62.36_strippedBuild_GIF_v039.py:324-329 | a step that stays in range is undone by the opposite step |
| KeyframeDialog.DialogData | v0.62.36_strippedBuild_GIF_v039.py:351-364 | `get_data` returns the chosen kind, loop count and lock; the typed name, or the placeholder when the name field is empty |
| KeyframeDialog.InitialKind | v0.62.36_strippedBuild_GIF_v039.py:305-308 | the checked type button is always Start, Middle or End; a locked key never opens as Middle, because checking the locked box moves Middle to Start; Start and End keys keep their type |
| KeyframeDialog.SettingsDialog.constructor | v0.62.36_strippedBuild_GIF_v039.py:255-349 | the dialog starts from the key frame's loop count and lock, or from 0/unlocked for a new key, with the type button `InitialKind` gives; the name field shows the locked label, the simple-end label, nothing for an end key, or the current name |
| KeyframeDialog.SettingsDialog.ChangeLoopCount | v0.62.36_strippedBuild_GIF_v039.py:324-329 | a locked dialog ignores the loop buttons; otherwise the count steps with clamping |
| KeyframeDialog.Applied | v0.62.36_strippedBuild_GIF_v039.py:636-648 | only the edited frame changes: delete removes it; confirm stores the data when it has a name or is an end key, and removes the frame otherwise |
| KeyframeDialog.OutcomeOf | v0.62.36_strippedBuild_GIF_v039.py:628-645 | what the window receives: cancel, a confirmed deletion, or the `get_data` record; `KeyframeDialog.Applied` gives its effect |
| KeyframeDialog.AppliedIdempotent | v0.62.36_strippedBuild_GIF_v039.py:636-648 | applying the same outcome twice is the same as applying it once |
| KeyframeDialog.PlaceholderKeepsNewKey | v0.62.36_strippedBuild_GIF_v039.py:351-364 | confirming a new key with an empty name field stores it under the placeholder name |
| ProjectLoad.Upgrade | v0.62.36_strippedBuild_GIF_v039.py:600-603 | a bare name becomes an unlocked start key with loop 0 under that name; a record keeps its name, loop and lock, and its kind when it has one |
| ProjectLoad.UpgradeSaved | v0.62.36_strippedBuild_GIF_v039.py:575-577 | a record written with its kind reads back unchanged |
| ProjectLoad.Saved | v0.62.36_strippedBuild_GIF_v039.py:575 | `save_settings` writes one entry per key, each a full record with its kind |
| ProjectLoad.LoadIntoSaved | v0.62.36_strippedBuild_GIF_v039.py:575-603 | loading the saved entries of a map over a part of it that they complete gives back the map |
| ProjectLoad.SaveThenLoad | v0.62.36_strippedBuild_GIF_v039.py:565-611 | saving and loading again gives back the same key frames, through the intended load and through the loop as written |
| ProjectLoad.Load | v0.62.36_strippedBuild_GIF_v039.py:598-603 | the intended load, entry by entry on a cleared map; `ProjectLoad.LoadDomain` and `ProjectLoad.LoadLastWins` characterise it |
| ProjectLoad.LoadAsWritten | v0.62.36_strippedBuild_GIF_v039.py:598-611 | the load as written on a cleared map; `ProjectLoad.LoadIntoAsWrittenRule` characterises it |
| ProjectLoad.LoadIntoDomain | v0.62.36_strippedBuild_GIF_v039.py:599-603 | loading adds exactly the keys of the entries |
| ProjectLoad.LoadIntoKeeps | v0.62.36_strippedBuild_GIF_v039.py:599-603 | a key no entry mentions keeps its value |
| ProjectLoad.LoadDomain | v0.62.36_strippedBuild_GIF_v039.py:598-603 | after the clear, the key frames are exactly the keys of the file |
| ProjectLoad.LoadIntoSplit | v0.62.36_strippedBuild_GIF_v039.py:599-603 | the loop is a left-to-right fold: loading is the same if split at any entry |
| ProjectLoad.LoadLastWins | v0.62.36_strippedBuild_GIF_v039.py:599-603 | the last entry for a key decides its value |
| ProjectLoad.LoadIntoAsWrittenRule | v0.62.36_strippedBuild_GIF_v039.py:598-611 | the loop as written raises iff some entry is a bare name not containing "type"; it then leaves only the entries before the first such one loaded, and otherwise agrees with the corrected loop |
| ProjectLoad.FirstBreak | v0.62.36_strippedBuild_GIF_v039.py:598-603 | the index of the first entry the loop as written raises on, or the length; no earlier entry raises |
| ProjectLoad.LoadIntoUpToBreak | v0.62.36_strippedBuild_GIF_v039.py:598-611 | the loop as written raises iff it meets such an entry and keeps exactly the entries before it |
| ProjectLoad.BareNameRaises | v0.62.36_strippedBuild_GIF_v039.py:598-603 | the file entry `"0": "Walk"` leaves no key frames as written, but a start key named "Walk" once corrected |
| LegacyMotion.IndexOfIncreasing | Gif_Animation_Sampler_v0515.py:870 | `sorted_keys.index(k)` of an increasing list is the position of `k` |
| LegacyMotion.MotionSpan | Gif_Animation_Sampler_v0515.py:853-880 | `_get_motion_segment_for_frame`; `LegacyMotion.SegmentRule` characterises it |
| LegacyMotion.StartKey | Gif_Animation_Sampler_v0515.py:882-914 | the start key of the motion of a frame; `LegacyMotion.StartKeyRule` characterises it |
| LegacyMotion.NextTarget | Gif_Animation_Sampler_v0515.py:1063-1073 | the key after the start key; `LegacyMotion.NextPrevInverse` and `LegacyMotion.TargetsAreKeys` relate it |
| LegacyMotion.PrevTarget | Gif_Animation_Sampler_v0515.py:1112-1122 | the key before the start key; `LegacyMotion.NextPrevInverse` and `LegacyMotion.TargetsAreKeys` relate it |
| LegacyMotion.AdvanceTarget | Gif_Animation_Sampler_v0515.py:989-1000 | the frame a tick moves to; `LegacyMotion.AdvanceInRange` bounds it |
| LegacyMotion.WheelTarget | Gif_Animation_Sampler_v0515.py:1314-1322 | the frame a wheel turn selects; `LegacyMotion.WheelInRange` bounds it |
| LegacyMotion.MotionSegmentForFrame | Gif_Animation_Sampler_v0515.py:853-880 | the loop over the sorted keys returns `MotionSpan` |
| LegacyMotion.SegmentRule | Gif_Animation_Sampler_v0515.py:853-880 | there is no segment iff the frame is before every key, or past the frames and at or after every key; otherwise the segment starts at the greatest key at or below the frame and ends at the frame before the next key, or at the last frame |
| LegacyMotion.SegmentHasOneKey | Gif_Animation_Sampler_v0515.py:853-880 | no key lies after a segment's start and at or before its end |
| LegacyMotion.SegmentConstant | Gif_Animation_Sampler_v0515.py:853-880 | every frame of a segment finds the same segment |
| LegacyMotion.SegmentCovers | Gif_Animation_Sampler_v0515.py:853-880 | every frame from the first key on is in some segment |
| LegacyMotion.StartKeyRule | Gif_Animation_Sampler_v0515.py:882-914 | the motion start key is the greatest key at or below the frame; there is none iff the frame is below every key, or it is the last key and past the frames |
| LegacyMotion.StartKeyOfFrame | Gif_Animation_Sampler_v0515.py:882-914 | for a frame in range, there is no start key iff the frame is below every key |
| LegacyMotion.StartKeyOfSegment | Gif_Animation_Sampler_v0515.py:882-914 | the start key of a frame is the start of its segment |
| LegacyMotion.NextPrevInverse | Gif_Animation_Sampler_v0515.py:1063-1073 | from a key, the next button then the previous button (or the other way round) returns to it |
| LegacyMotion.TargetsAreKeys | Gif_Animation_Sampler_v0515.py:1112-1122 | both buttons always target a key, and a different key when there are at least two |
| LegacyMotion.AdvanceInRange | Gif_Animation_Sampler_v0515.py:989-1000 | the next frame is within the frames; with a loop it stays in the loop, and without one it is the current frame plus one, wrapping at the end |
| LegacyMotion.WheelInRange | Gif_Animation_Sampler_v0515.py:1314-1322 | the wheel moves the selection one frame (down for a negative delta, up for a positive one), staying within the frames |
| LegacyPlayback.SelectSane | Gif_Animation_Sampler_v06302-fix2.py:2615-2660 | selecting keeps the attributes sane and selects an in-range index; an index out of range changes nothing |
| LegacyPlayback.Select | Gif_Animation_Sampler_v06302-fix2.py:2615-2660 | `select_frame`; `LegacyPlayback.SelectSane` states its effect |
| LegacyPlayback.Resume | Gif_Animation_Sampler_v0515.py:916-953 | `_update_playback_context_and_resume`; `LegacyPlayback.ResumeSane` states its effect |
| LegacyPlayback.Advance | Gif_Animation_Sampler_v0515.py:984-1006 | `_advance_frame`; `LegacyPlayback.AdvanceSane` states its effect |
| LegacyPlayback.Navigate | Gif_Animation_Sampler_v0515.py:1039-1135 | the motion buttons; `LegacyPlayback.NavigateSane` states their effect |
| LegacyPlayback.Wheel | Gif_Animation_Sampler_v0515.py:1314-1322 | the wheel handler; `LegacyPlayback.WheelSane` states its effect |
| LegacyPlayback.SelectByOffset | Gif_Animation_Sampler_v06302-fix2.py:871-879 | `select_frame_by_offset`; `LegacyPlayback.SelectByOffsetRule` states its effect |
| LegacyPlayback.PlayPause | Gif_Animation_Sampler_v0515.py:955-982 | `_on_play_pause_toggled`; `LegacyPlayback.PlayPauseSane` states its effect |
| LegacyPlayback.LoopToggled | Gif_Animation_Sampler_v0515.py:1019-1037 | `_on_loop_toggled`; `LegacyPlayback.LoopToggledSane` states its effect |
| LegacyPlayback.ResumeSane | Gif_Animation_Sampler_v0515.py:916-953 | resuming moves the cursor to the target and plays iff it is a frame; it loops iff the loop button is on and the target is in a segment, and then the loop is that segment and contains the cursor |
| LegacyPlayback.AdvanceSane | Gif_Animation_Sampler_v0515.py:984-1006 | a tick keeps the attributes sane and moves a running cursor to the frame `AdvanceTarget` gives, inside the active loop if any |
| LegacyPlayback.JumpToSane | Gif_Animation_Sampler_v0515.py:1075-1083 | jumping to a motion puts the cursor on the target and keeps the playing state |
| LegacyPlayback.NavigateSane | Gif_Animation_Sampler_v0515.py:1039-1135 | the motion buttons move the cursor to the key after (before) the start key of the current motion, and keep the playing state |
| LegacyPlayback.WheelSane | Gif_Animation_Sampler_v0515.py:1314-1322 | the wheel selects the wheel target when it differs from the current frame, and otherwise changes nothing |
| LegacyPlayback.PlayPauseSane | Gif_Animation_Sampler_v0515.py:955-982 | pressing play starts playback at the play start frame; releasing it, or having no frames, only stops playback |
| LegacyPlayback.LoopToggledSane | Gif_Animation_Sampler_v0515.py:1019-1037 | the loop button state is recorded and the cursor kept; unchecking ends the loop, and checking it while playing loops iff the cursor is in a segment |
| LegacyPlayback.SelectByOffsetRule | Gif_Animation_Sampler_v06302-fix2.py:871-879 | the selection moves by the offset, or nothing changes when there is no selection or the new index is out of range |
| LegacyWindow.Sampler.constructor | Gif_Animation_Sampler_v0515.py:212-250 | a new window has no frames, no key frames, no selection and no playback |
| LegacyWindow.Sampler.StopPlayback | Gif_Animation_Sampler_v0515.py:1008-1017 | the attributes become `Stop` of the old ones |
| LegacyWindow.Sampler.SelectFrame | Gif_Animation_Sampler_v0515.py:1873-1920 | the attributes become `Select` of the old ones, which `LegacyPlayback.SelectSane` describes |
| LegacyWindow.Sampler.UpdatePlaybackContextAndResume | Gif_Animation_Sampler_v0515.py:916-953 | the attributes become `Resume` of the old ones, which `LegacyPlayback.ResumeSane` describes |
| LegacyWindow.Sampler.LoopMotion | Gif_Animation_Sampler_v0515.py:925-941 | with the loop button checked, looping covers the motion of the cursor, moving the cursor to its start when outside; with no motion, looping ends |
| LegacyWindow.Sampler.PlayPauseToggled | Gif_Animation_Sampler_v0515.py:955-982 | the attributes become `PlayPause` of the old ones |
| LegacyWindow.Sampler.LoopToggled | Gif_Animation_Sampler_v0515.py:1019-1037 | the attributes become `LoopToggled` of the old ones |
| LegacyWindow.Sampler.AdvanceFrame | Gif_Animation_Sampler_v0515.py:984-1006 | the attributes become `Advance` of the old ones |
| LegacyWindow.Sampler.MotionButtonClicked | Gif_Animation_Sampler_v0515.py:1039-1135 | the attributes become `Navigate` of the old ones |
| LegacyWindow.Sampler.JumpToMotion | Gif_Animation_Sampler_v0515.py:1075-1083 | with the timer stopped, the attributes become `JumpTo` of the old ones |
| LegacyWindow.Sampler.WheelTurned | Gif_Animation_Sampler_v0515.py:1314-1322 | the attributes become `Wheel` of the old ones |
| LegacyWindow.Sampler.SelectFrameByOffset | Gif_Animation_Sampler_v06302-fix2.py:871-879 | the attributes become `SelectByOffset` of the old ones |
| LegacyWindow.Sampler.AddKeyframe | Gif_Animation_Sampler_v0515.py:1949-1959 | the stripped name becomes the selected frame's motion and the project is marked unsaved; an empty name or no selection changes nothing |
| LegacyWindow.Sampler.RemoveKeyframe | Gif_Animation_Sampler_v0515.py:1961-1968 | the selected frame stops being a key frame and the project is marked unsaved; otherwise nothing changes |
| LegacyWindow.Sampler.LoadGif | Gif_Animation_Sampler_v0515.py:1487-1535 | a new project: the project file's key frames, stopped, saved, and frame 0 selected when there are frames |
| PyText.Strip | Gif_Animation_Sampler_v0515.py:1950 | the stripped text is empty iff the text is all white space; otherwise it neither starts nor ends with white space |
| PyText.StripRemovesSpaceOnly | Gif_Animation_Sampler_v0515.py:1950 | stripping removes only white space, from both ends |
| PyText.StripKeeps | Gif_Animation_Sampler_v0515.py:1950 | a text without white space at its ends is unchanged |
| PyText.StripIdempotent | Gif_Animation_Sampler_v0515.py:1950 | stripping twice is stripping once |
| StyleSheet.FirstMatch | Gif_Animation_Sampler_v0515.py:100-105 | `re.search` finds the leftmost match of the background-colour pattern, or reports none |
| StyleSheet.ExtractBackground | Gif_Animation_Sampler_v0515.py:100-105 | `_extract_background_color_hex`; `StyleSheet.ExtractBackgroundRule` characterises it |
| StyleSheet.Replace | Gif_Animation_Sampler_v0515.py:108-122 | the background-colour substitution; `StyleSheet.ReplaceThenExtract` and `StyleSheet.ReplaceIdempotent` relate it to extraction and to itself |
| StyleSheet.ExtractBackgroundRule | Gif_Animation_Sampler_v0515.py:100-105 | a colour is found iff the pattern matches; it is the seven-character `#rrggbb` of the leftmost match |
| StyleSheet.FirstIndex | Gif_Animation_Sampler_v06302-fix2.py:409 | the position of the first `{`, or the length when there is none |
| StyleSheet.LastIndex | Gif_Animation_Sampler_v06302-fix2.py:409 | the position of the last `}`, or -1 when there is none |
| StyleSheet.SearchArea | Gif_Animation_Sampler_v06302-fix2.py:409-410 | the text between the first `{` and the last `}` after it, or the whole text when there is no such pair |
| StyleSheet.ExtractInBraces | Gif_Animation_Sampler_v06302-fix2.py:405-415 | the later revision searches only inside the braces; a colour it finds is a valid `#rrggbb` |
| StyleSheet.ExtractWithoutBraces | Gif_Animation_Sampler_v06302-fix2.py:405-415 | without braces, the later revision extracts as the earlier one does |
| StyleSheet.ReplaceOnlyFirst | Gif_Animation_Sampler_v0515.py:108-122 | when the property is present, only the seven characters of its first colour change, to the new colour |
| StyleSheet.ReplaceAppendsColour | Gif_Animation_Sampler_v0515.py:108-122 | when the property is absent, it is appended with the new colour and found afterwards |
| StyleSheet.ReplaceLeavesColourFirst | Gif_Animation_Sampler_v0515.py:108-122 | after a replacement, the first match carries the new colour |
| StyleSheet.ReplaceKeepsFirstMatch | Gif_Animation_Sampler_v0515.py:108-122 | replacing the colour of an existing first match keeps it the first match, at the same place, now with the new colour |
| StyleSheet.ReplaceEmpty | Gif_Animation_Sampler_v0515.py:108-122 | an empty style becomes the single declaration with the new colour |
| StyleSheet.TerminatedEnds | Gif_Animation_Sampler_v0515.py:120-121 | after the `;` is added, the stripped style ends with `;` |
| StyleSheet.TerminatedHasNoMatch | Gif_Animation_Sampler_v0515.py:120-121 | adding the `;` creates no match |
| StyleSheet.AppendedAfter | Gif_Animation_Sampler_v0515.py:122 | appended after text without a match, the new declaration is the first match and carries the new colour |
| StyleSheet.NoMatchBeforeAppended | Gif_Animation_Sampler_v0515.py:122 | appending a declaration creates no match that starts inside the old text |
| StyleSheet.MatchStopsAtSemicolon | Gif_Animation_Sampler_v0515.py:103 | a match never reaches past a `;` |
| StyleSheet.ReplaceThenExtract | Gif_Animation_Sampler_v0515.py:100-122 | extracting after replacing gives the new colour |
| StyleSheet.ExtractFirst | Gif_Animation_Sampler_v0515.py:100-105 | when the first match carries a colour, extraction yields exactly that colour |
| StyleSheet.ReplaceIdempotent | Gif_Animation_Sampler_v0515.py:108-122 | replacing twice with the same colour is replacing once |
| FrameFormat.Digits | Gif_Animation_Sampler_v0515.py:400-406 | decimal digits without leading zeros; one digit iff the number is below 10 |
| FrameFormat.Format | Gif_Animation_Sampler_v0515.py:400-406 | `_format_frame_number`; `FrameFormat.ParseFormat` inverts it |
| FrameFormat.ParseFormat | Gif_Animation_Sampler_v0515.py:400-406 | every frame label reads back as its frame index |
| FrameFormat.PadValue | Gif_Animation_Sampler_v0515.py:400-406 | zero-padding keeps a digit string digits and keeps its value |
| FrameFormat.FormatInjective | Gif_Animation_Sampler_v0515.py:400-406 | distinct frames get distinct labels |
| FrameFormat.FormatLength | Gif_Animation_Sampler_v0515.py:400-406 | labels of indexes below 100, 1000 and 10000 have 3, 4 and 5 characters and end with `F` |

## Left out

- **Out of the model entirely:**
  - The Qt widgets, their icons, styles and status messages.
  - Image decoding, preview, zoom and export (PIL, ImageMagick).
  - JSON and file I/O.
  - Dialogs that ask the user a question.
- **What stands in for them:**
  - A loaded GIF becomes its frame count.
  - A project file becomes the list of its key-frame entries (`entries`, `project`).
  - A dialog becomes its `Answer`.
- **Timer.** The playback timer becomes one method call per timeout. The
  frame delays, and the `IndexError` a bad delay lookup could raise, are
  not modelled.
- **Play button and timer.** `playing` stands for both the checked play
  button and the running timer; the source keeps them in step. The Qt
  signals that `setChecked` re-emits into the toggled handlers are not
  modelled; the handlers are modelled as called directly.
- **Key frames by revision.** In the newest revision, `int(k)` on the keys
  of a project file is taken as already done: keys are integers. In the
  older revisions a key frame is a name only.
  - The dialog-based renaming of `edit_motion_name` is not modelled.
  - Neither are the newer revision's multi-selection editing and shortcut
    dialogs.
- **Previews and styles.** `force_refresh` and everything that only redraws
  (frame button styles, motion lists, labels) are not modelled.
- **StyleSheet.** The colour that is substituted is assumed to be a plain
  `#rrggbb`, so `re.sub` replacement-template escapes never arise. Colours
  that are not of that form are not modelled.
- **Window.Sampler.LoadFrames** models `_load_gif_from_path` after a
  successful load. The unsaved-changes prompt and the error path, which
  resets the project, are not modelled. The `.gifproj` file beside the GIF
  is the parameter `side`, with its keys converted by `int(k)` (so two
  keys naming the same number are already merged). Its values are stored
  unconverted; a value that is a bare name or lacks a field is not
  modelled, because a `Keyframe` always carries all four.
- **LegacyWindow.Sampler.LoadGif** models `load_gif_file` after a successful
  load. The file dialog and the unsaved-changes prompt are not modelled.
- **Window.Sampler.OpenKeyframeDialog** takes the user's answer as a
  parameter. The dialog's widgets are modelled only through the fields
  `get_data` reads.

## Findings

| source | as written | input that shows it | evidently intended | confidence | as-written member | corrected member |
|---|---|---|---|---|---|---|
| v0.62.36_strippedBuild_GIF_v039.py:598-603 | The upgrade loop tests `'type' not in v` before the `isinstance(v, str)` check. For a bare-name entry this is a substring test. Unless the name contains "type", the loop then assigns into a string, which raises. The `except` then reports an error with the map already cleared and only the earlier entries loaded. | a project file with `"keyframes": {"0": "Walk"}` | A bare name is upgraded to a start key named after it, with loop 0 and unlocked, as the `isinstance` branch intends. | not executed | ProjectLoad.LoadAsWritten, ProjectLoad.BareNameRaises | ProjectLoad.Load, Window.Sampler.LoadSettings |
