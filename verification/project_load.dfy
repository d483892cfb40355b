/**
 * The keyframe part of `load_settings` in the newest revision
 * (v0.62.36_strippedBuild_GIF_v039.py): older project files store a bare
 * motion name per key, newer ones a record, possibly without its type.
 * The loop upgrades every value to a full record.
 *
 * As written, the loop asks `'type' not in v` before it checks whether `v`
 * is a string; on a string that is a substring test, and the assignment
 * `v['type'] = 1` that follows raises. The load then stops with the map
 * already cleared and only the entries before the bare name loaded.
 * `LoadAsWritten` models that; `Load` is the intended upgrade, used by the
 * main window.
 */
module ProjectLoad {
  import opened Keyframes

  /** A keyframe value as read from the project file (keys already converted by `int(k)`). */
  datatype Raw = Bare(name: string) | Record(data: Keyframe, hasType: bool)

  /** `sub` occurs in `s` at position `i`. */
  predicate OccursAt(s: string, sub: string, i: int)
  {
    0 <= i && i + |sub| <= |s| && s[i..i + |sub|] == sub
  }

  /** Python's `sub in s` on strings. */
  predicate Contains(s: string, sub: string)
  {
    exists i :: 0 <= i <= |s| && OccursAt(s, sub, i)
  }

  /** The upgraded record: a bare name becomes a Start key with loop 0, unlocked; a record without a type gets type 1. */
  function Upgrade(v: Raw): (r: Keyframe)
    ensures v.Bare? ==> r == Keyframe(v.name, START, 0, false)
    ensures v.Record? ==> r == v.data.(kind := if v.hasType then v.data.kind else START)
  {
    match v
    case Bare(name) => Keyframe(name, START, 0, false)
    case Record(data, hasType) => if hasType then data else data.(kind := START)
  }

  /** A record written with its type reads back as itself. */
  lemma UpgradeSaved(k: Keyframe)
    ensures Upgrade(Record(k, true)) == k
  {
  }

  /**
   * The keyframe entries `save_settings` writes for `kf`, one per key in
   * the order `keys` lists them; every value is a full record, type included.
   */
  function Saved(kf: KeyMap, keys: seq<int>): (r: seq<(int, Raw)>)
    requires forall n :: 0 <= n < |keys| ==> keys[n] in kf
    ensures |r| == |keys|
    ensures forall n :: 0 <= n < |r| ==> r[n].0 == keys[n] && r[n].1.Record? && r[n].1.hasType
  {
    if keys == [] then [] else [(keys[0], Record(kf[keys[0]], true))] + Saved(kf, keys[1..])
  }

  /**
   * Loading saved entries of `kf` over a part of `kf` that, together with
   * the saved keys, covers it gives back `kf`.
   */
  lemma {:induction false} LoadIntoSaved(acc: KeyMap, kf: KeyMap, keys: seq<int>)
    requires forall n :: 0 <= n < |keys| ==> keys[n] in kf
    requires forall k :: k in acc ==> k in kf && acc[k] == kf[k]
    requires forall k :: k in kf ==> k in acc || k in keys
    ensures LoadInto(acc, Saved(kf, keys)) == kf
    decreases |keys|
  {
    if keys == [] {
      forall k ensures k in acc <==> k in kf {
        assert k !in keys;
      }
      assert forall k :: k in acc ==> acc[k] == kf[k];
      assert acc == kf;
    } else {
      var k0 := keys[0];
      assert Saved(kf, keys)[0] == (k0, Record(kf[k0], true));
      assert Saved(kf, keys)[1..] == Saved(kf, keys[1..]);
      UpgradeSaved(kf[k0]);
      forall k | k in kf ensures k in acc[k0 := kf[k0]] || k in keys[1..] {
        if k !in acc && k != k0 {
          var n :| 0 <= n < |keys| && keys[n] == k;
          assert keys[1..][n - 1] == k;
        }
      }
      LoadIntoSaved(acc[k0 := kf[k0]], kf, keys[1..]);
    }
  }

  /**
   * Saving and loading again gives back the same keyframes, both for the
   * intended load and for the loop as written: saved values are records
   * with a type, which the as-written loop handles.
   */
  lemma SaveThenLoad(kf: KeyMap, keys: seq<int>)
    requires forall n :: 0 <= n < |keys| ==> keys[n] in kf
    requires forall k :: k in kf ==> k in keys
    ensures Load(Saved(kf, keys)) == kf
    ensures LoadAsWritten(Saved(kf, keys)) == Loaded(kf, false)
  {
    LoadIntoSaved(map[], kf, keys);
    LoadIntoAsWrittenRule(map[], Saved(kf, keys));
  }

  /** The entries of `rest` stored, in order, into `acc`. */
  function LoadInto(acc: KeyMap, rest: seq<(int, Raw)>): KeyMap
    decreases |rest|
  {
    if rest == [] then acc else LoadInto(acc[rest[0].0 := Upgrade(rest[0].1)], rest[1..])
  }

  /** The intended keyframe map: every entry upgraded, later entries for the same key winning. */
  function Load(entries: seq<(int, Raw)>): KeyMap
  {
    LoadInto(map[], entries)
  }

  /** The keys of the entries. */
  function KeysOf(entries: seq<(int, Raw)>): set<int>
  {
    set n | 0 <= n < |entries| :: entries[n].0
  }

  lemma {:induction false} LoadIntoDomain(acc: KeyMap, rest: seq<(int, Raw)>)
    ensures LoadInto(acc, rest).Keys == acc.Keys + KeysOf(rest)
    decreases |rest|
  {
    if rest != [] {
      LoadIntoDomain(acc[rest[0].0 := Upgrade(rest[0].1)], rest[1..]);
      assert KeysOf(rest) == {rest[0].0} + KeysOf(rest[1..]) by {
        forall k | k in KeysOf(rest) ensures k in {rest[0].0} + KeysOf(rest[1..]) {
          var n :| 0 <= n < |rest| && rest[n].0 == k;
          if n > 0 { assert rest[1..][n - 1].0 == k; }
        }
      }
    }
  }

  /** A key no later entry mentions keeps its value. */
  lemma {:induction false} LoadIntoKeeps(acc: KeyMap, rest: seq<(int, Raw)>, k: int)
    requires k in acc && k !in KeysOf(rest)
    ensures k in LoadInto(acc, rest) && LoadInto(acc, rest)[k] == acc[k]
    decreases |rest|
  {
    if rest != [] {
      assert rest[0].0 in KeysOf(rest);
      assert KeysOf(rest[1..]) <= KeysOf(rest) by {
        forall j | j in KeysOf(rest[1..]) ensures j in KeysOf(rest) {
          var n :| 0 <= n < |rest[1..]| && rest[1..][n].0 == j;
          assert rest[n + 1].0 == j;
        }
      }
      LoadIntoKeeps(acc[rest[0].0 := Upgrade(rest[0].1)], rest[1..], k);
    }
  }

  /** The loaded map holds exactly the keys of the file. */
  lemma LoadDomain(entries: seq<(int, Raw)>)
    ensures Load(entries).Keys == KeysOf(entries)
  {
    LoadIntoDomain(map[], entries);
  }

  /** The value loaded for a key is the upgrade of the last entry for it. */
  lemma {:induction false} LoadLastWins(entries: seq<(int, Raw)>, n: nat)
    requires n < |entries|
    requires forall m :: n < m < |entries| ==> entries[m].0 != entries[n].0
    ensures entries[n].0 in Load(entries) && Load(entries)[entries[n].0] == Upgrade(entries[n].1)
  {
    LoadIntoSplit(map[], entries, n);
    var acc := LoadInto(map[], entries[..n])[entries[n].0 := Upgrade(entries[n].1)];
    var rest := entries[n + 1..];
    forall m | 0 <= m < |rest| ensures rest[m].0 != entries[n].0 {
      assert rest[m] == entries[n + 1 + m];
    }
    assert entries[n].0 !in KeysOf(rest);
    LoadIntoKeeps(acc, rest, entries[n].0);
  }

  /** Loading runs entry by entry: loading `entries` is loading its first `n` and then the rest. */
  lemma {:induction false} LoadIntoSplit(acc: KeyMap, entries: seq<(int, Raw)>, n: nat)
    requires n < |entries|
    ensures LoadInto(acc, entries)
      == LoadInto(LoadInto(acc, entries[..n])[entries[n].0 := Upgrade(entries[n].1)], entries[n + 1..])
    decreases n
  {
    if n > 0 {
      LoadIntoSplit(acc[entries[0].0 := Upgrade(entries[0].1)], entries[1..], n - 1);
      assert entries[1..][..n - 1] == entries[..n][1..];
      assert entries[1..][n - 1] == entries[n];
      assert entries[1..][n..] == entries[n + 1..];
    } else {
      assert entries[..0] == [];
      assert entries[1..] == entries[n + 1..];
    }
  }

  /** The outcome of the loop as written: the map it leaves and whether it raised. */
  datatype Loaded = Loaded(keyframes: KeyMap, raised: bool)

  /** The loop as written, from `acc` over `rest`. */
  function LoadIntoAsWritten(acc: KeyMap, rest: seq<(int, Raw)>): Loaded
    decreases |rest|
  {
    if rest == [] then Loaded(acc, false)
    else if rest[0].1.Bare? && !Contains(rest[0].1.name, "type") then Loaded(acc, true)
    else LoadIntoAsWritten(acc[rest[0].0 := Upgrade(rest[0].1)], rest[1..])
  }

  /** `load_settings` as written, on a cleared map. */
  function LoadAsWritten(entries: seq<(int, Raw)>): Loaded
  {
    LoadIntoAsWritten(map[], entries)
  }

  /** A bare name on which the substring test lets the item assignment run. */
  predicate Breaks(v: Raw)
  {
    v.Bare? && !Contains(v.name, "type")
  }

  /** The index of the first entry the loop as written breaks on, or `|rest|`. */
  function FirstBreak(rest: seq<(int, Raw)>): (n: nat)
    ensures n <= |rest| && (n < |rest| ==> Breaks(rest[n].1))
    ensures forall m :: 0 <= m < n ==> !Breaks(rest[m].1)
  {
    if rest == [] || Breaks(rest[0].1) then 0
    else
      var n := FirstBreak(rest[1..]);
      assert forall m :: 0 < m < n + 1 ==> rest[m] == rest[1..][m - 1];
      n + 1
  }

  /** The loop as written stores the entries before the first one it breaks on, and raises when there is one. */
  lemma {:induction false} LoadIntoUpToBreak(acc: KeyMap, rest: seq<(int, Raw)>)
    ensures var r := LoadIntoAsWritten(acc, rest);
      r.raised == (FirstBreak(rest) < |rest|) && r.keyframes == LoadInto(acc, rest[..FirstBreak(rest)])
    decreases |rest|
  {
    if rest != [] {
      if Breaks(rest[0].1) {
        assert rest[..0] == [];
      } else {
        var acc1 := acc[rest[0].0 := Upgrade(rest[0].1)];
        LoadIntoUpToBreak(acc1, rest[1..]);
        var n := FirstBreak(rest[1..]);
        assert FirstBreak(rest) == n + 1;
        var front := rest[..n + 1];
        assert front[0] == rest[0] && front[1..] == rest[1..][..n];
        assert LoadInto(acc, front) == LoadInto(acc1, front[1..]);
      }
    }
  }

  /**
   * As written, the loop raises exactly when some entry is a bare name not
   * containing "type"; it then leaves the entries before the first such
   * entry loaded, and otherwise agrees with `Load`.
   */
  lemma LoadIntoAsWrittenRule(acc: KeyMap, rest: seq<(int, Raw)>)
    ensures var r := LoadIntoAsWritten(acc, rest);
      && (r.raised <==> exists n :: 0 <= n < |rest| && Breaks(rest[n].1))
      && (!r.raised ==> r.keyframes == LoadInto(acc, rest))
      && (r.raised ==> exists n :: (0 <= n < |rest| && Breaks(rest[n].1)
            && (forall m :: 0 <= m < n ==> !Breaks(rest[m].1))
            && r.keyframes == LoadInto(acc, rest[..n])))
  {
    LoadIntoUpToBreak(acc, rest);
    var n := FirstBreak(rest);
    if n == |rest| {
      assert rest[..n] == rest;
    }
  }

  /** The smallest input that shows the defect: one bare name without "type". */
  lemma BareNameRaises()
    ensures LoadAsWritten([(0, Bare("Walk"))]) == Loaded(map[], true)
    ensures Load([(0, Bare("Walk"))]) == map[0 := Keyframe("Walk", START, 0, false)]
  {
    var s := "Walk";
    forall i ensures !OccursAt(s, "type", i) {
      if 0 <= i && i + 4 <= |s| {
        assert s[i..i + 4][0] != 't';
      }
    }
  }
}
