/**
 * Default motion names of the newest revision
 * (v0.62.36_strippedBuild_GIF_v039.py): the bijective base-26 suffix
 * A, B, ..., Z, AA, AB, ... and the first name "모션" + suffix that no
 * keyframe uses yet.
 */
module Naming {
  import opened Keyframes

  /** The prefix of every generated motion name, "모션". */
  const MotionPrefix: string := "\U{BAA8}\U{C158}"

  /** `chars[k]` for `chars = "ABCDEFGHIJKLMNOPQRSTUVWXYZ"`. */
  function Letter(k: int): (c: char)
    requires 0 <= k < 26
    ensures 'A' <= c <= 'Z' && c as int - 'A' as int == k
  {
    ('A' as int + k) as char
  }

  predicate IsLetters(s: string)
  {
    forall n :: 0 <= n < |s| ==> 'A' <= s[n] <= 'Z'
  }

  /**
   * The string `_generate_next_suffix(i)` builds: empty for a negative
   * index, otherwise the suffix of `i / 26 - 1` followed by the letter
   * for `i % 26`.
   */
  function Suffix(i: int): (s: string)
    ensures IsLetters(s)
    ensures s == [] <==> i < 0
    decreases i
  {
    if i < 0 then "" else Suffix(i / 26 - 1) + [Letter(i % 26)]
  }

  /** The index a suffix stands for: the inverse of `Suffix`, with -1 for the empty string. */
  function Value(s: string): (v: int)
    requires IsLetters(s)
    ensures -1 <= v && (v == -1 <==> s == [])
  {
    if s == [] then -1
    else 26 * (Value(s[..|s| - 1]) + 1) + (s[|s| - 1] as int - 'A' as int)
  }

  /** `_generate_next_suffix(i)`: prepend one letter per base-26 digit. */
  method NextSuffix(i: int) returns (s: string)
    ensures s == Suffix(i)
  {
    if i < 0 {
      return "";
    }
    s := "";
    var n := i;
    while n >= 0
      invariant -1 <= n
      invariant Suffix(n) + s == Suffix(i)
      decreases n + 1
    {
      assert Suffix(n) == Suffix(n / 26 - 1) + [Letter(n % 26)];
      s := [Letter(n % 26)] + s;
      n := n / 26 - 1;
    }
  }

  /** Every index from -1 on is recovered from its suffix. */
  lemma {:induction false} ValueOfSuffix(i: int)
    requires -1 <= i
    ensures Value(Suffix(i)) == i
    decreases i + 1
  {
    if i >= 0 {
      var q := i / 26 - 1;
      ValueOfSuffix(q);
      var s := Suffix(i);
      assert s[..|s| - 1] == Suffix(q);
    }
  }

  /** Every string of capital letters is the suffix of exactly the index it stands for. */
  lemma {:induction false} SuffixOfValue(s: string)
    requires IsLetters(s)
    ensures Suffix(Value(s)) == s
    decreases |s|
  {
    if s != [] {
      var p := s[..|s| - 1];
      SuffixOfValue(p);
      var d := s[|s| - 1] as int - 'A' as int;
      var v := Value(s);
      assert v / 26 - 1 == Value(p) && v % 26 == d;
      assert s == p + [s[|s| - 1]];
    }
  }

  /** Distinct indexes from 0 on get distinct suffixes. */
  lemma SuffixInjective(i: int, j: int)
    requires 0 <= i && 0 <= j && Suffix(i) == Suffix(j)
    ensures i == j
  {
    ValueOfSuffix(i);
    ValueOfSuffix(j);
  }

  /** The `i`-th candidate of `_generate_next_motion_name`. */
  function MotionName(i: int): string
  {
    MotionPrefix + Suffix(i)
  }

  /** Distinct indexes from 0 on give distinct names. */
  lemma MotionNameInjective(i: int, j: int)
    requires 0 <= i && 0 <= j && MotionName(i) == MotionName(j)
    ensures i == j
  {
    assert MotionName(i)[|MotionPrefix|..] == Suffix(i);
    assert MotionName(j)[|MotionPrefix|..] == Suffix(j);
    SuffixInjective(i, j);
  }

  /** The first `n` candidates. */
  ghost function NamesBelow(n: nat): set<string>
  {
    if n == 0 then {} else NamesBelow(n - 1) + {MotionName(n - 1)}
  }

  /** A later candidate is none of the earlier ones. */
  lemma {:induction false} LaterNameIsNew(n: nat, m: int)
    requires n <= m
    ensures MotionName(m) !in NamesBelow(n)
  {
    if n > 0 {
      LaterNameIsNew(n - 1, m);
      if MotionName(m) == MotionName(n - 1) {
        MotionNameInjective(m, n - 1);
      }
    }
  }

  /** The first `n` candidates are `n` distinct names. */
  lemma {:induction false} NamesBelowCount(n: nat)
    ensures forall j :: 0 <= j < n ==> MotionName(j) in NamesBelow(n)
    ensures |NamesBelow(n)| == n
  {
    if n > 0 {
      NamesBelowCount(n - 1);
      LaterNameIsNew(n - 1, n - 1);
    }
  }

  /** When every one of the first `n` candidates is taken, there are at least `n` names. */
  lemma {:induction false} TakenNamesCount(n: nat, existing: set<string>)
    requires forall j :: 0 <= j < n ==> MotionName(j) in existing
    ensures NamesBelow(n) <= existing && n <= |existing|
  {
    if n > 0 {
      TakenNamesCount(n - 1, existing);
    }
    NamesBelowCount(n);
    SubsetCount(NamesBelow(n), existing);
  }

  lemma SubsetCount<T>(a: set<T>, b: set<T>)
    requires a <= b
    ensures |a| <= |b|
  {
    assert b == a + (b - a);
  }

  /** `existing_names`: the names of all keyframe records. */
  function ExistingNames(kf: KeyMap): (r: set<string>)
    ensures forall k :: k in kf ==> kf[k].name in r
    ensures forall s :: s in r ==> exists k :: k in kf && kf[k].name == s
  {
    set k | k in kf :: kf[k].name
  }

  /** `name` is the first candidate not in `existing`. */
  ghost predicate IsFirstFree(existing: set<string>, name: string)
  {
    exists i: nat :: (name == MotionName(i) && name !in existing
      && forall j :: 0 <= j < i ==> MotionName(j) in existing)
  }

  /** There is only one first free candidate. */
  lemma FirstFreeUnique(existing: set<string>, a: string, b: string)
    requires IsFirstFree(existing, a) && IsFirstFree(existing, b)
    ensures a == b
  {
    var i: nat :| a == MotionName(i) && a !in existing && forall j :: 0 <= j < i ==> MotionName(j) in existing;
    var k: nat :| b == MotionName(k) && b !in existing && forall j :: 0 <= j < k ==> MotionName(j) in existing;
    assert !(i < k) && !(k < i);
  }

  /**
   * The loop of `_generate_next_motion_name`: the candidates are tried in order, so the
   * result is the first one not in `existing`; it is found after at most
   * `|existing|` misses.
   */
  method NextMotionName(existing: set<string>) returns (name: string, index: nat)
    ensures name == MotionName(index) && name !in existing
    ensures forall j :: 0 <= j < index ==> MotionName(j) in existing
    ensures index <= |existing|
  {
    index := 0;
    while true
      invariant forall j :: 0 <= j < index ==> MotionName(j) in existing
      invariant index <= |existing|
      decreases |existing| - index
    {
      var suffix := NextSuffix(index);
      name := MotionPrefix + suffix;
      if name !in existing {
        return;
      }
      TakenNamesCount(index + 1, existing);
      index := index + 1;
    }
  }
}
