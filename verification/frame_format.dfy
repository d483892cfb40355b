/**
 * `_format_frame_number` of the older revisions: a frame index as a
 * zero-padded decimal number followed by `F`, padded to two digits below
 * 100, to three below 1000 and to four otherwise. Python's `{n:0wd}` puts
 * the sign before the padding, and every negative index is below 100, so a
 * negative index is written as `-`, its digits, and `F`.
 */
module FrameFormat {
  /** The decimal digit for `d`. */
  function DigitChar(d: int): (c: char)
    requires 0 <= d < 10
    ensures '0' <= c <= '9' && c as int - '0' as int == d
  {
    ('0' as int + d) as char
  }

  predicate IsDigits(s: string)
  {
    forall q :: 0 <= q < |s| ==> '0' <= s[q] <= '9'
  }

  /** `str(n)` for `n >= 0`: the decimal digits without leading zeros. */
  function Digits(n: nat): (s: string)
    ensures s != [] && IsDigits(s)
    ensures |s| == 1 <==> n < 10
    decreases n
  {
    if n < 10 then [DigitChar(n)] else Digits(n / 10) + [DigitChar(n % 10)]
  }

  /** `k` zeros. */
  function Zeros(k: nat): (s: string)
    ensures |s| == k && IsDigits(s)
  {
    if k == 0 then "" else "0" + Zeros(k - 1)
  }

  /** `s` padded with zeros on the left to at least `w` characters. */
  function Pad(s: string, w: nat): (r: string)
    ensures |r| == if |s| < w then w else |s|
  {
    if |s| < w then Zeros(w - |s|) + s else s
  }

  /** The width `_format_frame_number` pads to. */
  function Width(n: int): nat
  {
    if n < 100 then 2 else if n < 1000 then 3 else 4
  }

  /** `_format_frame_number(n)`. */
  function Format(n: int): string
  {
    if n < 0 then "-" + Digits(-n) + "F" else Pad(Digits(n), Width(n)) + "F"
  }

  /** The number a string of decimal digits denotes (leading zeros allowed). */
  function Value(s: string): nat
    requires IsDigits(s)
  {
    if s == [] then 0 else 10 * Value(s[..|s| - 1]) + (s[|s| - 1] as int - '0' as int)
  }

  /** Reading a label back: the number before the final `F`, with an optional sign. */
  function Parse(s: string): int
  {
    if s == [] || s[|s| - 1] != 'F' then -1
    else
      var body := s[..|s| - 1];
      if body != [] && body[0] == '-' && IsDigits(body[1..]) then -(Value(body[1..]) as int)
      else if IsDigits(body) then Value(body)
      else -1
  }

  lemma {:induction false} ValueOfDigits(n: nat)
    ensures Value(Digits(n)) == n
    decreases n
  {
    if n >= 10 {
      ValueOfDigits(n / 10);
      var s := Digits(n);
      assert s[..|s| - 1] == Digits(n / 10);
    }
  }

  /** Leading zeros do not change the value. */
  lemma {:induction false} ValueOfPadded(z: nat, t: string)
    requires IsDigits(t)
    ensures Value(Zeros(z) + t) == Value(t)
    decreases |t|
  {
    if t == [] {
      assert Zeros(z) + t == Zeros(z);
      ZerosValue(z);
    } else {
      var u := Zeros(z) + t;
      assert u[..|u| - 1] == Zeros(z) + t[..|t| - 1];
      ValueOfPadded(z, t[..|t| - 1]);
    }
  }

  lemma {:induction false} ZerosValue(z: nat)
    ensures Value(Zeros(z)) == 0
  {
    if z > 0 {
      var s := Zeros(z);
      assert s == Zeros(z - 1) + "0" by { ZerosSnoc(z); }
      assert s[..|s| - 1] == Zeros(z - 1);
      ZerosValue(z - 1);
    }
  }

  lemma {:induction false} ZerosSnoc(z: nat)
    requires z > 0
    ensures Zeros(z) == Zeros(z - 1) + "0"
  {
    if z > 1 {
      ZerosSnoc(z - 1);
    }
  }

  /** Every label reads back as the index it was made from. */
  lemma ParseFormat(n: int)
    ensures Parse(Format(n)) == n
  {
    if n < 0 {
      assert Format(n) == "-" + Digits(-n) + "F";
      ValueOfDigits(-n);
      ParseSigned(Digits(-n));
    } else {
      var d := Digits(n);
      var p := Pad(d, Width(n));
      assert Format(n) == p + "F";
      ValueOfDigits(n);
      PadValue(d, Width(n));
      ParseUnsigned(p);
    }
  }

  /** Padding keeps a string of digits a string of digits with the same value. */
  lemma PadValue(d: string, w: nat)
    requires IsDigits(d)
    ensures IsDigits(Pad(d, w)) && Value(Pad(d, w)) == Value(d)
  {
    if |d| < w {
      var z := Zeros(w - |d|);
      assert IsDigits(z + d) by {
        forall q | 0 <= q < |z + d| ensures '0' <= (z + d)[q] <= '9' {
          if q < |z| { assert (z + d)[q] == z[q]; } else { assert (z + d)[q] == d[q - |z|]; }
        }
      }
      ValueOfPadded(w - |d|, d);
    }
  }

  lemma ParseSigned(d: string)
    requires IsDigits(d)
    ensures Parse("-" + d + "F") == -(Value(d) as int)
  {
    var s := "-" + d + "F";
    assert s[..|s| - 1] == "-" + d;
    assert ("-" + d)[1..] == d;
  }

  lemma ParseUnsigned(p: string)
    requires IsDigits(p)
    ensures Parse(p + "F") == Value(p)
  {
    var s := p + "F";
    assert s[..|s| - 1] == p;
  }

  /** Distinct frames get distinct labels. */
  lemma FormatInjective(m: int, n: int)
    requires Format(m) == Format(n)
    ensures m == n
  {
    ParseFormat(m);
    ParseFormat(n);
  }

  /** How many digits the indexes below 10000 have. */
  lemma {:induction false} DigitsLength(n: nat)
    ensures n < 10 ==> |Digits(n)| == 1
    ensures 10 <= n < 100 ==> |Digits(n)| == 2
    ensures 100 <= n < 1000 ==> |Digits(n)| == 3
    ensures 1000 <= n < 10000 ==> |Digits(n)| == 4
  {
    if n >= 10 {
      DigitsLength(n / 10);
    }
  }

  /** Labels of the indexes of a GIF with fewer than 10000 frames have the fixed widths 3, 4 and 5. */
  lemma FormatLength(n: int)
    ensures 0 <= n < 100 ==> |Format(n)| == 3
    ensures 100 <= n < 1000 ==> |Format(n)| == 4
    ensures 1000 <= n < 10000 ==> |Format(n)| == 5
    ensures Format(n) != [] && Format(n)[|Format(n)| - 1] == 'F'
  {
    if n >= 0 {
      DigitsLength(n);
    }
  }
}
