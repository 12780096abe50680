/** `to_base(a, base, zfill)` (utils.py): the base-`base` digits of `a`,
    most significant first, each written as Python's `str` writes a number,
    then padded on the left with '0' to `zfill` characters. The enumeration
    of colourings and of hand values reads such strings back digit by digit
    with `int(v)`. */
module Radix {
  import opened Wrappers

  /** `base ** e` */
  function Power(base: nat, e: nat): (r: nat)
    ensures base >= 1 ==> r >= 1
  {
    if e == 0 then 1 else base * Power(base, e - 1)
  }

  /** The character of a decimal digit. */
  function DigitChar(d: nat): char
    requires d < 10
  {
    (48 + d) as char
  }

  predicate IsDigitChar(c: char) {
    '0' <= c <= '9'
  }

  /** `str(v)` for a non-negative `v`. */
  function Str(v: nat): (s: string)
    ensures |s| >= 1
    ensures forall i :: 0 <= i < |s| ==> IsDigitChar(s[i])
    ensures v < 10 <==> |s| == 1
    ensures v < 10 ==> s == [DigitChar(v)]
  {
    if v < 10 then [DigitChar(v)] else Str(v / 10) + [DigitChar(v % 10)]
  }

  /** The digits the `while a` loop collects, in the order `reversed`
      returns them: most significant first, none for `a == 0`. */
  function Digits(a: nat, base: nat): seq<nat>
    requires base >= 2
    decreases a
  {
    if a == 0 then [] else Digits(a / base, base) + [a % base]
  }

  /** `''.join(str(v) for v in ds)` */
  function Join(ds: seq<nat>): string {
    if |ds| == 0 then "" else Join(ds[..|ds| - 1]) + Str(ds[|ds| - 1])
  }

  /** `s.zfill(width)` on a string without a sign. */
  function ZFill(s: string, width: nat): string {
    if |s| >= width then s else seq(width - |s|, _ => '0') + s
  }

  /** `to_base(a, base, zfill)`; the loop only ends for `base >= 2`. */
  function ToBase(a: nat, base: nat, zfill: Option<nat>): string
    requires base >= 2
  {
    var res := if a == 0 then "0" else Join(Digits(a, base));
    match zfill
    case None => res
    case Some(width) => ZFill(res, width)
  }

  /** `[int(v) for v in s]` on a string of decimal digits. */
  function DigitValues(s: string): (r: seq<nat>)
    requires forall i :: 0 <= i < |s| ==> IsDigitChar(s[i])
    ensures |r| == |s|
    ensures forall i :: 0 <= i < |s| ==> r[i] < 10 && s[i] == DigitChar(r[i])
  {
    seq(|s|, i requires 0 <= i < |s| => CharValue(s[i]))
  }

  /** `int(c)` for one decimal digit character. */
  function CharValue(c: char): (d: nat)
    requires IsDigitChar(c)
    ensures d < 10 && DigitChar(d) == c
  {
    c as int - 48
  }

  /** The number a digit list stands for, most significant digit first. */
  function Eval(ds: seq<nat>, base: nat): nat {
    if |ds| == 0 then 0 else Eval(ds[..|ds| - 1], base) * base + ds[|ds| - 1]
  }

  // ------------------------------------------------------------ digits

  /** The digits are below the base, the first is not 0, and they stand for `a`. */
  lemma DigitsSpec(a: nat, base: nat)
    requires base >= 2
    ensures forall i :: 0 <= i < |Digits(a, base)| ==> Digits(a, base)[i] < base
    ensures |Digits(a, base)| > 0 ==> Digits(a, base)[0] != 0
    ensures (a == 0) == (|Digits(a, base)| == 0)
    ensures Eval(Digits(a, base), base) == a
  {
    DigitsShape(a, base);
    DigitsEval(a, base);
  }

  /** `a` is `a / base` digits followed by the last digit `a % base`. */
  lemma DivModParts(a: nat, base: nat)
    requires base >= 2
    ensures (a / base) * base + a % base == a && a % base < base
    ensures 0 <= a / base && (a > 0 ==> a / base < a)
  {
  }

  /** Appending a digit multiplies the value by the base and adds it. */
  lemma EvalSnoc(ds: seq<nat>, d: nat, base: nat)
    ensures Eval(ds + [d], base) == Eval(ds, base) * base + d
  {
    assert (ds + [d])[..|ds|] == ds;
  }

  lemma {:induction false} DigitsShape(a: nat, base: nat)
    requires base >= 2
    ensures forall i :: 0 <= i < |Digits(a, base)| ==> Digits(a, base)[i] < base
    ensures |Digits(a, base)| > 0 ==> Digits(a, base)[0] != 0
    ensures (a == 0) == (|Digits(a, base)| == 0)
    decreases a
  {
    if a > 0 {
      var q := a / base;
      DivModParts(a, base);
      DigitsShape(q, base);
      var ds := Digits(a, base);
      assert ds == Digits(q, base) + [a % base];
      if q == 0 {
        assert a % base == a;
      }
    }
  }

  lemma {:induction false} DigitsEval(a: nat, base: nat)
    requires base >= 2
    ensures Eval(Digits(a, base), base) == a
    decreases a
  {
    if a > 0 {
      var q := a / base;
      DivModParts(a, base);
      DigitsEval(q, base);
      EvalSnoc(Digits(q, base), a % base, base);
    }
  }

  /** Dropping the last digit of a positive number. */
  lemma DigitsCount(a: nat, base: nat)
    requires base >= 2 && a > 0
    ensures |Digits(a, base)| == |Digits(a / base, base)| + 1
  {
  }

  /** `a` has at most `w` digits exactly when it is below `base ** w`. */
  lemma {:induction false} DigitsLength(a: nat, base: nat, w: nat)
    requires base >= 2
    ensures |Digits(a, base)| <= w <==> a < Power(base, w)
    decreases a
  {
    if a > 0 {
      DigitsCount(a, base);
      DivModParts(a, base);
      if w > 0 {
        DigitsLength(a / base, base, w - 1);
        DivBelowPower(a, base, w);
      } else {
        assert Power(base, w) == 1;
      }
    }
  }

  lemma DivBelowPower(a: nat, base: nat, w: nat)
    requires base >= 2 && w > 0
    ensures a / base < Power(base, w - 1) <==> a < Power(base, w)
  {
    var p := Power(base, w - 1);
    assert Power(base, w) == base * p;
    if a / base < p {
      assert a / base + 1 <= p;
      assert base * (a / base + 1) <= base * p;
    } else {
      assert base * p <= base * (a / base);
    }
  }

  // ------------------------------------------------------- the strings

  /** For a base up to 10 every digit is one character. */
  lemma {:induction false} JoinSmallDigits(ds: seq<nat>)
    requires forall i :: 0 <= i < |ds| ==> ds[i] < 10
    ensures |Join(ds)| == |ds|
    ensures forall i :: 0 <= i < |ds| ==> Join(ds)[i] == DigitChar(ds[i])
  {
    if |ds| > 0 {
      JoinSmallDigits(ds[..|ds| - 1]);
    }
  }

  /** Every character of `Join` is a decimal digit. */
  lemma {:induction false} JoinDigitChars(ds: seq<nat>)
    ensures forall i :: 0 <= i < |Join(ds)| ==> IsDigitChar(Join(ds)[i])
  {
    if |ds| > 0 {
      JoinDigitChars(ds[..|ds| - 1]);
    }
  }

  /** The digit list of `a`, padded with zeros on the left to `width`. */
  function Padded(a: nat, base: nat, width: nat): seq<nat>
    requires base >= 2
  {
    PadZeros(Unpadded(a, base), width)
  }

  /** The digits `to_base` writes before padding: `[0]` for 0. */
  function Unpadded(a: nat, base: nat): seq<nat>
    requires base >= 2
  {
    if a == 0 then [0] else Digits(a, base)
  }

  function PadZeros(ds: seq<nat>, width: nat): seq<nat> {
    if |ds| >= width then ds else seq(width - |ds|, _ => 0) + ds
  }

  /** Leading zeros do not change the value. */
  lemma {:induction false} EvalLeadingZeros(n: nat, ds: seq<nat>, base: nat)
    ensures Eval(seq(n, _ => 0) + ds, base) == Eval(ds, base)
    decreases |ds|
  {
    var zs: seq<nat> := seq(n, _ => 0);
    if |ds| == 0 {
      assert zs + ds == zs;
      EvalZeros(n, base);
    } else {
      EvalLeadingZeros(n, ds[..|ds| - 1], base);
      assert (zs + ds)[..|zs + ds| - 1] == zs + ds[..|ds| - 1];
    }
  }

  lemma {:induction false} EvalZeros(n: nat, base: nat)
    ensures Eval(seq(n, _ => 0), base) == 0
  {
    if n > 0 {
      EvalZeros(n - 1, base);
      assert seq(n, _ => 0)[..n - 1] == seq(n - 1, _ => 0);
    }
  }

  /** For a base up to 10, reading `to_base(a, base, zfill=width)` back
      digit by digit gives the padded digits of `a` (`PaddedSpec` says
      what they are). */
  lemma ToBaseDigits(a: nat, base: nat, width: nat)
    requires 2 <= base <= 10
    ensures var s := ToBase(a, base, Some(width));
      (forall i :: 0 <= i < |s| ==> IsDigitChar(s[i])) &&
      DigitValues(s) == Padded(a, base, width)
  {
    UnpaddedChars(a, base);
    var res := if a == 0 then "0" else Join(Digits(a, base));
    ZFillChars(res, Unpadded(a, base), width);
    DigitValuesOf(ToBase(a, base, Some(width)), Padded(a, base, width));
  }

  /** The padded digits are all below the base, at least `width` of them,
      exactly `width` when `a < base ** width`, and they stand for `a`. */
  lemma PaddedSpec(a: nat, base: nat, width: nat)
    requires base >= 2
    ensures var p := Padded(a, base, width);
      |p| >= width && |p| >= 1 && Eval(p, base) == a &&
      (forall i :: 0 <= i < |p| ==> p[i] < base) &&
      (width >= 1 && a < Power(base, width) ==> |p| == width)
  {
    DigitsSpec(a, base);
    DigitsLength(a, base, width);
    PaddedEval(a, base, width);
  }

  lemma UnpaddedChars(a: nat, base: nat)
    requires 2 <= base <= 10
    ensures var res := if a == 0 then "0" else Join(Digits(a, base));
      var ds := Unpadded(a, base);
      |res| == |ds| && forall i :: 0 <= i < |ds| ==> ds[i] < base && res[i] == DigitChar(ds[i])
  {
    DigitsSpec(a, base);
    if a != 0 {
      JoinSmallDigits(Digits(a, base));
    }
  }

  lemma ZFillChars(res: string, ds: seq<nat>, width: nat)
    requires |res| == |ds|
    requires forall i :: 0 <= i < |ds| ==> ds[i] < 10 && res[i] == DigitChar(ds[i])
    ensures var s := ZFill(res, width);
      var p := PadZeros(ds, width);
      |s| == |p| && forall i :: 0 <= i < |p| ==> p[i] < 10 && IsDigitChar(s[i]) && s[i] == DigitChar(p[i])
  {
  }

  lemma DigitValuesOf(s: string, p: seq<nat>)
    requires |s| == |p|
    requires forall i :: 0 <= i < |s| ==> IsDigitChar(s[i])
    requires forall i :: 0 <= i < |s| ==> p[i] < 10 && s[i] == DigitChar(p[i])
    ensures DigitValues(s) == p
  {
  }

  /** Distinct numbers below `base ** width` have distinct padded digits,
      so `range(base ** width)` lists every digit string once. */
  lemma PaddedInjective(a: nat, b: nat, base: nat, width: nat)
    requires base >= 2
    requires Padded(a, base, width) == Padded(b, base, width)
    ensures a == b
  {
    PaddedEval(a, base, width);
    PaddedEval(b, base, width);
  }

  lemma PaddedEval(a: nat, base: nat, width: nat)
    requires base >= 2
    ensures Eval(Padded(a, base, width), base) == a
  {
    DigitsSpec(a, base);
    var ds := Unpadded(a, base);
    if a == 0 {
      assert [0][..0] == [];
    }
    if |ds| < width {
      EvalLeadingZeros(width - |ds|, ds, base);
    }
  }

  /** Every list of `width` digits below the base is the padded form of
      the number it stands for, which lies below `base ** width`. */
  lemma {:induction false} PaddedComplete(ds: seq<nat>, base: nat)
    requires base >= 2 && |ds| >= 1
    requires forall i :: 0 <= i < |ds| ==> ds[i] < base
    ensures Eval(ds, base) < Power(base, |ds|)
    ensures Padded(Eval(ds, base), base, |ds|) == ds
  {
    var a := Eval(ds, base);
    EvalBelow(ds, base);
    DigitsSpec(a, base);
    DigitsLength(a, base, |ds|);
    var p := Padded(a, base, |ds|);
    PaddedSpec(a, base, |ds|);
    PaddedEval(a, base, |ds|);
    EvalInjective(p, ds, base);
  }

  lemma {:induction false} EvalBelow(ds: seq<nat>, base: nat)
    requires base >= 2
    requires forall i :: 0 <= i < |ds| ==> ds[i] < base
    ensures Eval(ds, base) < Power(base, |ds|)
  {
    if |ds| > 0 {
      var init := ds[..|ds| - 1];
      EvalBelow(init, base);
      PowerStep(base, |ds|);
      DigitBelow(Eval(init, base), ds[|ds| - 1], Power(base, |init|), base);
    }
  }

  lemma PowerStep(base: nat, n: nat)
    requires n > 0
    ensures Power(base, n) == Power(base, n - 1) * base
  {
  }

  /** One more digit below the base keeps a value below `p` below `p * base`. */
  lemma DigitBelow(e: nat, d: nat, p: nat, base: nat)
    requires e < p && d < base
    ensures e * base + d < p * base
  {
    MulMono(e + 1, p, base);
  }

  /** Two digit lists of one length with the same value are equal. */
  lemma {:induction false} EvalInjective(a: seq<nat>, b: seq<nat>, base: nat)
    requires base >= 2 && |a| == |b|
    requires forall i :: 0 <= i < |a| ==> a[i] < base
    requires forall i :: 0 <= i < |b| ==> b[i] < base
    requires Eval(a, base) == Eval(b, base)
    ensures a == b
  {
    if |a| > 0 {
      var n := |a| - 1;
      var ea, eb := Eval(a[..n], base), Eval(b[..n], base);
      DigitSplit(ea, a[n], eb, b[n], base);
      EvalInjective(a[..n], b[..n], base);
      assert a == a[..n] + [a[n]];
      assert b == b[..n] + [b[n]];
    }
  }

  /** A number written as `e * base + d` with a digit `d` has one such
      writing. */
  lemma DigitSplit(ea: nat, da: nat, eb: nat, db: nat, base: nat)
    requires da < base && db < base
    requires ea * base + da == eb * base + db
    ensures ea == eb && da == db
  {
    if ea < eb {
      MulMono(ea + 1, eb, base);
    } else if eb < ea {
      MulMono(eb + 1, ea, base);
    }
  }

  lemma {:induction false} MulMono(x: nat, y: nat, k: nat)
    requires x <= y
    ensures x * k <= y * k
  {
    if k > 0 {
      MulMono(x, y, k - 1);
      assert x * k == x * (k - 1) + x;
      assert y * k == y * (k - 1) + y;
    }
  }

  // -------------------------------------------------------- the source loop

  /** The `while a` loop of `to_base`; prepending each remainder is the
      loop's appending followed by the final `reversed`. */
  method CollectDigits(a: nat, base: nat) returns (digits: seq<nat>)
    requires base >= 2
    ensures digits == Digits(a, base)
    ensures Eval(digits, base) == a
  {
    digits := [];
    var m: nat := a;
    while m != 0
      invariant Digits(a, base) == Digits(m, base) + digits
      decreases m
    {
      DigitsPrepend(a, m, base, digits);
      var qr := DivMod(m, base);
      digits := [qr.1] + digits;
      m := qr.0;
    }
    DigitsSpec(a, base);
  }

  /** `divmod(m, base)` */
  function DivMod(m: nat, base: nat): (r: (nat, nat))
    requires base >= 2
  {
    (m / base, m % base)
  }

  /** One pass of the loop keeps its invariant and shrinks `m`. */
  lemma DigitsPrepend(a: nat, m: nat, base: nat, digits: seq<nat>)
    requires base >= 2 && m > 0
    requires Digits(a, base) == Digits(m, base) + digits
    ensures 0 <= m / base < m
    ensures Digits(a, base) == Digits(m / base, base) + ([m % base] + digits)
  {
    DigitsStep(m, base);
    Regroup(Digits(a, base), Digits(m, base), digits, Digits(m / base, base), m % base);
  }

  lemma Regroup(x: seq<nat>, y: seq<nat>, z: seq<nat>, u: seq<nat>, v: nat)
    requires x == y + z && y == u + [v]
    ensures x == u + ([v] + z)
  {
  }

  lemma DigitsStep(m: nat, base: nat)
    requires base >= 2 && m > 0
    ensures 0 <= m / base < m
    ensures Digits(m, base) == Digits(m / base, base) + [m % base]
  {
    DivModParts(m, base);
  }
}
