/**
  The two suffix tables built once per run (main.go:211-231): the digit
  table holds "" and then, for each width 1..digits, every number below
  10^width zero-padded to that width; the special table holds "" and then
  each configured character as a string of its own.
*/
module Suffixes {
  import opened Base

  function Pow10(n: nat): (p: nat)
    ensures p >= 1
  {
    if n == 0 then 1 else 10 * Pow10(n - 1)
  }

  predicate IsDigit(c: char) {
    '0' <= c <= '9'
  }

  predicate AllDigits(s: string) {
    forall i :: 0 <= i < |s| ==> IsDigit(s[i])
  }

  function DigitChar(d: nat): (c: char)
    requires d < 10
    ensures IsDigit(c)
  {
    ('0' as int + d) as char
  }

  function DigitValue(c: char): (d: nat)
    requires IsDigit(c)
    ensures d < 10
  {
    c as int - '0' as int
  }

  /** Go's `%d` of a non-negative number: decimal, without leading zeros. */
  function Decimal(i: nat): (s: string)
    ensures |s| >= 1 && AllDigits(s)
    decreases i
  {
    if i < 10 then [DigitChar(i)] else Decimal(i / 10) + [DigitChar(i % 10)]
  }

  function Zeros(n: nat): (s: string)
    ensures |s| == n && forall i :: 0 <= i < n ==> s[i] == '0'
  {
    seq(n, _ => '0')
  }

  /** Go's `fmt.Sprintf("%0<w>d", i)` (main.go:218, 221): `%d` padded on the left with zeros to width `w`. */
  function ZeroPadded(i: nat, w: nat): string {
    var s := Decimal(i);
    if |s| >= w then s else Zeros(w - |s|) + s
  }

  /** The number a string of decimal digits denotes. */
  function Parse(s: string): nat
    requires AllDigits(s)
    decreases |s|
  {
    if |s| == 0 then 0 else Parse(s[..|s| - 1]) * 10 + DigitValue(s[|s| - 1])
  }

  lemma {:induction false} ParseDecimal(i: nat)
    ensures Parse(Decimal(i)) == i
    decreases i
  {
    if i >= 10 {
      ParseDecimal(i / 10);
      var s := Decimal(i);
      assert s[..|s| - 1] == Decimal(i / 10);
    }
  }

  lemma {:induction false} ParseLeadingZeros(n: nat, s: string)
    requires AllDigits(s)
    ensures AllDigits(Zeros(n) + s)
    ensures Parse(Zeros(n) + s) == Parse(s)
    decreases n + |s|
  {
    var z := Zeros(n) + s;
    if |s| > 0 {
      ParseLeadingZeros(n, s[..|s| - 1]);
      assert z[..|z| - 1] == Zeros(n) + s[..|s| - 1];
    } else if n > 0 {
      ParseLeadingZeros(n - 1, s);
      assert z[..|z| - 1] == Zeros(n - 1) + s;
    }
  }

  lemma {:induction false} DecimalLength(i: nat, w: nat)
    requires 1 <= w && i < Pow10(w)
    ensures |Decimal(i)| <= w
    decreases i
  {
    if i >= 10 {
      DecimalLength(i / 10, w - 1);
    }
  }

  /** `%0<w>d` of any number is all digits, at least `w` long, and reads back as that number. */
  lemma PaddedDigits(i: nat, w: nat)
    ensures |ZeroPadded(i, w)| >= w
    ensures AllDigits(ZeroPadded(i, w))
    ensures Parse(ZeroPadded(i, w)) == i
  {
    ParseDecimal(i);
    if |Decimal(i)| < w {
      ParseLeadingZeros(w - |Decimal(i)|, Decimal(i));
    }
  }

  /**
    A number below 10^w printed with `%0<w>d` is exactly `w` digits long
    and reads back as the same number.
  */
  lemma PaddedRoundTrip(i: nat, w: nat)
    requires 1 <= w && i < Pow10(w)
    ensures |ZeroPadded(i, w)| == w
    ensures AllDigits(ZeroPadded(i, w))
    ensures Parse(ZeroPadded(i, w)) == i
  {
    DecimalLength(i, w);
    PaddedDigits(i, w);
  }

  /** The numbers of one width, in ascending order (the inner loop at main.go:220-222). */
  function DigitBlock(w: nat): (b: seq<string>)
    ensures |b| == Pow10(w)
  {
    seq(Pow10(w), i requires 0 <= i < Pow10(w) => ZeroPadded(i, w))
  }

  /** The digit table: "" followed by the blocks of widths 1 to `digits`. */
  function DigitTable(digits: int): (t: seq<string>)
    ensures |t| >= 1 && t[0] == ""
    decreases if digits <= 0 then 0 else digits
  {
    if digits <= 0 then [""] else DigitTable(digits - 1) + DigitBlock(digits)
  }

  /** 1 + 10 + 100 + ... + 10^digits, and 1 when `digits` is not positive. */
  function DigitTableSize(digits: int): nat
    decreases if digits <= 0 then 0 else digits
  {
    if digits <= 0 then 1 else DigitTableSize(digits - 1) + Pow10(digits)
  }

  /** The table holds one entry per width-0 to width-`digits` number. */
  lemma {:induction false} DigitTableLength(digits: int)
    ensures |DigitTable(digits)| == DigitTableSize(digits)
    decreases if digits <= 0 then 0 else digits
  {
    if digits > 0 {
      DigitTableLength(digits - 1);
    }
  }

  /** The closed form 1 + 10 + ... + 10^D = (10^(D+1) - 1) / 9. */
  lemma {:induction false} DigitTableClosedForm(digits: nat)
    ensures 9 * DigitTableSize(digits) == Pow10(digits + 1) - 1
  {
    if digits > 0 {
      DigitTableClosedForm(digits - 1);
    }
  }

  /** Entry `i` of the width-`w` block sits at position DigitTableSize(w - 1) + i. */
  lemma {:induction false} DigitTableAt(digits: int, w: nat, i: nat)
    requires 1 <= w <= digits && i < Pow10(w)
    ensures DigitTableSize(w - 1) + i < |DigitTable(digits)|
    ensures DigitTable(digits)[DigitTableSize(w - 1) + i] == ZeroPadded(i, w)
    decreases digits
  {
    var prev := DigitTable(digits - 1);
    var x := DigitTableSize(w - 1) + i;
    if w < digits {
      DigitTableAt(digits - 1, w, i);
      TableStep(digits, x);
      assert DigitTable(digits)[x] == prev[x];
    } else {
      assert w == digits;
      DigitTableLength(digits - 1);
      assert x == |prev| + i;
      TableStep(digits, x);
      assert DigitTable(digits)[x] == ZeroPadded(i, digits);
    }
  }

  /** Position `x` of the table for `digits` is in the table for `digits - 1` or in the width-`digits` block. */
  lemma TableStep(digits: int, x: nat)
    requires digits > 0 && x < |DigitTable(digits - 1)| + Pow10(digits)
    ensures |DigitTable(digits)| == |DigitTable(digits - 1)| + Pow10(digits)
    ensures x < |DigitTable(digits - 1)| ==> DigitTable(digits)[x] == DigitTable(digits - 1)[x]
    ensures x >= |DigitTable(digits - 1)| ==> DigitTable(digits)[x] == ZeroPadded(x - |DigitTable(digits - 1)|, digits)
  {
    var prev := DigitTable(digits - 1);
    assert DigitTable(digits) == prev + DigitBlock(digits);
  }

  /** Beyond "" the table holds only digit strings of width 1 to `digits`, each the padded form of its value. */
  lemma {:induction false} DigitTableEntries(digits: int, p: nat)
    requires 0 < p < |DigitTable(digits)|
    ensures var s := DigitTable(digits)[p];
      && AllDigits(s) && 1 <= |s| <= digits
      && Parse(s) < Pow10(|s|) && s == ZeroPadded(Parse(s), |s|)
    decreases if digits <= 0 then 0 else digits
  {
    var t := DigitTable(digits);
    if digits > 0 {
      var prev := DigitTable(digits - 1);
      if p < |prev| {
        DigitTableEntries(digits - 1, p);
        assert t[p] == prev[p];
      } else {
        var i := p - |prev|;
        assert t[p] == ZeroPadded(i, digits);
        PaddedRoundTrip(i, digits);
      }
    }
  }

  /** No string appears twice in the digit table. */
  lemma {:induction false} DigitTableDistinct(digits: int)
    ensures Distinct(DigitTable(digits))
    decreases if digits <= 0 then 0 else digits
  {
    if digits > 0 {
      var t := DigitTable(digits);
      DigitTableDistinct(digits - 1);
      forall p, q | 0 <= p < q < |t|
        ensures t[p] != t[q]
      {
        TwoEntries(digits, p, q);
      }
    }
  }

  /** Two positions of the digit table hold different strings when the shorter table has no repetition. */
  lemma TwoEntries(digits: int, p: nat, q: nat)
    requires digits > 0 && Distinct(DigitTable(digits - 1))
    requires p < q < |DigitTable(digits)|
    ensures DigitTable(digits)[p] != DigitTable(digits)[q]
  {
    var prev := DigitTable(digits - 1);
    var t := DigitTable(digits);
    if q < |prev| {
      assert t[p] != t[q] by {
        TableStep(digits, p);
        TableStep(digits, q);
      }
    } else if p >= |prev| {
      assert t[p] != t[q] by {
        TableStep(digits, p);
        TableStep(digits, q);
        BlockEntriesDiffer(digits, p - |prev|, q - |prev|);
      }
    } else {
      assert |t[q]| == digits by {
        TableStep(digits, q);
        PaddedRoundTrip(q - |prev|, digits);
      }
      assert |t[p]| < digits by {
        TableStep(digits, p);
        if p > 0 {
          DigitTableEntries(digits - 1, p);
        }
      }
    }
  }

  /** Two different numbers of one width have different padded forms. */
  lemma BlockEntriesDiffer(w: nat, a: nat, b: nat)
    requires 1 <= w && a < b < Pow10(w)
    ensures ZeroPadded(a, w) != ZeroPadded(b, w)
  {
    PaddedRoundTrip(a, w);
    PaddedRoundTrip(b, w);
  }

  /** The loops at main.go:212-223, with `maxNumber` tracking 10^(d+1). */
  method DigitCombs(digits: int) returns (combs: seq<string>)
    ensures combs == DigitTable(digits)
  {
    combs := [""];
    var maxNumber := 1;
    var d := 0;
    while d < digits
      invariant 0 <= d <= (if digits < 0 then 0 else digits)
      invariant maxNumber == Pow10(d)
      invariant combs == DigitTable(d)
    {
      maxNumber := maxNumber * 10;
      var i := 0;
      while i < maxNumber
        invariant 0 <= i <= maxNumber == Pow10(d + 1)
        invariant combs == DigitTable(d) + DigitBlock(d + 1)[..i]
      {
        assert DigitBlock(d + 1)[..i + 1] == DigitBlock(d + 1)[..i] + [ZeroPadded(i, d + 1)];
        combs := combs + [ZeroPadded(i, d + 1)];
        i := i + 1;
      }
      assert DigitBlock(d + 1)[..i] == DigitBlock(d + 1);
      d := d + 1;
    }
    assert DigitTable(d) == DigitTable(digits);
  }

  /** The special table (main.go:226-231): "" and then one string per character, in order. */
  function CharCombs(special: string): (t: seq<string>)
    ensures |t| == |special| + 1
    ensures t[0] == ""
    ensures forall i :: 0 <= i < |special| ==> t[i + 1] == [special[i]]
    decreases |special|
  {
    if |special| == 0 then [""]
    else CharCombs(special[..|special| - 1]) + [[special[|special| - 1]]]
  }

  /** Joining the special table gives back the configured characters. */
  lemma {:induction false} CharCombsJoin(special: string)
    ensures Concat(CharCombs(special)) == special
    decreases |special|
  {
    if |special| > 0 {
      var init, last := special[..|special| - 1], special[|special| - 1];
      assert CharCombs(special) == CharCombs(init) + [[last]];
      CharCombsJoin(init);
      ConcatAppend(CharCombs(init), [last]);
      assert init + [last] == special;
    }
  }
}
