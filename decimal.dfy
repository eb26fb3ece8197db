/** Decimal text for natural numbers, as Python's `str(n)` and `'{:04d}'.format(n)`
    write them, and a left-to-right scanner that reads such text back. */
module Decimal {

  predicate IsDigit(c: char) {
    '0' <= c <= '9'
  }

  function DigitChar(d: nat): (c: char)
    requires d < 10
    ensures IsDigit(c)
  {
    ('0' as int + d) as char
  }

  function DigitValue(c: char): nat
    requires IsDigit(c)
  {
    c as int - '0' as int
  }

  /** `str(n)` for a non-negative integer: the shortest decimal numeral. */
  function Numeral(n: nat): (s: string)
    ensures |s| > 0
    ensures forall i :: 0 <= i < |s| ==> IsDigit(s[i])
    ensures s[0] == '0' ==> n == 0
  {
    if n < 10 then [DigitChar(n)] else Numeral(n / 10) + [DigitChar(n % 10)]
  }

  function Power10(k: nat): (p: nat)
    ensures p >= 1
  {
    if k == 0 then 1 else 10 * Power10(k - 1)
  }

  lemma {:induction false} NumeralLength(n: nat, k: nat)
    requires n < Power10(k)
    ensures |Numeral(n)| <= k || (n == 0 && k == 0)
  {
    if n >= 10 {
      assert k >= 1;
      NumeralLength(n / 10, k - 1);
    }
  }

  function Zeros(k: nat): (s: string)
    ensures |s| == k
    ensures forall i :: 0 <= i < k ==> s[i] == '0'
  {
    if k == 0 then [] else Zeros(k - 1) + ['0']
  }

  /** `'{:04d}'.format(n)`: the numeral left-padded with zeros to at least four characters. */
  function Pad4(n: nat): string {
    var digits := Numeral(n);
    if |digits| < 4 then Zeros(4 - |digits|) + digits else digits
  }

  lemma Pad4Shape(n: nat)
    ensures |Pad4(n)| >= 4
    ensures forall i :: 0 <= i < |Pad4(n)| ==> IsDigit(Pad4(n)[i])
    ensures n < 10000 ==> |Pad4(n)| == 4
  {
    if n < 10000 {
      assert Power10(4) == 10000;
      NumeralLength(n, 4);
    }
  }

  /** The state of a left-to-right reader of `;`-terminated numerals: the values read so far
      and the value of the numeral under way. Characters other than digits and `;` are skipped. */
  datatype ScanState = ScanState(values: seq<nat>, current: nat)

  function ScanChar(st: ScanState, c: char): ScanState {
    if IsDigit(c) then ScanState(st.values, st.current * 10 + DigitValue(c))
    else if c == ';' then ScanState(st.values + [st.current], 0)
    else st
  }

  function Scan(s: string, st: ScanState): ScanState
    decreases |s|
  {
    if s == [] then st else Scan(s[1..], ScanChar(st, s[0]))
  }

  lemma {:induction false} ScanAppend(a: string, b: string, st: ScanState)
    ensures Scan(a + b, st) == Scan(b, Scan(a, st))
    decreases |a|
  {
    if a == [] {
      assert a + b == b;
    } else {
      assert (a + b)[1..] == a[1..] + b;
      ScanAppend(a[1..], b, ScanChar(st, a[0]));
    }
  }

  /** Reading `str(n)` from a fresh numeral yields n. */
  lemma {:induction false} ScanNumeral(n: nat, values: seq<nat>)
    ensures Scan(Numeral(n), ScanState(values, 0)) == ScanState(values, n)
  {
    if n >= 10 {
      ScanAppend(Numeral(n / 10), [DigitChar(n % 10)], ScanState(values, 0));
      ScanNumeral(n / 10, values);
    }
  }

  lemma {:induction false} ScanZeros(k: nat, values: seq<nat>)
    ensures Scan(Zeros(k), ScanState(values, 0)) == ScanState(values, 0)
  {
    if k > 0 {
      ScanAppend(Zeros(k - 1), ['0'], ScanState(values, 0));
      ScanZeros(k - 1, values);
    }
  }

  /** The zero-padded header reads back as the offset it was made from. */
  lemma Pad4ReadsBack(n: nat)
    ensures Scan(Pad4(n), ScanState([], 0)) == ScanState([], n)
  {
    var digits := Numeral(n);
    if |digits| < 4 {
      ScanAppend(Zeros(4 - |digits|), digits, ScanState([], 0));
      ScanZeros(4 - |digits|, []);
    }
    ScanNumeral(n, []);
  }
}
