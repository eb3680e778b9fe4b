/**
 * Decimal integers as Python writes and reads them: `f"{n:03d}"` and
 * `int(s)` on ASCII digit strings with an optional sign.
 */
module PyFormat {
  import opened Wrappers
  import Seqs

  predicate IsDigit(c: char)
  {
    '0' <= c <= '9'
  }

  predicate AllDigits(s: string)
  {
    forall i :: 0 <= i < |s| ==> IsDigit(s[i])
  }

  function DigitChar(d: nat): char
    requires d < 10
  {
    ['0', '1', '2', '3', '4', '5', '6', '7', '8', '9'][d]
  }

  function DigitValue(c: char): nat
    requires IsDigit(c)
  {
    (c as int - '0' as int) as nat
  }

  lemma DigitRoundTrip(d: nat)
    requires d < 10
    ensures IsDigit(DigitChar(d)) && DigitValue(DigitChar(d)) == d
  {
  }

  /** The shortest decimal spelling of n. */
  function Decimal(n: nat): (s: string)
    ensures s != [] && AllDigits(s)
    decreases n
  {
    if n < 10 then [DigitChar(n)] else Decimal(n / 10) + [DigitChar(n % 10)]
  }

  /** The value of a digit string, most significant digit first. */
  function ValueOf(s: string): nat
    requires AllDigits(s)
    decreases |s|
  {
    if s == [] then 0 else 10 * ValueOf(s[..|s| - 1]) + DigitValue(s[|s| - 1])
  }

  lemma {:induction false} DecimalRoundTrip(n: nat)
    ensures ValueOf(Decimal(n)) == n
    decreases n
  {
    var s := Decimal(n);
    if n < 10 {
      DigitRoundTrip(n);
      assert s[..|s| - 1] == [];
    } else {
      DecimalRoundTrip(n / 10);
      DigitRoundTrip(n % 10);
      assert s[..|s| - 1] == Decimal(n / 10);
    }
  }

  /** Leading zeros do not change a digit string's value. */
  lemma {:induction false} LeadingZeros(k: nat, s: string)
    requires AllDigits(s)
    ensures AllDigits(Zeros(k) + s) && ValueOf(Zeros(k) + s) == ValueOf(s)
    decreases |s|
  {
    if s == [] {
      ZerosValue(k);
      assert Zeros(k) + s == Zeros(k);
    } else {
      var t := Zeros(k) + s;
      assert t[..|t| - 1] == Zeros(k) + s[..|s| - 1];
      LeadingZeros(k, s[..|s| - 1]);
    }
  }

  function Zeros(k: nat): (z: string)
    ensures |z| == k && AllDigits(z)
  {
    seq(k, i => '0')
  }

  lemma {:induction false} ZerosValue(k: nat)
    ensures ValueOf(Zeros(k)) == 0
  {
    if k > 0 {
      assert Zeros(k)[..k - 1] == Zeros(k - 1);
      ZerosValue(k - 1);
    }
  }

  /** `f"{n:0{w}d}"`: the sign, then the digits zero-padded so that the whole is at least w long. */
  function ZeroPadded(n: int, w: nat): (s: string)
  {
    var digits := Decimal(if n < 0 then -n else n);
    var signWidth := if n < 0 then 1 else 0;
    var pad := if signWidth + |digits| < w then w - signWidth - |digits| else 0;
    var body := Zeros(pad) + digits;
    if n < 0 then ['-'] + body else body
  }

  /** `int(s)` for an optional sign followed by ASCII digits; anything else raises. */
  function ParseInt(s: string): (r: Option<int>)
    ensures r.Some? <==> (s != [] && AllDigits(s)) || (|s| >= 2 && (s[0] == '-' || s[0] == '+') && AllDigits(s[1..]))
  {
    if s != [] && AllDigits(s) then Some(ValueOf(s))
    else if |s| >= 2 && (s[0] == '-' || s[0] == '+') && AllDigits(s[1..]) then
      Some(if s[0] == '-' then -(ValueOf(s[1..]) as int) else ValueOf(s[1..]))
    else None
  }

  /** A digit string reads as its value, and with a minus sign in front as its negation. */
  lemma SignedParse(body: string)
    requires body != [] && AllDigits(body)
    ensures ParseInt(body) == Some(ValueOf(body) as int)
    ensures ParseInt(['-'] + body) == Some(-(ValueOf(body) as int))
    ensures forall i :: 0 <= i < |['-'] + body| ==> (['-'] + body)[i] == '-' || IsDigit((['-'] + body)[i])
  {
    Seqs.ConsTail('-', body);
    var s := ['-'] + body;
    assert !IsDigit(s[0]);
  }

  /** Reading back a zero-padded number gives the number, whatever its sign or the width. */
  lemma ZeroPaddedRoundTrip(n: int, w: nat)
    ensures ParseInt(ZeroPadded(n, w)) == Some(n)
    ensures forall i :: 0 <= i < |ZeroPadded(n, w)| ==> ZeroPadded(n, w)[i] == '-' || IsDigit(ZeroPadded(n, w)[i])
    ensures |ZeroPadded(n, w)| >= w
  {
    var m := if n < 0 then -n else n;
    var digits := Decimal(m);
    var signWidth := if n < 0 then 1 else 0;
    var pad := if signWidth + |digits| < w then w - signWidth - |digits| else 0;
    DecimalRoundTrip(m);
    LeadingZeros(pad, digits);
    var body := Zeros(pad) + digits;
    SignedParse(body);
    if n < 0 {
      assert ZeroPadded(n, w) == ['-'] + body;
      assert ParseInt(['-'] + body) == Some(-(m as int)) == Some(n);
    } else {
      assert ZeroPadded(n, w) == body;
      assert ParseInt(body) == Some(m as int) == Some(n);
    }
  }
}
