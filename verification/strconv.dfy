/** Decimal formatting (`%d`) and parsing (`strconv.Atoi`) of integers. */
module Strconv {
  import opened Wrappers

  predicate IsDigit(c: char)
  {
    '0' <= c <= '9'
  }

  predicate IsSign(c: char)
  {
    c == '-' || c == '+'
  }

  predicate AllDigits(s: string)
  {
    forall i :: 0 <= i < |s| ==> IsDigit(s[i])
  }

  /** The grammar `Atoi` accepts: an optional sign followed by at least one digit. */
  predicate IsDecimal(s: string)
  {
    && |s| >= 1
    && (IsSign(s[0]) ==> |s| >= 2)
    && forall i :: 0 <= i < |s| ==> IsDigit(s[i]) || (i == 0 && IsSign(s[i]))
  }

  function DigitChar(d: nat): (c: char)
    requires d < 10
    ensures IsDigit(c)
  {
    ('0' as int + d) as char
  }

  function DigitValue(c: char): (d: nat)
    requires IsDigit(c)
    ensures d < 10
  {
    c as int - '0' as int
  }

  /** The decimal digits of `n`, most significant first, with no leading zero. */
  function Digits(n: nat): (s: string)
    ensures |s| >= 1 && AllDigits(s)
    ensures |s| > 1 ==> s[0] != '0'
    decreases n
  {
    if n < 10 then [DigitChar(n)] else Digits(n / 10) + [DigitChar(n % 10)]
  }

  /** The number a digit string denotes. */
  function ValueOf(s: string): nat
    requires AllDigits(s)
    decreases |s|
  {
    if |s| == 0 then 0 else ValueOf(s[..|s| - 1]) * 10 + DigitValue(s[|s| - 1])
  }

  /** Reading back the digits of `n` gives `n`. */
  lemma {:induction false} ValueOfDigits(n: nat)
    ensures ValueOf(Digits(n)) == n
    decreases n
  {
    if n >= 10 {
      ValueOfDigits(n / 10);
      var s := Digits(n);
      assert s[..|s| - 1] == Digits(n / 10);
    }
  }

  /** `fmt.Sprintf("%d", n)`: a minus sign for negative numbers, then the canonical digits
      of the magnitude, with no leading zero. */
  function Itoa(n: int): (s: string)
    ensures IsDecimal(s)
    ensures s[0] != '+'
    ensures (s[0] == '-') <==> n < 0
    ensures var d := if n < 0 then s[1..] else s;
      && AllDigits(d) && (|d| > 1 ==> d[0] != '0')
      && ValueOf(d) == (if n < 0 then -n else n)
  {
    if n < 0 then
      ValueOfDigits(-n);
      assert ("-" + Digits(-n))[1..] == Digits(-n);
      "-" + Digits(-n)
    else
      ValueOfDigits(n);
      Digits(n)
  }

  /** `strconv.Atoi(s)`: an optionally signed decimal; any other text is an error
      carrying the offending input. */
  function Atoi(s: string): (r: Result<int, string>)
    ensures r.Success? <==> IsDecimal(s)
    ensures r.Success? && r.value < 0 ==> s[0] == '-'
  {
    if |s| == 0 then Failure(s)
    else
      var body := if IsSign(s[0]) then s[1..] else s;
      if |body| == 0 || !AllDigits(body) then Failure(s)
      else
        assert forall i :: 0 < i < |s| ==> IsDigit(s[i]) by {
          forall i | 0 < i < |s| ensures IsDigit(s[i]) {
            if IsSign(s[0]) { assert s[i] == body[i - 1]; } else { assert s[i] == body[i]; }
          }
        }
        var v: int := ValueOf(body);
        if s[0] == '-' then Success(-v) else Success(v)
  }

  /** `k` zero digits. */
  function Zeros(k: nat): (z: string)
    ensures |z| == k && forall i :: 0 <= i < k ==> z[i] == '0'
  {
    seq(k, _ => '0')
  }

  /** Leading zeros do not change the value of a digit string. */
  lemma {:induction false} ValueOfLeadingZeros(k: nat, t: string)
    requires AllDigits(t)
    ensures AllDigits(Zeros(k) + t)
    ensures ValueOf(Zeros(k) + t) == ValueOf(t)
    decreases |t|
  {
    var s := Zeros(k) + t;
    assert forall i :: 0 <= i < |s| ==> s[i] == if i < k then '0' else t[i - k];
    if |t| == 0 {
      assert s == Zeros(k);
      ZerosValue(k);
    } else {
      var t' := t[..|t| - 1];
      assert AllDigits(t');
      ValueOfLeadingZeros(k, t');
      assert s[..|s| - 1] == Zeros(k) + t';
      assert s[|s| - 1] == t[|t| - 1];
    }
  }

  /** A run of zeros denotes 0. */
  lemma {:induction false} ZerosValue(k: nat)
    ensures AllDigits(Zeros(k)) && ValueOf(Zeros(k)) == 0
    decreases k
  {
    if k > 0 {
      ZerosValue(k - 1);
      assert Zeros(k)[..k - 1] == Zeros(k - 1);
    }
  }

  /** `Atoi` on a run of digits, bare or after `+` or `-`: the value of the run, negated
      after `-`. These are all the texts `Atoi` accepts. */
  lemma {:induction false} AtoiOfDigits(d: string)
    requires |d| >= 1 && AllDigits(d)
    ensures Atoi(d) == Success(ValueOf(d))
    ensures Atoi("+" + d) == Success(ValueOf(d))
    ensures Atoi("-" + d) == Success(-(ValueOf(d) as int))
  {
    assert !IsSign(d[0]);
    assert ("+" + d)[1..] == d;
    assert ("-" + d)[1..] == d;
  }

  /** A number's canonical digits, after any number of zeros and no sign, `+` or `-`,
      parse to the number, negated after `-`. */
  lemma {:induction false} AtoiPadded(k: nat, n: nat)
    ensures var b := Zeros(k) + Itoa(n);
      && Atoi(b) == Success(n)
      && Atoi("+" + b) == Success(n)
      && Atoi("-" + b) == Success(-(n as int))
  {
    PaddedDigits(k, n);
    AtoiOfDigits(Zeros(k) + Itoa(n));
  }

  /** Zeros followed by the `%d` text of a natural number are a digit run denoting it. */
  lemma {:induction false} PaddedDigits(k: nat, n: nat)
    ensures |Zeros(k) + Itoa(n)| >= 1 && AllDigits(Zeros(k) + Itoa(n))
    ensures ValueOf(Zeros(k) + Itoa(n)) == n
  {
    ValueOfLeadingZeros(k, Itoa(n));
  }

  /** `Atoi("007")` is 7. */
  lemma {:induction false} AtoiLeadingZerosExample()
    ensures Atoi("007") == Success(7)
  {
    AtoiPadded(2, 7);
    assert Zeros(2) + Itoa(7) == "007";
  }

  /** Parsing the decimal text of any integer gives that integer back. */
  lemma {:induction false} AtoiItoa(n: int)
    ensures Atoi(Itoa(n)) == Success(n)
  {
    var s := Itoa(n);
    if n < 0 {
      ValueOfDigits(-n);
      assert s == "-" + Digits(-n);
      assert s[1..] == Digits(-n);
      assert IsSign(s[0]);
    } else {
      ValueOfDigits(n);
      assert s == Digits(n);
      assert !IsSign(s[0]);
    }
  }
}
