/** What the parser of src/cJSON.c makes of numbers with fractions and exponents. */
module JsonNumbers {
  import opened JsonText
  import opened JsonGrammar
  import opened JsonRoundTrip

  predicate AllDigits(s: string) {
    forall i :: 0 <= i < |s| ==> '0' <= s[i] <= '9'
  }

  /** The number that decimal digits spell. */
  function ValueOf(s: string): nat
    requires AllDigits(s)
  {
    if s == "" then 0 else 10 * ValueOf(s[..|s| - 1]) + (s[|s| - 1] as int - 48)
  }

  /** A number as it is written: sign, whole part, fraction, and exponent with its mark and sign. */
  datatype Numeral = Numeral(minus: bool, whole: string, fraction: string, mark: string, sign: string, power: string) {
    /** No leading zeros; a fraction or an exponent may be missing. */
    predicate Valid() {
      && whole != "" && AllDigits(whole) && (whole[0] == '0' ==> |whole| == 1)
      && AllDigits(fraction) && AllDigits(power)
      && (mark == "e" || mark == "E" || (mark == "" && sign == "" && power == ""))
      && (sign == "" || sign == "+" || sign == "-")
    }

    function Text(): string {
      (if minus then "-" else "") + (whole + ((if fraction == "" then "" else "." + fraction) + (mark + (sign + power))))
    }

    /** The digits of whole part and fraction, to be scaled down by the length of the fraction. */
    function Meaning(): Json
      requires Valid()
    {
      DigitsCat(whole, fraction);
      var m, e := ValueOf(whole + fraction), ValueOf(power);
      Number(if minus then 0 - m else m, (if sign == "-" then 0 - e else e) - |fraction|)
    }
  }

  lemma DigitsCat(a: string, b: string)
    requires AllDigits(a) && AllDigits(b)
    ensures AllDigits(a + b)
  {
  }

  /** Digits up to something else are read on top of the digits before them. */
  lemma {:induction false} DigitsReadOn(done: string, s: string, t: string)
    requires AllDigits(done) && AllDigits(s) && !IsDigit(Head(t))
    ensures AllDigits(done + s) && ReadDigits(s + t, ValueOf(done)) == (ValueOf(done + s), t)
    decreases |s|
  {
    if s == "" {
      assert s + t == t && done + s == done;
    } else {
      var more := done + [s[0]];
      assert more[..|done|] == done;
      DigitsReadOn(more, s[1..], t);
      assert more + s[1..] == done + s;
      assert (s + t)[1..] == s[1..] + t;
    }
  }

  /** What may follow a number. */
  predicate Stops(s: string) {
    !IsDigit(Head(s)) && Head(s) != '.' && Head(s) != 'e' && Head(s) != 'E'
  }

  lemma WholeRead(whole: string, t: string)
    requires whole != "" && AllDigits(whole) && (whole[0] == '0' ==> |whole| == 1) && !IsDigit(Head(t))
    ensures ReadInteger(whole + t) == (ValueOf(whole), t)
  {
    if whole[0] == '0' {
      ZeroRead(whole, t);
    } else {
      DigitsAlone(whole, t);
      NonZeroRead(whole + t);
    }
  }

  lemma NonZeroRead(s: string)
    requires s != "" && '1' <= s[0] <= '9'
    ensures ReadInteger(s) == ReadDigits(s, 0)
  {
  }

  lemma ZeroRead(whole: string, t: string)
    requires |whole| == 1 && whole[0] == '0' && !IsDigit(Head(t))
    ensures ReadInteger(whole + t) == (ValueOf(whole), t)
  {
    First(whole, t);
    assert whole[..0] == "";
  }

  lemma FractionRead(done: string, fraction: string, t: string)
    requires AllDigits(done) && AllDigits(fraction) && !IsDigit(Head(t)) && Head(t) != '.'
    ensures AllDigits(done + fraction)
    ensures ReadFraction(ValueOf(done), (if fraction == "" then "" else "." + fraction) + t) == (ValueOf(done + fraction), |fraction|, t)
  {
    if fraction == "" {
      assert "" + t == t && done + fraction == done;
    } else {
      var s := "." + fraction + t;
      DigitsReadOn(done, fraction, t);
      assert s[1..] == fraction + t;
    }
  }

  /** The exponent behind its mark. */
  lemma PowerRead(mark: string, sign: string, power: string, t: string)
    requires (mark == "e" || mark == "E") && (sign == "" || sign == "+" || sign == "-") && AllDigits(power) && !IsDigit(Head(t))
    requires sign == "" && power == "" ==> Head(t) != '+' && Head(t) != '-'
    ensures ReadExponent(mark + (sign + (power + t))) == (if sign == "-" then 0 - ValueOf(power) else ValueOf(power), t)
  {
    var p := power + t;
    DigitsAlone(power, t);
    First(mark, sign + p);
    if sign == "" {
      assert sign + p == p;
      NoSign(power, t);
    } else {
      First(sign, p);
    }
  }

  lemma DigitsAlone(power: string, t: string)
    requires AllDigits(power) && !IsDigit(Head(t))
    ensures ReadDigits(power + t, 0) == (ValueOf(power), t)
  {
    DigitsReadOn("", power, t);
    assert "" + power == power;
  }

  lemma NoSign(power: string, t: string)
    requires AllDigits(power) && (power == "" ==> Head(t) != '+' && Head(t) != '-')
    ensures Head(power + t) != '+' && Head(power + t) != '-'
  {
    if power == "" { assert power + t == t; }
  }

  lemma ExponentRead(n: Numeral, t: string)
    requires n.Valid() && Stops(t) && (n.mark != "" && n.sign == "" && n.power == "" ==> Head(t) != '+' && Head(t) != '-')
    ensures ReadExponent(n.mark + (n.sign + (n.power + t))) == (if n.sign == "-" then 0 - ValueOf(n.power) else ValueOf(n.power), t)
  {
    if n.mark == "" {
      assert n.mark + (n.sign + (n.power + t)) == t;
    } else {
      PowerRead(n.mark, n.sign, n.power, t);
    }
  }

  lemma SignsRead(minus: bool, s: string)
    requires Head(s) != '-'
    ensures ReadSign((if minus then "-" else "") + s) == (minus, s)
  {
    if minus { First("-", s); } else { assert "" + s == s; }
  }

  /** Every numeral is read as what it means. */
  lemma NumeralRead(n: Numeral, t: string)
    requires n.Valid() && Stops(t) && (n.mark != "" && n.sign == "" && n.power == "" ==> Head(t) != '+' && Head(t) != '-')
    ensures ParseNumber(n.Text() + t) == Parsed(n.Meaning(), t)
  {
    var tail := n.mark + (n.sign + (n.power + t));
    var frac := if n.fraction == "" then "" else "." + n.fraction;
    NumeralSplit(n, t);
    TailStops(n, t);
    SignsRead(n.minus, n.whole + (frac + tail));
    WholeRead(n.whole, frac + tail);
    FractionRead(n.whole, n.fraction, tail);
    ExponentRead(n, t);
  }

  lemma TailStops(n: Numeral, t: string)
    requires n.Valid() && Stops(t)
    ensures var tail := n.mark + (n.sign + (n.power + t));
            var frac := if n.fraction == "" then "" else "." + n.fraction;
            && !IsDigit(Head(tail)) && Head(tail) != '.' && !IsDigit(Head(frac + tail)) && Head(n.whole + (frac + tail)) != '-'
  {
    if n.mark == "" { assert n.mark + (n.sign + (n.power + t)) == t; }
  }

  lemma NumeralSplit(n: Numeral, t: string)
    requires n.Valid()
    ensures n.Text() + t ==
            (if n.minus then "-" else "") +
            (n.whole + ((if n.fraction == "" then "" else "." + n.fraction) + (n.mark + (n.sign + (n.power + t)))))
  {
    var a, f := if n.minus then "-" else "", if n.fraction == "" then "" else "." + n.fraction;
    Cat(a, n.whole + (f + (n.mark + (n.sign + n.power))), t);
    Cat(n.whole, f + (n.mark + (n.sign + n.power)), t);
    Cat(f, n.mark + (n.sign + n.power), t);
    Cat(n.mark, n.sign + n.power, t);
    Cat(n.sign, n.power, t);
  }
}
