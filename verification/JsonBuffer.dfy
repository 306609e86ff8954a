/**
  When the two passes of `parse_string` (src/cJSON.c) over a string literal stay within the text
  and the buffer. The first pass counts characters and escapes, the second one writes the string.
 */
module JsonBuffer {
  import opened JsonText
  import opened JsonGrammar

  // ---------------------------------------------------------------------------------------
  // The two passes side by side

  /** The first pass over k characters that are neither quotes nor backslashes. */
  lemma {:induction false} CountPlain(s: string, k: nat)
    requires k <= |s| && forall i :: 0 <= i < k ==> s[i] != '\"' && s[i] != '\\'
    ensures Count(s) == k + Count(s[k..]) && Scans(s) == Scans(s[k..]) && End(s) == End(s[k..])
  {
    if k == 0 {
      assert s[0..] == s;
    } else {
      CountPlain(s[1..], k - 1);
      assert s[1..][k - 1..] == s[k..];
    }
  }

  /**
    The first pass over at least k characters before its end: it counts half of them at least,
    and steps on place k or, if an escaped character stands there, on the next one.
   */
  lemma {:induction false} CountOver(s: string, k: nat) returns (j: nat)
    requires Scans(s) && k + |End(s)| <= |s|
    ensures k <= j <= k + 1 && j <= |s| && Scans(s[j..]) && End(s[j..]) == End(s)
    ensures Count(s) >= Count(s[j..]) + (k + 1) / 2
  {
    if k == 0 {
      j := 0;
      assert s[0..] == s;
    } else {
      var w := if s[0] == '\\' then 2 else 1;
      if w > k {
        j := w;
      } else {
        var i := CountOver(s[w..], k - w);
        j := w + i;
        assert s[w..][i..] == s[j..];
      }
    }
  }

  /** What one step of the second pass writes at most. */
  lemma WritesAtMost(s: string)
    ensures Unescape(s).1 == 2 || Unescape(s).1 == 6 || Unescape(s).1 == 12
    ensures |Unescape(s).0| <= if Unescape(s).1 == 2 then 1 else if Unescape(s).1 == 6 then 3 else 4
  {
  }

  lemma HexIsPlain(s: string, i: nat)
    requires Hex4(s, i) > 0
    ensures i + 4 <= |s| && forall k :: i <= k < i + 4 ==> s[k] != '\"' && s[k] != '\\'
  {
    forall k | i <= k < i + 4 ensures k < |s| && s[k] != '\"' && s[k] != '\\' {
      assert HexValue(At(s, k)) < 16;
    }
  }

  /** An escape that writes something and is six long is a backslash, u and four plain characters. */
  lemma CodeIsPlain(s: string)
    requires s != "" && s[0] == '\\' && Unescape(s).1 == 6 && Unescape(s).0 != ""
    ensures |s| >= 6 && Count(s) == 5 + Count(s[6..]) && Scans(s) == Scans(s[6..]) && End(s) == End(s[6..])
  {
    HexIsPlain(s, 2);
    CountPlain(s[2..], 4);
    assert s[2..][4..] == s[6..];
  }

  lemma {:induction false} EndSteps(s: string)
    requires Scans(s) && s != "" && s[0] != '\"'
    ensures var w := if s[0] == '\\' then 2 else 1; w <= |s| && |End(s)| + w <= |s| && End(s) == End(s[w..])
  {
  }

  /**
    If the second pass does not jump over the end of the first, it writes no more than was counted:
    started together, or with the first pass one character ahead.
   */
  lemma {:induction false} WritesCounted(s: string)
    requires Scans(s) && Keeps(s, |End(s)|)
    ensures |ParseChars(s).0| <= Count(s)
    decreases |s|, 0
  {
    if s != "" && s[0] != '\"' {
      var w := Width(s);
      EndSteps(s);
      if s[0] != '\\' {
        WritesCounted(s[1..]);
      } else {
        WritesAtMost(s);
        assert Drop(s, w) == s[w..];
        if w == 2 {
          WritesCounted(s[2..]);
        } else if w == 6 && Unescape(s).0 != "" {
          CodeIsPlain(s);
          WritesCounted(s[6..]);
        } else {
          var j := CountOver(s, w);
          if j == w { WritesCounted(s[w..]); } else { WritesCountedAhead(s[w..]); assert s[w..][1..] == s[j..]; }
        }
      }
    }
  }

  lemma {:induction false} WritesCountedAhead(s: string)
    requires s != "" && Scans(s[1..]) && Keeps(s, |End(s[1..])|)
    ensures |ParseChars(s).0| <= Count(s[1..]) + 1
    decreases |s|, 0
  {
    if s[0] != '\"' {
      var w := Width(s);
      if s[0] != '\\' {
        WritesCounted(s[1..]);
      } else {
        WritesAtMost(s);
        assert Drop(s, w) == s[w..];
        var i := CountOver(s[1..], w - 1);
        assert s[1..][i..] == s[1 + i..];
        if 1 + i == w { WritesCounted(s[w..]); } else { WritesCountedAhead(s[w..]); assert s[w..][1..] == s[1 + i..]; }
      }
    }
  }

  lemma {:induction false} KeepsMore(s: string, m: nat, n: nat)
    requires Keeps(s, n) && m <= n
    ensures Keeps(s, m)
    decreases |s|
  {
    if s != "" && s[0] != '\"' { KeepsMore(s[Width(s)..], m, n); }
  }

  /** A literal is contained if the second pass does not jump over the end of the first. */
  lemma NoJumpIsContained(s: string)
    requires Scans(s) && Keeps(s, |End(s)|)
    ensures Contained(s)
  {
    WritesCounted(s);
    KeepsMore(s, 0, |End(s)|);
  }

  // ---------------------------------------------------------------------------------------
  // Literals whatever follows

  /** The text of a literal behind its opening quote, up to the quote that ends the first pass. */
  predicate Literal(s: string) {
    Scans(s) && End(s) == "\""
  }

  lemma {:induction false} LiteralStep(s: string)
    requires Literal(s) && s[0] != '\"'
    ensures var w := if s[0] == '\\' then 2 else 1; w < |s| && Literal(s[w..])
  {
  }

  predicate EndsInQuote(s: string) {
    s != "" && s[|s| - 1] == '\"'
  }

  lemma {:induction false} LiteralEnds(s: string)
    requires Literal(s)
    ensures EndsInQuote(s)
  {
    if s[0] != '\"' {
      LiteralStep(s);
      LiteralEnds(s[if s[0] == '\\' then 2 else 1..]);
    }
  }

  lemma {:induction false} CountAppend(s: string, z: string)
    requires Literal(s)
    ensures Scans(s + z) && Count(s + z) == Count(s) && End(s + z) == "\"" + z
  {
    if s[0] == '\"' {
      assert s == "\"";
    } else {
      LiteralStep(s);
      var w := if s[0] == '\\' then 2 else 1;
      CountAppend(s[w..], z);
      assert (s + z)[w..] == s[w..] + z;
    }
  }

  lemma HexAppend(s: string, z: string)
    requires EndsInQuote(s) && |s| >= 3
    ensures Hex4(s + z, 2) == Hex4(s, 2)
  {
    if |s| < 6 {
      assert At(s, |s| - 1) == '\"' == At(s + z, |s| - 1);
      assert HexValue('\"') == 16;
    } else {
      assert forall k :: 2 <= k < 6 ==> At(s + z, k) == At(s, k);
    }
  }

  /** How far the second pass goes does not depend on what follows the literal. */
  lemma WidthAppend(s: string, z: string)
    requires EndsInQuote(s) && s[0] != '\"'
    ensures Width(s + z) == Width(s)
  {
    if s[0] == '\\' && At(s, 1) == 'u' {
      HexAppend(s, z);
      if Hex4(s, 2) > 0 { HexIsPlain(s, 2); }
    }
  }

  lemma {:induction false} KeepsAppend(s: string, z: string)
    requires EndsInQuote(s) && Keeps(s, 1)
    ensures Keeps(s + z, 1 + |z|)
    decreases |s|
  {
    if s[0] != '\"' {
      var w := Width(s);
      WidthAppend(s, z);
      KeepsAppend(s[w..], z);
      assert (s + z)[w..] == s[w..] + z;
    }
  }

  /** Characters that mean nothing in particular. */
  function Filler(n: nat): (z: string)
    ensures |z| == n && forall i :: 0 <= i < n ==> z[i] == 'x'
  {
    seq(n, _ => 'x')
  }

  lemma {:induction false} FillerRead(z: string)
    requires forall i :: 0 <= i < |z| ==> z[i] == 'x'
    ensures |ParseChars(z).0| == |z|
  {
    if z != "" { FillerRead(z[1..]); }
  }

  /** Once the second pass is over the quote, it reads all that follows. */
  lemma {:induction false} JumpReadsOn(s: string, n: nat)
    requires EndsInQuote(s) && !Keeps(s, 1)
    ensures |ParseChars(s + Filler(n)).0| + 11 >= n
    decreases |s|
  {
    var w, z := Width(s), Filler(n);
    WidthAppend(s, z);
    WritesAtMost(s);
    var rest := Drop(s + z, w);
    assert s[0] != '\\' ==> w == 1 && rest == (s + z)[1..];
    if w < |s| {
      assert rest == s[w..] + z;
      JumpReadsOn(s[w..], n);
    } else if w <= |s + z| {
      assert rest == z[w - |s|..];
      FillerRead(rest);
    }
  }

  /**
    A literal is contained, whatever follows it, if and only if the second pass does not jump over
    the quote that ends the first.
   */
  lemma ContainedIff(s: string)
    requires Literal(s)
    ensures (forall z :: Contained(s + z)) <==> Keeps(s, 1)
  {
    LiteralEnds(s);
    if Keeps(s, 1) {
      forall z ensures Contained(s + z) {
        CountAppend(s, z);
        KeepsAppend(s, z);
        NoJumpIsContained(s + z);
      }
    } else {
      var z := Filler(Count(s) + 12);
      CountAppend(s, z);
      JumpReadsOn(s, Count(s) + 12);
      assert !Contained(s + z);
    }
  }

  // ---------------------------------------------------------------------------------------
  // Two literals that are not contained

  lemma LiteralAtEnd(s: string)
    requires s != "" && s[|s| - 1] == '\\' && forall i :: 0 <= i < |s| - 1 ==> s[i] != '\"' && s[i] != '\\'
    ensures ParseString("\"" + s) == Overrun
  {
    CountPlain(s, |s| - 1);
    assert s[|s| - 1..] == "\\";
    assert ("\"" + s)[1..] == s;
  }

  /** The text "\u"abcdef": one escape is counted, and three characters are written behind it. */
  lemma JumpCounterexample()
    ensures ParseString("\"\\u\"abcdef\"") == Overrun
  {
    var s := "\\u\"abcdef\"";
    assert ("\"" + s)[1..] == s;
    assert At(s, 2) == '\"' && Hex4(s, 2) == 0;
    assert Unescape(s) == ("", 6) && Drop(s, 6) == s[6..] == "def\"";
    CountPlain(s[2..], 0);
    assert s[2..][0] == '\"';
    assert Count(s) == 1 + Count(s[2..]) == 1;
    FewRead("def\"");
  }

  lemma FewRead(s: string)
    requires |s| >= 2 && s[0] != '\"' && s[0] != '\\' && s[1] != '\"' && s[1] != '\\'
    ensures |ParseChars(s).0| >= 2
  {
    assert ParseChars(s).0 == [s[0]] + ParseChars(s[1..]).0;
    assert ParseChars(s[1..]).0 == [s[1]] + ParseChars(s[1..][1..]).0;
  }

  /** A literal that the text breaks off is contained exactly if the second pass stays within the text. */
  lemma UnclosedContained(s: string)
    requires Scans(s) && End(s) == ""
    ensures Contained(s) <==> Keeps(s, 0)
  {
    if Keeps(s, 0) { NoJumpIsContained(s); }
  }

  // ---------------------------------------------------------------------------------------
  // Texts with proper escapes

  /** Four characters from place i on that neither end a literal nor begin an escape. */
  predicate FourPlain(s: string, i: nat) {
    i + 4 <= |s| && forall k :: i <= k < i + 4 ==> s[k] != '\"' && s[k] != '\\'
  }

  /**
    In every literal of a text, a backslash has a character after it, and a backslash with u has
    four plain ones after that.
   */
  predicate WellEscaped(s: string, inside: bool)
    decreases |s|
  {
    if s == "" then true
    else if !inside then WellEscaped(s[1..], s[0] == '\"')
    else if s[0] != '\\' then WellEscaped(s[1..], s[0] != '\"')
    else if |s| < 2 then false
    else if s[1] != 'u' then WellEscaped(s[2..], true)
    else FourPlain(s, 2) && WellEscaped(s[6..], true)
  }

  lemma CodeScans(s: string)
    requires |s| >= 6 && s[0] == '\\' && s[1] == 'u' && FourPlain(s, 2)
    ensures Scans(s) == Scans(s[6..]) && End(s) == End(s[6..])
  {
    CountPlain(s[2..], 4);
    assert s[2..][4..] == s[6..];
  }

  /** An escape is two characters long, or six, or twelve if another one follows. */
  lemma WidthOfEscape(s: string)
    requires |s| >= 2 && s[0] == '\\'
    ensures s[1] != 'u' ==> Width(s) == 2
    ensures s[1] == 'u' ==> Width(s) == 6 || (Width(s) == 12 && At(s, 6) == '\\' && At(s, 7) == 'u')
  {
  }

  /** s goes on at place w in the same way for both passes. */
  ghost predicate GoesOn(s: string, w: nat) {
    w <= |s| && WellEscaped(s[w..], true) && Scans(s) == Scans(s[w..]) && End(s) == End(s[w..])
  }

  lemma CodeGoesOn(s: string)
    requires WellEscaped(s, true) && |s| >= 2 && s[0] == '\\' && s[1] == 'u'
    ensures GoesOn(s, 6)
  {
    CodeScans(s);
  }

  lemma GoesOnTwice(s: string, v: nat, w: nat)
    requires GoesOn(s, v) && GoesOn(s[v..], w)
    ensures GoesOn(s, v + w)
  {
    assert s[v..][w..] == s[v + w..];
  }

  lemma WellEscapedStep(s: string)
    requires WellEscaped(s, true) && s != "" && s[0] != '\"'
    ensures GoesOn(s, Width(s))
  {
    if s[0] == '\\' {
      WidthOfEscape(s);
      if s[1] == 'u' {
        CodeGoesOn(s);
        if Width(s) == 12 {
          CodeGoesOn(s[6..]);
          GoesOnTwice(s, 6, 6);
        }
      }
    }
  }

  lemma {:induction false} WellEscapedKeeps(s: string, n: nat)
    requires WellEscaped(s, true) && n <= |End(s)|
    ensures Scans(s) && Keeps(s, n) && ParseChars(s).1 == End(s) && WellEscaped(End(s), true)
    ensures End(s) == "" || End(s)[0] == '\"'
    decreases |s|
  {
    if s != "" && s[0] != '\"' {
      WellEscapedStep(s);
      WellEscapedKeeps(s[Width(s)..], n);
    }
  }

  /** The parser stays within its buffers, and what it leaves is well escaped. */
  ghost predicate Fine<T>(r: Result<T>) {
    !r.Overrun? && (r.Parsed? ==> WellEscaped(r.rest, false))
  }

  lemma StringFine(s: string)
    requires WellEscaped(s, false)
    ensures Fine(ParseString(s))
  {
    if Head(s) == '\"' {
      var t := s[1..];
      WellEscapedKeeps(t, |End(t)|);
      NoJumpIsContained(t);
    }
  }

  lemma {:induction false} SkipFine(s: string)
    requires WellEscaped(s, false)
    ensures WellEscaped(Skip(s), false)
  {
    if s != "" && s[0] as int <= 32 { SkipFine(s[1..]); }
  }

  lemma {:induction false} DigitsFine(s: string, n: nat)
    requires WellEscaped(s, false)
    ensures WellEscaped(ReadDigits(s, n).1, false)
  {
    if s != "" && IsDigit(s[0]) { DigitsFine(s[1..], 10 * n + DigitValue(s[0])); }
  }

  lemma SignFine(s: string)
    requires WellEscaped(s, false)
    ensures WellEscaped(ReadSign(s).1, false)
  {
  }

  lemma IntegerFine(s: string)
    requires WellEscaped(s, false)
    ensures WellEscaped(ReadInteger(s).1, false)
  {
    var t := if Head(s) == '0' then s[1..] else s;
    DigitsFine(t, 0);
  }

  lemma FractionFine(n: nat, s: string)
    requires WellEscaped(s, false)
    ensures WellEscaped(ReadFraction(n, s).2, false)
  {
    if Head(s) == '.' { DigitsFine(s[1..], n); }
  }

  lemma ExponentFine(s: string)
    requires WellEscaped(s, false)
    ensures WellEscaped(ReadExponent(s).1, false)
  {
    if Head(s) == 'e' || Head(s) == 'E' {
      var t := s[1..];
      DigitsFine(if Head(t) == '-' || Head(t) == '+' then t[1..] else t, 0);
    }
  }

  lemma NumberFine(s: string)
    requires WellEscaped(s, false)
    ensures Fine(ParseNumber(s))
  {
    var (minus, s1) := ReadSign(s);
    SignFine(s);
    IntegerFine(s1);
    var (n, s2) := ReadInteger(s1);
    FractionFine(n, s2);
    ExponentFine(ReadFraction(n, s2).2);
  }

  lemma {:induction false} WordFine(w: string, s: string)
    requires WellEscaped(s, false) && w <= s && forall i :: 0 <= i < |w| ==> w[i] != '\"'
    ensures WellEscaped(s[|w|..], false)
  {
    if w == "" {
      assert s[0..] == s;
    } else {
      WordFine(w[1..], s[1..]);
      assert s[1..][|w| - 1..] == s[|w|..];
    }
  }

  lemma {:induction false} ValueFine(s: string)
    requires WellEscaped(s, false)
    ensures Fine(ParseValue(s))
    decreases |s|, 1
  {
    if "null" <= s { WordFine("null", s); }
    else if "false" <= s { WordFine("false", s); }
    else if "true" <= s { WordFine("true", s); }
    else if Head(s) == '\"' { StringFine(s); }
    else if Head(s) == '-' || IsDigit(Head(s)) { NumberFine(s); }
    else if Head(s) == '[' { ArrayFine(s[1..]); }
    else if Head(s) == '{' { ObjectFine(s[1..]); }
  }

  lemma {:induction false} ArrayFine(s: string)
    requires WellEscaped(s, false)
    ensures Fine(ParseArray(s))
    decreases |s|, 3
  {
    SkipFine(s);
    if Head(Skip(s)) != ']' { ItemsFine(Skip(s)); }
  }

  lemma {:induction false} ItemsFine(s: string)
    requires WellEscaped(s, false)
    ensures Fine(ParseItems(s))
    decreases |s|, 2
  {
    SkipFine(s);
    ValueFine(Skip(s));
    var v := ParseValue(Skip(s));
    if v.Parsed? {
      SkipFine(v.rest);
      if Head(Skip(v.rest)) == ',' { ItemsFine(Skip(v.rest)[1..]); }
    }
  }

  lemma {:induction false} ObjectFine(s: string)
    requires WellEscaped(s, false)
    ensures Fine(ParseObject(s))
    decreases |s|, 3
  {
    SkipFine(s);
    if Head(Skip(s)) != '}' { MembersFine(Skip(s)); }
  }

  lemma {:induction false} MembersFine(s: string)
    requires WellEscaped(s, false)
    ensures Fine(ParseMembers(s))
    decreases |s|, 2
  {
    SkipFine(s);
    StringFine(Skip(s));
    var name := ParseString(Skip(s));
    if name.Parsed? {
      SkipFine(name.rest);
      if Head(Skip(name.rest)) == ':' {
        SkipFine(Skip(name.rest)[1..]);
        ValueFine(Skip(Skip(name.rest)[1..]));
        var v := ParseValue(Skip(Skip(name.rest)[1..]));
        if v.Parsed? {
          SkipFine(v.rest);
          if Head(Skip(v.rest)) == ',' { MembersFine(Skip(v.rest)[1..]); }
        }
      }
    }
  }

  /** A text with proper escapes is parsed within bounds. */
  lemma WellEscapedIsContained(s: string, requireEnd: bool)
    requires WellEscaped(s, false)
    ensures !Parse(s, requireEnd).Overrun?
  {
    SkipFine(s);
    ValueFine(Skip(s));
  }
}
