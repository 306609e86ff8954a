/**
  The minifier itself, which rewrites the text in place (src/cJSON.c, `cJSON_Minify`). Places
  beyond n, where the terminator stands, are out of bounds.
 */
module JsonMinifier {
  import opened JsonText
  import opened JsonGrammar
  import opened JsonMinify
  import opened JsonPrint
  import opened JsonRoundTrip

  /** A buffer that holds a text of length n and its terminator. */
  ghost predicate Terminated(a: array<char>, n: nat)
    reads a
  {
    n < a.Length && a[n] == '\0' && NulFree(a[..n])
  }

  /** The terminator is where a[j..n] ends. */
  lemma AtEnd(a: array<char>, j: nat, n: nat)
    requires Terminated(a, n) && j <= n
    ensures a[j] == '\0' <==> j == n
    ensures j < n ==> a[j..n] != "" && a[j..n][0] == a[j] && a[j..n][1..] == a[j + 1..n] && At(a[j..n], 1) == a[j + 1]
  {
    if j < n { assert a[..n][j] == a[j]; }
  }

  /** Copies one character down. */
  method Move(a: array<char>, i: nat, j: nat, n: nat)
    requires Terminated(a, n) && i <= j < n
    modifies a
    ensures Terminated(a, n) && a[..i + 1] == old(a[..i]) + [old(a[j])] && a[j + 1..n] == old(a[j + 1..n])
  {
    AtEnd(a, j, n);
    assert forall k :: 0 <= k < n ==> a[..n][k] == a[k];
    a[i] := a[j];
    assert a[..i + 1] == a[..i] + [a[i]];
  }

  method SkipLine(a: array<char>, from: nat, n: nat) returns (j: nat)
    requires Terminated(a, n) && from <= n
    ensures from <= j <= n && a[j..n] == PastLine(a[from..n])
  {
    j := from;
    AtEnd(a, j, n);
    while a[j] != '\0' && a[j] != '\n'
      invariant from <= j <= n && PastLine(a[j..n]) == PastLine(a[from..n])
      decreases n - j
    {
      AtEnd(a, j, n);
      j := j + 1;
    }
    AtEnd(a, j, n);
  }

  /** Goes behind the end of a comment; that is out of bounds if there is none. */
  method SkipComment(a: array<char>, from: nat, n: nat) returns (j: nat)
    requires Terminated(a, n) && from <= n
    ensures from <= j && (j <= n <==> HasClose(a[from..n]))
    ensures j <= n ==> a[j..n] == PastComment(a[from..n])
  {
    j := from;
    AtEnd(a, j, n);
    while a[j] != '\0' && !(a[j] == '*' && a[j + 1] == '/')
      invariant from <= j <= n && PastComment(a[j..n]) == PastComment(a[from..n]) && HasClose(a[j..n]) == HasClose(a[from..n])
      decreases n - j
    {
      AtEnd(a, j, n);
      j := j + 1;
      AtEnd(a, j, n);
    }
    AtEnd(a, j, n);
    if j < n { AtEnd(a, j + 1, n); }
    j := j + 2;
  }

  // ---------------------------------------------------------------------------------------
  // What one copy does to what is still to come

  /** With p written and s to come: the whole outcome, and whether s is closed. */
  ghost function Outside(p: string, s: string): (string, bool) {
    (p + Minified(s), Closed(s))
  }

  /** The same within a string literal. */
  ghost function Inside(p: string, s: string): (string, bool) {
    (p + MinifiedString(s), ClosedString(s))
  }

  lemma CopyOne(p: string, s: string)
    requires s != "" && s[0] != '\"' && s[0] != '\\'
    ensures Inside(p, s) == Inside(p + [s[0]], s[1..])
  {
    Cat(p, [s[0]], MinifiedString(s[1..]));
  }

  lemma CopyTwo(p: string, s: string)
    requires |s| > 1 && s[0] == '\\'
    ensures Inside(p, s) == Inside((p + [s[0]]) + [s[1]], s[1..][1..])
  {
    assert s[1..][1..] == s[2..];
    assert s[..2] == [s[0]] + [s[1]];
    Cat(p, s[..2], MinifiedString(s[2..]));
    Cat(p, [s[0]], [s[1]]);
  }

  lemma CopyQuote(p: string, s: string)
    requires s != "" && s[0] == '\"'
    ensures Inside(p, s) == Outside(p + [s[0]], s[1..])
  {
    Cat(p, [s[0]], Minified(s[1..]));
  }

  /** Copies the rest of a string literal, the quote included; that ends out of bounds if there is none. */
  method CopyLiteral(a: array<char>, into: nat, from: nat, n: nat) returns (i: nat, j: nat)
    requires Terminated(a, n) && into <= from <= n
    modifies a
    ensures from < j && (j <= n ==> Terminated(a, n) && i <= j)
    ensures j <= n ==> Outside(a[..i], a[j..n]) == old(Inside(a[..into], a[from..n]))
    ensures j > n ==> !old(ClosedString(a[from..n]))
  {
    i, j := into, from;
    while a[j] != '\0' && a[j] != '\"'
      invariant i <= j <= n && from <= j && Terminated(a, n)
      invariant Inside(a[..i], a[j..n]) == old(Inside(a[..into], a[from..n]))
      decreases n - j
    {
      i, j := CopyChar(a, i, j, n);
      if j > n { return; }
    }
    AtEnd(a, j, n);
    if j < n {
      CopyQuote(a[..i], a[j..n]);
      Move(a, i, j, n);
    } else {
      a[i] := a[j];
    }
    i, j := i + 1, j + 1;
  }

  /** Copies one character of a string literal, with the one after it if it is escaped. */
  method CopyChar(a: array<char>, into: nat, from: nat, n: nat) returns (i: nat, j: nat)
    requires Terminated(a, n) && into <= from < n && a[from] != '\"'
    modifies a
    ensures from < j && (j <= n ==> Terminated(a, n) && i <= j)
    ensures j <= n ==> Inside(a[..i], a[j..n]) == old(Inside(a[..into], a[from..n]))
    ensures j > n ==> !old(ClosedString(a[from..n]))
  {
    ghost var p, s := a[..into], a[from..n];
    AtEnd(a, from, n);
    i, j := into, from;
    if a[j] == '\\' {
      if j + 1 == n {
        a[i] := a[j];
        a[i + 1] := '\0';
        return i + 2, j + 2;
      }
      CopyTwo(p, s);
      assert s[1..][0] == a[j + 1] && s[1..][1..] == a[j + 2..n];
      Move(a, i, j, n);
      i, j := i + 1, j + 1;
      assert a[j..n] == s[1..] && a[j] == s[1..][0] && a[j + 1..n] == s[1..][1..];
    } else {
      CopyOne(p, s);
    }
    Move(a, i, j, n);
    i, j := i + 1, j + 1;
  }

  /**
    The white space and comments of a text are gone afterwards. The loop leaves the text exactly if
    a string literal or a comment does not end; m is meaningless then.
   */
  method Minify(a: array<char>, n: nat) returns (overrun: bool, m: nat)
    requires Terminated(a, n)
    modifies a
    ensures overrun <==> !old(Closed(a[..n]))
    ensures !overrun ==> m <= n && a[m] == '\0' && a[..m] == Minified(old(a[..n]))
  {
    ghost var goal := Outside("", a[..n]);
    var i: nat, j: nat := 0, 0;
    assert a[..n] == a[0..n];
    assert "" + Minified(a[..n]) == Minified(a[..n]);
    while a[j] != '\0'
      invariant i <= j <= n && Terminated(a, n)
      invariant Outside(a[..i], a[j..n]) == goal
      decreases n - j
    {
      i, j := Advance(a, i, j, n);
      if j > n { return true, 0; }
    }
    AtEnd(a, j, n);
    a[i] := '\0';
    return false, i;
  }

  /** One turn of the main loop. */
  method Advance(a: array<char>, into: nat, from: nat, n: nat) returns (i: nat, j: nat)
    requires Terminated(a, n) && into <= from < n
    modifies a
    ensures from < j && (j <= n ==> Terminated(a, n) && i <= j)
    ensures j <= n ==> Outside(a[..i], a[j..n]) == old(Outside(a[..into], a[from..n]))
    ensures j > n ==> !old(Closed(a[from..n]))
  {
    AtEnd(a, from, n);
    i, j := into, from;
    var c := a[j];
    if IsBlank(c) {
      j := j + 1;
    } else if c == '/' && a[j + 1] == '/' {
      j := SkipLine(a, j + 1, n);
    } else if c == '/' && a[j + 1] == '*' {
      j := SkipComment(a, j + 1, n);
    } else {
      i, j := CopyNext(a, i, j, n);
    }
  }

  /** Copies a string literal, or one character that is neither blank nor begins a comment. */
  method CopyNext(a: array<char>, into: nat, from: nat, n: nat) returns (i: nat, j: nat)
    requires Terminated(a, n) && into <= from < n && !IsBlank(a[from])
    requires !(a[from] == '/' && (a[from + 1] == '/' || a[from + 1] == '*'))
    modifies a
    ensures from < j && (j <= n ==> Terminated(a, n) && i <= j)
    ensures j <= n ==> Outside(a[..i], a[j..n]) == old(Outside(a[..into], a[from..n]))
    ensures j > n ==> !old(Closed(a[from..n]))
  {
    ghost var p, s := a[..into], a[from..n];
    AtEnd(a, from, n);
    var c := a[from];
    Move(a, into, from, n);
    i, j := into + 1, from + 1;
    if c == '\"' {
      Cat(p, "\"", MinifiedString(s[1..]));
      i, j := CopyLiteral(a, i, j, n);
    } else {
      Cat(p, [c], Minified(s[1..]));
    }
  }

  // ---------------------------------------------------------------------------------------
  // Prints

  /** For instance a quote alone, or a comment that is only opened. */
  lemma UnclosedExamples()
    ensures !Closed("\"") && !Closed("/*")
  {
    assert "\""[1..] == "";
    assert At("/*", 1) == '*' && "/*"[1..] == "*" && "*"[1..] == "";
    assert At("*", 1) == '\0';
    assert !HasClose("*");
  }

  lemma NulFreeCat(a: string, b: string)
    requires NulFree(a) && NulFree(b)
    ensures NulFree(a + b)
  {
  }

  lemma NulFreeCat3(a: string, b: string, c: string)
    requires NulFree(a) && NulFree(b) && NulFree(c)
    ensures NulFree(a + b + c)
  {
    NulFreeCat(a, b);
    NulFreeCat(a + b, c);
  }

  lemma EscapeNulFree(c: char)
    ensures NulFree(Escape(c))
  {
  }

  lemma {:induction false} EscapedNulFree(s: string)
    ensures NulFree(Escaped(s))
  {
    if s != "" {
      EscapeNulFree(s[0]);
      EscapedNulFree(s[1..]);
    }
  }

  lemma StringNulFree(s: string)
    ensures NulFree(StringText(s))
  {
    EscapedNulFree(s);
    NulFreeCat3("\"", Escaped(s), "\"");
  }

  lemma {:induction false} TabsNulFree(n: int)
    ensures NulFree(Tabs(n))
    decreases n
  {
    if n > 0 { TabsNulFree(n - 1); }
  }

  /** No print holds a terminator. */
  lemma {:induction false} TextNulFree(v: Json, d: nat, fmt: bool)
    ensures NulFree(Text(v, d, fmt))
    decreases v, 1
  {
    match v
    case Null =>
    case False =>
    case True =>
    case Number(m, _) => DigitsPlain(if m < 0 then 0 - m else m);
    case String(s) => StringNulFree(s);
    case Array(items) =>
      ItemsNulFree(items, d + 1, fmt);
      NulFreeCat3("[", ItemsText(items, d + 1, fmt), "]");
    case Object(ms) => ObjectNulFree(ms, d, fmt);
  }

  lemma {:induction false} ItemsNulFree(items: Items, d: nat, fmt: bool)
    ensures NulFree(ItemsText(items, d, fmt))
    decreases items, 0
  {
    match items
    case NoItems =>
    case Item(v, NoItems) => TextNulFree(v, d, fmt);
    case Item(v, more) =>
      TextNulFree(v, d, fmt);
      ItemsNulFree(more, d, fmt);
      NulFreeCat3(Text(v, d, fmt), ",", If(fmt, " "));
      NulFreeCat(Text(v, d, fmt) + "," + If(fmt, " "), ItemsText(more, d, fmt));
  }

  lemma {:induction false} MemberNulFree(ms: Members, d: nat, fmt: bool)
    requires ms.Member?
    ensures NulFree(MemberText(ms.name, ms.value, d, fmt))
    decreases ms, 0
  {
    var a, b, c, t := If(fmt, Tabs(d)), StringText(ms.name), If(fmt, "\t"), Text(ms.value, d, fmt);
    TabsNulFree(d);
    StringNulFree(ms.name);
    TextNulFree(ms.value, d, fmt);
    NulFreeCat3(a, b, ":");
    NulFreeCat3(a + b + ":", c, t);
  }

  lemma {:induction false} MembersNulFree(ms: Members, d: nat, fmt: bool)
    ensures NulFree(MembersText(ms, d, fmt))
    decreases ms, 1
  {
    if ms.Member? {
      var m, comma, line := MemberText(ms.name, ms.value, d, fmt), If(ms.tail.Member?, ","), If(fmt, "\n");
      MemberNulFree(ms, d, fmt);
      MembersNulFree(ms.tail, d, fmt);
      NulFreeCat3(m, comma, line);
      NulFreeCat(m + comma + line, MembersText(ms.tail, d, fmt));
    }
  }

  lemma {:induction false} ObjectNulFree(ms: Members, d: nat, fmt: bool)
    ensures NulFree(Text(Object(ms), d, fmt))
    decreases ms, 2
  {
    TabsNulFree(d);
    TabsNulFree(d - 1);
    MembersNulFree(ms, d + 1, fmt);
    if ms.NoMembers? {
      NulFreeCat3("{", If(fmt, "\n" + Tabs(d - 1)), "}");
    } else {
      var t := MembersText(ms, d + 1, fmt);
      NulFreeCat3("{", If(fmt, "\n"), t);
      NulFreeCat3("{" + If(fmt, "\n") + t, If(fmt, Tabs(d)), "}");
    }
  }

  /** Printing a value with format and minifying the print gives its print without format. */
  method PrintAndMinify(v: Json) returns (text: string)
    requires Printable(v)
    ensures text == Text(v, 0, false)
  {
    var t := PrintValue(v, 0, true, true);
    var out := new char[|t.value| + 1];
    var n := PutText(out, 0, t.value, "");
    TextNulFree(v, 0, true);
    MinifyFormatted(v, 0);
    assert out[..n] == t.value;
    var overrun, m := Minify(out, n);
    text := out[..m];
  }
}
