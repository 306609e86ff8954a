/** What exactly the minifier of src/cJSON.c takes out of a text. */
module JsonComments {
  import opened JsonGrammar
  import opened JsonRoundTrip
  import opened JsonMinify

  /** The pieces of a literal: characters, and characters behind a backslash. */
  datatype Unit = Bare(c: char) | Escaped(c: char)

  function UnitText(u: Unit): string {
    match u
    case Bare(c) => [c]
    case Escaped(c) => ['\\', c]
  }

  function UnitsText(us: seq<Unit>): string {
    if us == [] then "" else UnitText(us[0]) + UnitsText(us[1..])
  }

  /** The pieces of a text. */
  datatype Piece =
    | Space(c: char)
    | LineComment(body: string)
    | BlockComment(body: string)
    | Literal(units: seq<Unit>)
    | Other(c: char)

  predicate NoClose(s: string) {
    forall i :: 0 <= i < |s| - 1 ==> !(s[i] == '*' && s[i + 1] == '/')
  }

  predicate Valid(p: Piece) {
    match p
    case Space(c) => c == ' ' || c == '\t' || c == '\r' || c == '\n'
    case LineComment(body) => '\n' !in body
    case BlockComment(body) => NoClose("*" + body + "*")
    case Literal(us) => forall i :: 0 <= i < |us| ==> us[i].Bare? ==> us[i].c != '\"' && us[i].c != '\\'
    case Other(c) => c != ' ' && c != '\t' && c != '\r' && c != '\n' && c != '\"'
  }

  function PieceText(p: Piece): string {
    match p
    case Space(c) => [c]
    case LineComment(body) => "//" + body + "\n"
    case BlockComment(body) => "/*" + body + "*/"
    case Literal(us) => "\"" + UnitsText(us) + "\""
    case Other(c) => [c]
  }

  /** What is kept: literals and all that is neither white space nor a comment. */
  function Kept(p: Piece): string {
    if p.Literal? || p.Other? then PieceText(p) else ""
  }

  function TextOf(ps: seq<Piece>): string {
    if ps == [] then "" else PieceText(ps[0]) + TextOf(ps[1..])
  }

  function KeptOf(ps: seq<Piece>): string {
    if ps == [] then "" else Kept(ps[0]) + KeptOf(ps[1..])
  }

  /** Valid pieces, where no slash that stands alone makes a comment with what follows it. */
  ghost predicate Proper(ps: seq<Piece>) {
    ps != [] ==>
      && Valid(ps[0]) && Proper(ps[1..])
      && (ps[0] == Other('/') ==> Head(TextOf(ps[1..])) != '/' && Head(TextOf(ps[1..])) != '*')
  }

  // ---------------------------------------------------------------------------------------
  // One piece

  lemma SpaceGoes(c: char, t: string)
    requires c == ' ' || c == '\t' || c == '\r' || c == '\n'
    ensures Minified([c] + t) == Minified(t) && Closed([c] + t) == Closed(t)
  {
    First([c], t);
  }

  lemma {:induction false} LinePassed(body: string, t: string)
    requires '\n' !in body
    ensures PastLine(body + ("\n" + t)) == "\n" + t
  {
    if body == "" {
      assert body + ("\n" + t) == "\n" + t;
    } else {
      LinePassed(body[1..], t);
      assert (body + ("\n" + t))[1..] == body[1..] + ("\n" + t);
      assert body[0] in body;
    }
  }

  lemma LineCommentGoes(body: string, t: string)
    requires '\n' !in body
    ensures Minified("//" + body + "\n" + t) == Minified(t) && Closed("//" + body + "\n" + t) == Closed(t)
  {
    var s := "//" + body + "\n" + t;
    LinePassed("/" + body, t);
    assert s[1..] == "/" + body + ("\n" + t);
    assert s[0] == '/' && At(s, 1) == '/';
    SpaceGoes('\n', t);
  }

  lemma {:induction false} CommentPassed(s: string, t: string)
    requires s != "" && NoClose(s) && s[|s| - 1] == '*'
    ensures PastComment(s + ("/" + t)) == t && HasClose(s + ("/" + t))
  {
    var all := s + ("/" + t);
    if |s| == 1 {
      assert all[1] == '/' && all[2..] == t;
    } else {
      assert all[0] == s[0] && all[1] == s[1];
      CommentPassed(s[1..], t);
      assert all[1..] == s[1..] + ("/" + t);
    }
  }

  lemma BlockCommentGoes(body: string, t: string)
    requires NoClose("*" + body + "*")
    ensures Minified("/*" + body + "*/" + t) == Minified(t) && Closed("/*" + body + "*/" + t) == Closed(t)
  {
    var s := "/*" + body + "*/" + t;
    CommentPassed("*" + body + "*", t);
    assert s[1..] == "*" + body + "*" + ("/" + t);
    assert s[0] == '/' && At(s, 1) == '*';
  }

  lemma {:induction false} UnitsStay(us: seq<Unit>, t: string)
    requires forall i :: 0 <= i < |us| ==> us[i].Bare? ==> us[i].c != '\"' && us[i].c != '\\'
    ensures MinifiedString(UnitsText(us) + t) == UnitsText(us) + MinifiedString(t)
    ensures ClosedString(UnitsText(us) + t) == ClosedString(t)
  {
    if us == [] {
      assert UnitsText(us) + t == t;
    } else {
      var u, more := UnitText(us[0]), UnitsText(us[1..]);
      UnitsStay(us[1..], t);
      Cat(u, more, t);
      StaysKept(u, more + t);
      Cat(u, more, MinifiedString(t));
    }
  }

  lemma LiteralStays(us: seq<Unit>, t: string)
    requires Valid(Literal(us))
    ensures var s := PieceText(Literal(us)); Minified(s + t) == s + Minified(t) && Closed(s + t) == Closed(t)
  {
    var body := UnitsText(us);
    Cat("\"" + body, "\"", t);
    Cat("\"", body, "\"" + t);
    First("\"", body + ("\"" + t));
    UnitsStay(us, "\"" + t);
    First("\"", t);
    Cat("\"" + body, "\"", Minified(t));
    Cat("\"", body, "\"" + Minified(t));
  }

  lemma OtherStays(c: char, t: string)
    requires Valid(Other(c)) && (c == '/' ==> Head(t) != '/' && Head(t) != '*')
    ensures Minified([c] + t) == [c] + Minified(t) && Closed([c] + t) == Closed(t)
  {
    First([c], t);
    assert At([c] + t, 1) == Head(t);
  }

  lemma PieceMinified(p: Piece, t: string)
    requires Valid(p) && (p == Other('/') ==> Head(t) != '/' && Head(t) != '*')
    ensures Minified(PieceText(p) + t) == Kept(p) + Minified(t) && Closed(PieceText(p) + t) == Closed(t)
  {
    assert "" + Minified(t) == Minified(t);
    match p
    case Space(c) => SpaceGoes(c, t);
    case LineComment(body) => LineCommentGoes(body, t);
    case BlockComment(body) => BlockCommentGoes(body, t);
    case Literal(us) => LiteralStays(us, t);
    case Other(c) => OtherStays(c, t);
  }

  // ---------------------------------------------------------------------------------------
  // Whole texts

  /** Of every text made of such pieces exactly the white space and the comments go. */
  lemma {:induction false} PiecesMinified(ps: seq<Piece>)
    requires Proper(ps)
    ensures Minified(TextOf(ps)) == KeptOf(ps) && Closed(TextOf(ps))
  {
    if ps != [] {
      PiecesMinified(ps[1..]);
      PieceMinified(ps[0], TextOf(ps[1..]));
    }
  }

  /** A slash right behind the star that opens a comment closes it: the rest of the comment is taken as text. */
  lemma SlashClosesComment(t: string)
    ensures Minified("/*/" + t) == Minified(t) && Closed("/*/" + t) == Closed(t)
  {
    var s := "/*/" + t;
    assert s[1..][2..] == t && s[1..] == "*/" + t;
    assert s[0] == '/' && At(s, 1) == '*' && At(s[1..], 1) == '/';
  }

  /** For instance, of a comment with the text /1 the figure, the star and the slash stay. */
  lemma CommentCounterexample()
    ensures Minified("/*/1*/") == "1*/"
  {
    SlashClosesComment("1*/");
    assert "/*/" + "1*/" == "/*/1*/";
    PiecesMinified([Other('1'), Other('*'), Other('/')]);
    assert [Other('1'), Other('*'), Other('/')][1..] == [Other('*'), Other('/')];
    assert [Other('*'), Other('/')][1..] == [Other('/')];
    assert [Other('/')][1..] == [];
    assert TextOf([Other('/')]) == "/" && KeptOf([Other('/')]) == "/";
    assert TextOf([Other('*'), Other('/')]) == "*/" && KeptOf([Other('*'), Other('/')]) == "*/";
  }
}
