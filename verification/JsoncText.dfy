/**
  Stripping, told by the texts themselves: what goes and what stays of comments, strings
  and commas as they are written. The laws of each pass cover every text there is.
 */
module JsoncText {
  import opened Wrappers
  import opened Jsonc
  import opened JsoncLaws

  // ------------------------------------------------------------------- how it is written

  predicate Has(s: string, i: nat, pair: string)
    requires |pair| == 2
  {
    i + 1 < |s| && s[i] == pair[0] && s[i + 1] == pair[1]
  }

  /** No block comment ends in this text. */
  ghost predicate NoBlockEnd(c: string)
  {
    forall i: nat :: !Has(c, i, "*/")
  }

  predicate OneLine(c: string)
  {
    '\n' !in c
  }

  /** The inside of a string: characters that are neither quote nor backslash, and pairs of a backslash and a character. */
  predicate StringBody(b: string)
  {
    || b == ""
    || (b[0] != '"' && b[0] != '\\' && StringBody(b[1..]))
    || (b[0] == '\\' && |b| > 1 && StringBody(b[2..]))
  }

  /** Neither a quote nor the start of a comment. */
  predicate Ordinary(c: char, rest: string)
  {
    c != '"' && !(c == '/' && rest != "" && (rest[0] == '/' || rest[0] == '*'))
  }

  const WHITE := "\t\n\U{000B}\U{000C}\r \U{0085}\U{00A0}\U{1680}\U{2000}\U{2001}\U{2002}\U{2003}\U{2004}\U{2005}\U{2006}\U{2007}\U{2008}\U{2009}\U{200A}\U{2028}\U{2029}\U{202F}\U{205F}\U{3000}"

  predicate AllWhite(w: string)
  {
    forall i | 0 <= i < |w| :: w[i] in WHITE
  }

  lemma SpaceIff(c: char)
    ensures Space(c) <==> c in WHITE
  {
    assert |WHITE| == 25;
  }

  /** What the lexer takes for marks, for whitespace, and for parts of numbers and names, which start and end where they should. */
  lemma CharactersAre(c: char)
    ensures Structural(c) <==> c in "{}[]:,"
    ensures JsonSpace(c) <==> c in " \t\n\r"
    ensures Closer(c) <==> c in "]}"
    ensures AtomChar('a') && AtomChar('z') && AtomChar('A') && AtomChar('Z') && AtomChar('0') && AtomChar('9')
    ensures AtomChar(c) && c < '0' ==> c in "+-."
    ensures AtomChar(c) && c >= '0' ==> '0' <= c <= '9' || 'A' <= c <= 'Z' || 'a' <= c <= 'z'
    ensures c in "+-." ==> AtomChar(c)
  {
  }

  // ------------------------------------------------------------------- where things end

  lemma {:induction false} BlockEnds(c: string, r: string)
    requires NoBlockEnd(c)
    ensures AfterBlock(c + "*/" + r) == r && BlockCloses(c + "*/" + r)
    ensures AfterBlock(c) == "" && !BlockCloses(c)
  {
    var s := c + "*/" + r;
    if c == "" {
      assert s == "*/" + r;
    } else {
      assert !Has(c, 0, "*/");
      forall i: nat
        ensures !Has(c[1..], i, "*/")
      {
        assert !Has(c, i + 1, "*/");
      }
      BlockEnds(c[1..], r);
      assert s[1..] == c[1..] + "*/" + r;
    }
  }

  lemma {:induction false} LineEnds(c: string, r: string)
    requires OneLine(c)
    ensures AfterLine(c + "\n" + r) == "\n" + r
    ensures AfterLine(c) == ""
  {
    var s := c + "\n" + r;
    if c == "" {
      assert s == "\n" + r;
    } else {
      assert c[0] in c;
      LineEnds(c[1..], r);
      assert s[1..] == c[1..] + "\n" + r;
    }
  }

  lemma {:induction false} StringEnds(b: string, r: string)
    requires StringBody(b)
    ensures StringLength(b + "\"" + r) == |b| + 1 && Closed(b + "\"" + r)
    ensures StringLength(b) == |b| && !Closed(b)
    ensures StringLength(b + "\\") == |b| + 1 && !Closed(b + "\\")
  {
    var s := b + "\"" + r;
    if b == "" {
      assert s == "\"" + r && b + "\\" == "\\";
    } else {
      var k := if b[0] == '\\' then 2 else 1;
      StringEnds(b[k..], r);
      assert s[k..] == b[k..] + "\"" + r && (b + "\\")[k..] == b[k..] + "\\";
    }
  }

  // --------------------------------------------------------------------- the first pass

  /** A block comment goes, up to the first star and slash after its start. */
  lemma BlockCommentGoes(c: string, r: string)
    requires NoBlockEnd(c)
    ensures Uncommented("/*" + c + "*/" + r) == Uncommented(r)
  {
    BlockEnds(c, r);
    var s := "/*" + c + "*/" + r;
    assert s[2..] == c + "*/" + r;
    hide AfterBlock, AfterLine, Literal;
  }

  /** One that is never closed takes the rest of the text. */
  lemma OpenBlockTakesAll(c: string)
    requires NoBlockEnd(c)
    ensures Uncommented("/*" + c) == ""
  {
    BlockEnds(c, "");
    assert ("/*" + c)[2..] == c;
    hide AfterBlock, AfterLine, Literal;
  }

  /** A line comment goes, its newline stays. */
  lemma LineCommentGoes(c: string, r: string)
    requires OneLine(c)
    ensures Uncommented("//" + c + "\n" + r) == "\n" + Uncommented(r)
  {
    LineEnds("/" + c, r);
    var s := "//" + c + "\n" + r;
    assert s[1..] == ("/" + c) + "\n" + r;
    assert ("\n" + r)[1..] == r;
    hide AfterBlock, AfterLine, Literal;
  }

  lemma LastLineGoes(c: string)
    requires OneLine(c)
    ensures Uncommented("//" + c) == ""
  {
    LineEnds("/" + c, "");
    assert ("//" + c)[1..] == "/" + c;
    hide AfterBlock, AfterLine, Literal;
  }

  /** A string stays as it is, whatever looks like a comment or a comma in it. */
  lemma StringStays(b: string, r: string)
    requires StringBody(b)
    ensures Uncommented("\"" + b + "\"" + r) == "\"" + b + "\"" + Uncommented(r)
    ensures Uncommaed("\"" + b + "\"" + r) == "\"" + b + "\"" + Uncommaed(r)
  {
    StringEnds(b, r);
    var s, n := "\"" + b + "\"" + r, |b| + 2;
    assert s[1..] == b + "\"" + r;
    assert s[..n] == "\"" + b + "\"" && s[n..] == r;
    hide StringLength, AfterBlock, AfterLine, ClosesNext;
  }

  /** So does one that is never closed, even with a backslash at its end. */
  lemma OpenStringStays(b: string)
    requires StringBody(b)
    ensures Uncommented("\"" + b) == "\"" + b == Uncommaed("\"" + b)
    ensures Uncommented("\"" + b + "\\") == "\"" + b + "\\" == Uncommaed("\"" + b + "\\")
  {
    StringEnds(b, "");
    var s, s' := "\"" + b, "\"" + b + "\\";
    assert s[1..] == b && s'[1..] == b + "\\";
    assert s[..|s|] == s && s[|s|..] == "" && s'[..|s'|] == s' && s'[|s'|..] == "";
    hide StringLength, AfterBlock, AfterLine, ClosesNext;
  }

  lemma OrdinaryStays(c: char, r: string)
    requires Ordinary(c, r)
    ensures Uncommented([c] + r) == [c] + Uncommented(r)
  {
    assert ([c] + r)[1..] == r;
    hide AfterBlock, AfterLine, Literal;
  }

  // -------------------------------------------------------------------- the second pass

  lemma {:induction false} SpaceIsSkipped(w: string, r: string)
    requires AllWhite(w) && (r == "" || r[0] !in WHITE)
    ensures SkipSpace(w + r) == r
  {
    hide Space;
    if w == "" {
      assert w + r == r;
      if r != "" {
        SpaceIff(r[0]);
      }
    } else {
      SpaceIff(w[0]);
      SpaceIsSkipped(w[1..], r);
      assert (w + r)[0] == w[0] && (w + r)[1..] == w[1..] + r;
    }
  }

  /** A comma goes if only whitespace is between it and a closing bracket or brace. */
  lemma TrailingCommaGoes(w: string, closer: char, r: string)
    requires AllWhite(w) && (closer == '}' || closer == ']')
    ensures Uncommaed("," + w + [closer] + r) == Uncommaed(w + [closer] + r)
  {
    var rest := w + [closer] + r;
    assert rest == w + ([closer] + r) && "," + w + [closer] + r == "," + rest;
    SpaceIsSkipped(w, [closer] + r);
    assert ("," + rest)[1..] == rest;
    hide SkipSpace, Literal;
  }

  /** Any other comma stays, as does everything but commas. */
  lemma OtherCommaStays(w: string, r: string)
    requires AllWhite(w) && (r == "" || (r[0] !in WHITE && r[0] != '}' && r[0] != ']'))
    ensures Uncommaed("," + w + r) == "," + Uncommaed(w + r)
  {
    assert "," + w + r == "," + (w + r);
    SpaceIsSkipped(w, r);
    assert ("," + (w + r))[1..] == w + r;
    hide SkipSpace, Literal;
  }

  lemma NoCommaStays(c: char, r: string)
    requires c != '"' && c != ','
    ensures Uncommaed([c] + r) == [c] + Uncommaed(r)
  {
    assert ([c] + r)[1..] == r;
    hide ClosesNext, Literal;
  }

  // ----------------------------------------------------------------- the laws are complete

  /** A text starts with one of the forms that the laws of the first pass are about. */
  ghost predicate HasForm(s: string)
  {
    || (exists c, r :: NoBlockEnd(c) && s == "/*" + c + "*/" + r)
    || (exists c :: NoBlockEnd(c) && s == "/*" + c)
    || (exists c, r :: OneLine(c) && s == "//" + c + "\n" + r)
    || (exists c :: OneLine(c) && s == "//" + c)
    || StartsWithString(s)
    || (s != "" && Ordinary(s[0], s[1..]))
  }

  ghost predicate StartsWithString(s: string)
  {
    || (exists b, r :: StringBody(b) && s == "\"" + b + "\"" + r)
    || (exists b :: StringBody(b) && (s == "\"" + b || s == "\"" + b + "\\"))
  }

  lemma {:induction false} SplitBlock(s: string) returns (c: string, r: string)
    ensures NoBlockEnd(c) && (s == c || s == c + "*/" + r)
  {
    if |s| < 2 {
      c, r := s, "";
    } else if Has(s, 0, "*/") {
      c, r := "", s[2..];
    } else {
      var c', r' := SplitBlock(s[1..]);
      c, r := [s[0]] + c', r';
      forall i: nat
        ensures !Has(c, i, "*/")
      {
        if i > 0 {
          assert !Has(c', i - 1, "*/");
        }
      }
    }
  }

  lemma {:induction false} SplitLine(s: string) returns (c: string, r: string)
    ensures OneLine(c) && (s == c || s == c + "\n" + r)
  {
    if s == "" {
      c, r := "", "";
    } else if s[0] == '\n' {
      c, r := "", s[1..];
    } else {
      var c', r' := SplitLine(s[1..]);
      c, r := [s[0]] + c', r';
    }
  }

  lemma {:induction false} SplitString(s: string) returns (b: string, r: string)
    ensures StringBody(b) && (s == b || s == b + "\\" || s == b + "\"" + r)
    decreases |s|
  {
    if s == "" || s == "\\" {
      b, r := "", "";
    } else if s[0] == '"' {
      b, r := "", s[1..];
    } else {
      var k := if s[0] == '\\' then 2 else 1;
      var b', r' := SplitString(s[k..]);
      b, r := s[..k] + b', r';
      assert b[k..] == b' && s == s[..k] + s[k..];
    }
  }

  /** Every text but the empty one has. */
  lemma EveryTextHasForm(s: string)
    requires s != ""
    ensures HasForm(s)
  {
    if Has(s, 0, "/*") {
      var c, r := SplitBlock(s[2..]);
      assert s == "/*" + s[2..];
      assert s[2..] == c + "*/" + r ==> s == "/*" + c + "*/" + r;
    } else if Has(s, 0, "//") {
      var c, r := SplitLine(s[2..]);
      assert s == "//" + s[2..];
      assert s[2..] == c + "\n" + r ==> s == "//" + c + "\n" + r;
    } else if s[0] == '"' {
      var b, r := SplitString(s[1..]);
      assert s == "\"" + s[1..];
      assert s[1..] == b + "\\" ==> s == "\"" + b + "\\";
      assert s[1..] == b + "\"" + r ==> s == "\"" + b + "\"" + r;
    }
  }

  // ------------------------------------------------------------------------- the lexer

  /** The lexer reads comments in the same way, and an open one as no text at all. */
  lemma LexerSkipsComments(c: string, r: string)
    ensures NoBlockEnd(c) ==> Lex("/*" + c + "*/" + r, true) == Lex(r, true) && Lex("/*" + c, true) == None
    ensures OneLine(c) ==> Lex("//" + c + "\n" + r, true) == Lex(r, true) && Lex("//" + c, true) == Some([])
  {
    hide AfterBlock, AfterLine, BlockCloses, Literal, Closed;
    if NoBlockEnd(c) {
      BlockEnds(c, r);
      assert ("/*" + c + "*/" + r)[2..] == c + "*/" + r && ("/*" + c)[2..] == c;
    }
    if OneLine(c) {
      LineEnds("/" + c, r);
      assert ("//" + c + "\n" + r)[1..] == ("/" + c) + "\n" + r && ("//" + c)[1..] == "/" + c;
      assert ("\n" + r)[1..] == r;
    }
  }

  /** Nor does it read comments where only JSON is allowed. */
  lemma PlainJsonHasNone(r: string)
    ensures Lex("/" + r, false) == None
  {
  }

  lemma LexerReadsStrings(b: string, r: string, comments: bool)
    requires StringBody(b)
    ensures Lex("\"" + b + "\"" + r, comments) == Prepend(Str("\"" + b + "\""), Lex(r, comments))
    ensures Lex("\"" + b, comments) == None && Lex("\"" + b + "\\", comments) == None
  {
    StringEnds(b, r);
    var s, n := "\"" + b + "\"" + r, |b| + 2;
    assert s[1..] == b + "\"" + r && s[..n] == "\"" + b + "\"" && s[n..] == r;
    assert ("\"" + b)[1..] == b && ("\"" + b + "\\")[1..] == b + "\\";
    hide StringLength, Closed, AfterBlock, AfterLine;
  }
}
