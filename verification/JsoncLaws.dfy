/** What stripping a JSONC text does to its tokens. */
module JsoncLaws {
  import opened Wrappers
  import opened Jsonc

  // -------------------------------------------------------------------- the lexer

  datatype Token = Mark(c: char) | Str(raw: string) | Atom(raw: string)

  /** How many of the first characters can belong to one atom. */
  function AtomLength(s: string): (n: nat)
    ensures n <= |s|
    ensures s != [] && AtomChar(s[0]) ==> n > 0
  {
    if s != [] && AtomChar(s[0]) then 1 + AtomLength(s[1..]) else 0
  }

  function Prepend(t: Token, ts: Option<seq<Token>>): Option<seq<Token>>
  {
    match ts
    case Some(rest) => Some([t] + rest)
    case None => None
  }

  /** The tokens of a text: of JSON, or of JSON with comments; `None` where it has none. */
  function Lex(s: string, comments: bool): Option<seq<Token>>
    decreases |s|
  {
    if s == [] then Some([])
    else if JsonSpace(s[0]) then Lex(s[1..], comments)
    else if comments && LineOpens(s) then Lex(AfterLine(s[1..]), comments)
    else if comments && BlockOpens(s) then if BlockCloses(s[2..]) then Lex(AfterBlock(s[2..]), comments) else None
    else if s[0] == '"' then if Closed(s[1..]) then Prepend(Str(s[..Literal(s)]), Lex(s[Literal(s)..], comments)) else None
    else if Structural(s[0]) then Prepend(Mark(s[0]), Lex(s[1..], comments))
    else if AtomChar(s[0]) then Prepend(Atom(s[..AtomLength(s)]), Lex(s[AtomLength(s)..], comments))
    else None
  }

  /** Between two atoms of a JSON text there is always a mark. */
  predicate AtomsApart(ts: seq<Token>)
  {
    forall i | 0 < i < |ts| :: !(ts[i - 1].Atom? && ts[i].Atom?)
  }

  predicate IsCloser(t: Token)
  {
    t.Mark? && Closer(t.c)
  }

  /** The tokens without each comma that a closer follows. */
  function DropTrailing(ts: seq<Token>): seq<Token>
  {
    if ts == [] then []
    else if ts[0] == Mark(',') && |ts| > 1 && IsCloser(ts[1]) then DropTrailing(ts[1..])
    else [ts[0]] + DropTrailing(ts[1..])
  }

  // ------------------------------------------------------- the first pass, token by token

  predicate StartsAtom(s: string)
  {
    s != [] && AtomChar(s[0])
  }

  /** What the first pass leaves starts an atom only if the next token is one. */
  lemma {:induction false} FirstIsAtom(s: string)
    requires Lex(s, true).Some? && StartsAtom(Uncommented(s))
    ensures Lex(s, true).value != [] && Lex(s, true).value[0].Atom?
    decreases |s|
  {
    if s != [] && s[0] != '"' && LineOpens(s) {
      FirstIsAtom(AfterLine(s[1..]));
    } else if s != [] && s[0] != '"' && BlockOpens(s) {
      FirstIsAtom(AfterBlock(s[2..]));
    }
  }

  lemma {:induction false} AtomIsCopied(s: string, r: string)
    requires !StartsAtom(r)
    requires forall i | 0 <= i < |s| :: AtomChar(s[i])
    ensures AtomLength(s + r) == |s|
  {
    if s != [] {
      assert (s + r)[1..] == s[1..] + r;
      AtomIsCopied(s[1..], r);
    } else {
      assert s + r == r;
    }
  }

  lemma {:induction false} AtomLengthMeans(s: string)
    ensures var n := AtomLength(s);
            (forall i | 0 <= i < n :: AtomChar(s[i])) && !StartsAtom(s[n..])
  {
    if StartsAtom(s) {
      AtomLengthMeans(s[1..]);
      var n := AtomLength(s[1..]);
      assert s[1..][n..] == s[1 + n..];
      forall i | 0 <= i < 1 + n
        ensures AtomChar(s[i])
      {
        assert i > 0 ==> s[i] == s[1..][i - 1];
      }
    }
  }

  lemma AtomPasses(s: string)
    requires StartsAtom(s)
    ensures Uncommented(s) == [s[0]] + Uncommented(s[1..])
    ensures Uncommaed(s) == [s[0]] + Uncommaed(s[1..])
  {
    hide Literal, AfterLine, AfterBlock, ClosesNext;
  }

  lemma {:induction false} AtomsPass(s: string, n: nat)
    requires n <= |s| && forall i | 0 <= i < n :: AtomChar(s[i])
    ensures Uncommented(s) == s[..n] + Uncommented(s[n..])
    ensures Uncommaed(s) == s[..n] + Uncommaed(s[n..])
  {
    hide Uncommented, Uncommaed;
    if n > 0 {
      AtomPasses(s);
      AtomsPass(s[1..], n - 1);
      assert s[..n] == [s[0]] + s[1..][..n - 1];
      assert s[n..] == s[1..][n - 1..];
    } else {
      assert s[..0] == [] && s[0..] == s;
    }
  }

  // ---------------------------------------------------------- lexing one token at a time

  lemma LexSpace(c: char, r: string, comments: bool)
    requires JsonSpace(c)
    ensures Lex([c] + r, comments) == Lex(r, comments)
  {
    assert ([c] + r)[1..] == r;
  }

  lemma LexMark(c: char, r: string, comments: bool)
    requires Structural(c)
    ensures Lex([c] + r, comments) == Prepend(Mark(c), Lex(r, comments))
  {
    assert ([c] + r)[1..] == r;
  }

  /** A whole string, its quotes included. */
  predicate WholeString(w: string)
  {
    w != [] && w[0] == '"' && Closed(w[1..]) && Literal(w) == |w|
  }

  lemma {:induction false} StringGoesOn(s: string, r: string)
    requires Closed(s) && StringLength(s) == |s|
    ensures Closed(s + r) && StringLength(s + r) == |s|
  {
    if s[0] == '\\' && |s| > 1 {
      assert (s + r)[2..] == s[2..] + r;
      StringGoesOn(s[2..], r);
    } else if s[0] != '"' {
      assert (s + r)[1..] == s[1..] + r;
      StringGoesOn(s[1..], r);
    }
  }

  lemma {:induction false} ClosedPart(s: string)
    requires Closed(s)
    ensures var w := s[..StringLength(s)]; Closed(w) && StringLength(w) == |w|
  {
    var n := StringLength(s);
    if s[0] == '\\' && |s| > 1 {
      assert s[..n][2..] == s[2..][..n - 2];
      ClosedPart(s[2..]);
    } else if s[0] != '"' {
      assert s[..n][1..] == s[1..][..n - 1];
      ClosedPart(s[1..]);
    }
  }

  lemma LexString(w: string, r: string, comments: bool)
    requires WholeString(w)
    ensures Lex(w + r, comments) == Prepend(Str(w), Lex(r, comments))
  {
    var s := w + r;
    assert s[1..] == w[1..] + r;
    StringGoesOn(w[1..], r);
    assert Literal(s) == |w| && s[..|w|] == w && s[|w|..] == r;
    hide Closed, StringLength, Literal;
  }

  lemma LexAtom(w: string, r: string, comments: bool)
    requires w != [] && (forall i | 0 <= i < |w| :: AtomChar(w[i])) && !StartsAtom(r)
    ensures Lex(w + r, comments) == Prepend(Atom(w), Lex(r, comments))
  {
    var s := w + r;
    AtomIsCopied(w, r);
    assert s[..|w|] == w && s[|w|..] == r && AtomChar(s[0]);
    hide AtomLength;
  }

  lemma ApartAfter(t: Token, ts: seq<Token>)
    requires AtomsApart([t] + ts)
    ensures AtomsApart(ts)
    ensures t.Atom? && ts != [] ==> !ts[0].Atom?
  {
    forall i | 0 < i < |ts|
      ensures !(ts[i - 1].Atom? && ts[i].Atom?)
    {
      assert ([t] + ts)[i] == ts[i - 1] && ([t] + ts)[i + 1] == ts[i];
    }
    if ts != [] {
      assert ([t] + ts)[0] == t && ([t] + ts)[1] == ts[0];
    }
  }

  lemma SpacePasses(s: string)
    requires s != [] && (JsonSpace(s[0]) || (Structural(s[0]) && s[0] != ','))
    ensures Uncommented(s) == [s[0]] + Uncommented(s[1..])
    ensures Uncommaed(s) == [s[0]] + Uncommaed(s[1..])
  {
    hide Literal, AfterLine, AfterBlock, ClosesNext;
  }

  lemma CommaPasses(s: string)
    requires s != [] && s[0] == ','
    ensures Uncommented(s) == [s[0]] + Uncommented(s[1..])
    ensures Uncommaed(s) == if ClosesNext(s[1..]) then Uncommaed(s[1..]) else [s[0]] + Uncommaed(s[1..])
  {
    hide Literal, AfterLine, AfterBlock, ClosesNext;
  }

  lemma StringPasses(s: string)
    requires s != [] && s[0] == '"' && Closed(s[1..])
    ensures var w := s[..Literal(s)];
            && WholeString(w)
            && Uncommented(s) == w + Uncommented(s[|w|..])
            && Uncommaed(s) == w + Uncommaed(s[|w|..])
  {
    var w := s[..Literal(s)];
    assert w[1..] == s[1..][..StringLength(s[1..])];
    ClosedPart(s[1..]);
    hide Closed, StringLength, AfterLine, AfterBlock, ClosesNext;
  }

  /** Only whitespace and comments come before the next token. */
  predicate Decorated(s: string)
  {
    s != [] && (JsonSpace(s[0]) || LineOpens(s) || BlockOpens(s))
  }

  /** What is left of a text after the whitespace character or the comment that starts it. */
  function Undecorated(s: string): (r: string)
    requires Decorated(s)
    ensures |r| < |s|
  {
    if LineOpens(s) then AfterLine(s[1..]) else if BlockOpens(s) then AfterBlock(s[2..]) else s[1..]
  }

  lemma DecorationGoes(s: string)
    requires Decorated(s) && Lex(s, true).Some?
    ensures Lex(s, true) == Lex(Undecorated(s), true)
    ensures Lex(Uncommented(s), false) == Lex(Uncommented(Undecorated(s)), false)
  {
    if JsonSpace(s[0]) {
      SpacePasses(s);
      LexSpace(s[0], Uncommented(s[1..]), false);
    }
    hide AfterLine, AfterBlock, BlockCloses;
  }

  /** The first pass keeps every token, as long as a mark parts any two atoms. */
  lemma {:induction false} CommentsGo(s: string)
    requires Lex(s, true).Some? && AtomsApart(Lex(s, true).value)
    ensures Lex(Uncommented(s), false) == Lex(s, true)
    decreases |s|
  {
    if s == [] {
    } else if Decorated(s) {
      DecorationGoes(s);
      CommentsGo(Undecorated(s));
    } else {
      TokenStays(s);
    }
  }

  lemma {:induction false} TokenStays(s: string)
    requires s != [] && !Decorated(s) && Lex(s, true).Some? && AtomsApart(Lex(s, true).value)
    ensures Lex(Uncommented(s), false) == Lex(s, true)
    decreases |s|, 0
  {
    if s[0] == '"' {
      var n := Literal(s);
      StringPasses(s);
      ApartAfter(Str(s[..n]), Lex(s[n..], true).value);
      CommentsGo(s[n..]);
      LexString(s[..n], Uncommented(s[n..]), false);
    } else if Structural(s[0]) {
      if s[0] == ',' {
        CommaPasses(s);
      } else {
        SpacePasses(s);
      }
      ApartAfter(Mark(s[0]), Lex(s[1..], true).value);
      CommentsGo(s[1..]);
      LexMark(s[0], Uncommented(s[1..]), false);
    } else {
      var n := AtomLength(s);
      AtomLengthMeans(s);
      AtomsPass(s, n);
      ApartAfter(Atom(s[..n]), Lex(s[n..], true).value);
      CommentsGo(s[n..]);
      if StartsAtom(Uncommented(s[n..])) {
        FirstIsAtom(s[n..]);
      }
      LexAtom(s[..n], Uncommented(s[n..]), false);
    }
  }

  // ------------------------------------------------------ the second pass, token by token

  /** In a text that has tokens, a closer comes next exactly when it is the next token. */
  lemma {:induction false} CloserIsNext(s: string)
    requires Lex(s, false).Some?
    ensures var ts := Lex(s, false).value; ClosesNext(s) <==> ts != [] && IsCloser(ts[0])
  {
    if s != [] && Space(s[0]) {
      assert JsonSpace(s[0]);
      CloserIsNext(s[1..]);
    }
  }

  /** The second pass starts with an atom only where the text does. */
  lemma {:induction false} NoAtomAppears(s: string)
    requires !StartsAtom(s)
    ensures !StartsAtom(Uncommaed(s))
  {
    if s != [] && s[0] == ',' && ClosesNext(s[1..]) {
      assert !StartsAtom(s[1..]);
      NoAtomAppears(s[1..]);
    }
  }

  lemma DropTrailingStep(t: Token, ts: seq<Token>)
    ensures DropTrailing([t] + ts) ==
            if t == Mark(',') && ts != [] && IsCloser(ts[0]) then DropTrailing(ts) else [t] + DropTrailing(ts)
  {
    assert ([t] + ts)[1..] == ts;
    assert ts != [] ==> ([t] + ts)[1] == ts[0];
  }

  /** The second pass drops exactly the commas that a closer follows. */
  lemma {:induction false} CommasGo(s: string)
    requires Lex(s, false).Some?
    ensures Lex(Uncommaed(s), false) == Some(DropTrailing(Lex(s, false).value))
    decreases |s|
  {
    if s == [] {
    } else if JsonSpace(s[0]) {
      SpacePasses(s);
      CommasGo(s[1..]);
      LexSpace(s[0], Uncommaed(s[1..]), false);
    } else {
      TokenOrTrailing(s);
    }
  }

  lemma {:induction false} TokenOrTrailing(s: string)
    requires s != [] && !JsonSpace(s[0]) && Lex(s, false).Some?
    ensures Lex(Uncommaed(s), false) == Some(DropTrailing(Lex(s, false).value))
    decreases |s|, 0
  {
    if s[0] == '"' {
      var n := Literal(s);
      StringPasses(s);
      CommasGo(s[n..]);
      LexString(s[..n], Uncommaed(s[n..]), false);
      DropTrailingStep(Str(s[..n]), Lex(s[n..], false).value);
    } else if Structural(s[0]) {
      CommasGo(s[1..]);
      LexMark(s[0], Uncommaed(s[1..]), false);
      DropTrailingStep(Mark(s[0]), Lex(s[1..], false).value);
      if s[0] == ',' {
        CommaPasses(s);
        CloserIsNext(s[1..]);
      } else {
        SpacePasses(s);
      }
    } else {
      var n := AtomLength(s);
      AtomLengthMeans(s);
      AtomsPass(s, n);
      CommasGo(s[n..]);
      NoAtomAppears(s[n..]);
      LexAtom(s[..n], Uncommaed(s[n..]), false);
      DropTrailingStep(Atom(s[..n]), Lex(s[n..], false).value);
    }
  }

  // ------------------------------------------------------------------- the theorems

  /**
    Stripping preserves meaning. For every text that has tokens, comments allowed,
    no two atoms side by side: the result is plain JSON text, with the same tokens,
    strings character for character, but for the commas that a closer follows.
   */
  lemma StrippingKeepsTokens(s: string)
    requires Lex(s, true).Some? && AtomsApart(Lex(s, true).value)
    ensures Lex(Strip(s), false) == Some(DropTrailing(Lex(s, true).value))
  {
    CommentsGo(s);
    CommasGo(Uncommented(s));
  }

  /** These tokens with a comma before the closers that `at` picks. */
  function WithTrailing(ts: seq<Token>, at: seq<bool>): seq<Token>
    requires |ts| == |at|
  {
    if ts == [] then []
    else (if at[0] && IsCloser(ts[0]) then [Mark(','), ts[0]] else [ts[0]]) + WithTrailing(ts[1..], at[1..])
  }

  predicate NoTrailing(ts: seq<Token>)
  {
    forall i | 0 < i < |ts| :: !(ts[i - 1] == Mark(',') && IsCloser(ts[i]))
  }

  /** Trailing commas written into a list of tokens that has none are what stripping takes out. */
  lemma {:induction false} TrailingCommasGo(ts: seq<Token>, at: seq<bool>)
    requires |ts| == |at| && NoTrailing(ts)
    ensures DropTrailing(WithTrailing(ts, at)) == ts
    ensures ts != [] ==> WithTrailing(ts, at) != [] && WithTrailing(ts, at)[0] in {ts[0], Mark(',')}
    ensures ts != [] && ts[0] != Mark(',') && !IsCloser(ts[0]) ==> WithTrailing(ts, at)[0] == ts[0]
  {
    if ts != [] {
      var rest := WithTrailing(ts[1..], at[1..]);
      TrailingCommasGo(ts[1..], at[1..]);
      DropTrailingStep(ts[0], rest);
      if at[0] && IsCloser(ts[0]) {
        DropTrailingStep(Mark(','), [ts[0]] + rest);
        assert WithTrailing(ts, at) == [Mark(',')] + ([ts[0]] + rest);
      }
      assert NoTrailing(ts) && |ts| > 1 ==> !(ts[0] == Mark(',') && IsCloser(ts[1]));
    }
  }

  // --------------------------------------------------------------- on every text

  /** No comment opens outside a string. */
  predicate Commentless(s: string)
    decreases |s|
  {
    s == [] ||
    if s[0] == '"' then Commentless(s[Literal(s)..])
    else !LineOpens(s) && !BlockOpens(s) && Commentless(s[1..])
  }

  /** No comma outside a string has only whitespace between it and a closer. */
  predicate Commaless(s: string)
    decreases |s|
  {
    s == [] ||
    if s[0] == '"' then Commaless(s[Literal(s)..])
    else !(s[0] == ',' && ClosesNext(s[1..])) && Commaless(s[1..])
  }

  lemma {:induction false} OpenToTheEnd(s: string)
    requires !Closed(s)
    ensures StringLength(s) == |s|
  {
    if s != [] {
      if s[0] == '\\' && |s| > 1 {
        OpenToTheEnd(s[2..]);
      } else {
        OpenToTheEnd(s[1..]);
      }
    }
  }

  /** A string copied in front of any text is still that string; one that is not closed goes on to the end. */
  lemma LiteralAgain(s: string, r: string)
    requires s != [] && s[0] == '"' && (Closed(s[1..]) || r == [])
    ensures var t := s[..Literal(s)] + r;
            t != [] && t[0] == '"' && Literal(t) == Literal(s) && t[Literal(s)..] == r
  {
    var w := s[..Literal(s)];
    var t := w + r;
    assert t[1..] == w[1..] + r && t[|w|..] == r;
    assert w[1..] == s[1..][..StringLength(s[1..])];
    if Closed(s[1..]) {
      ClosedPart(s[1..]);
      StringGoesOn(w[1..], r);
    } else {
      OpenToTheEnd(s[1..]);
      assert t == s;
    }
    hide Closed, StringLength;
  }

  lemma RestOfOpen(s: string)
    requires s != [] && s[0] == '"' && !Closed(s[1..])
    ensures s[Literal(s)..] == []
  {
    OpenToTheEnd(s[1..]);
  }

  predicate OpensNothing(s: string)
  {
    s == [] || (s[0] != '/' && s[0] != '*')
  }

  /** The first pass leaves no comment opener outside a string, whatever the text. */
  lemma {:induction false} UncommentedIsCommentless(s: string)
    ensures Commentless(Uncommented(s))
    decreases |s|
  {
    if s == [] {
    } else if s[0] == '"' {
      var rest := s[Literal(s)..];
      UncommentedIsCommentless(rest);
      if !Closed(s[1..]) {
        RestOfOpen(s);
      }
      LiteralAgain(s, Uncommented(rest));
    } else if LineOpens(s) {
      UncommentedIsCommentless(AfterLine(s[1..]));
    } else if BlockOpens(s) {
      UncommentedIsCommentless(AfterBlock(s[2..]));
    } else {
      UncommentedIsCommentless(s[1..]);
      var r := Uncommented(s[1..]);
      assert ([s[0]] + r)[1..] == r;
      if s[0] == '/' {
        assert OpensNothing(s[1..]);
        FirstIsKept(s[1..]);
      }
    }
  }

  lemma FirstIsKept(s: string)
    requires OpensNothing(s)
    ensures OpensNothing(Uncommented(s))
  {
  }

  lemma {:induction false} FirstIsKeptToo(s: string)
    requires OpensNothing(s)
    ensures OpensNothing(Uncommaed(s))
  {
    if s != [] && s[0] == ',' && ClosesNext(s[1..]) {
      assert Space(s[1]) || Closer(s[1]);
      FirstIsKeptToo(s[1..]);
    }
  }

  /** The second pass brings no comment opener about. */
  lemma {:induction false} UncommaedStaysCommentless(s: string)
    requires Commentless(s)
    ensures Commentless(Uncommaed(s))
    decreases |s|
  {
    if s == [] {
    } else if s[0] == '"' {
      var rest := s[Literal(s)..];
      UncommaedStaysCommentless(rest);
      if !Closed(s[1..]) {
        RestOfOpen(s);
      }
      LiteralAgain(s, Uncommaed(rest));
    } else {
      UncommaedStaysCommentless(s[1..]);
      var r := Uncommaed(s[1..]);
      assert ([s[0]] + r)[1..] == r;
      if s[0] == '/' {
        assert OpensNothing(s[1..]);
        FirstIsKeptToo(s[1..]);
      }
    }
  }

  /** No stripped text has a comment opener outside a string. */
  lemma StrippedIsCommentless(s: string)
    ensures Commentless(Strip(s))
  {
    UncommentedIsCommentless(s);
    UncommaedStaysCommentless(Uncommented(s));
  }

  lemma {:induction false} FirstPassKeepsIff(s: string)
    ensures |Uncommented(s)| <= |s| && (|Uncommented(s)| == |s| <==> Commentless(s))
    ensures Commentless(s) ==> Uncommented(s) == s
    decreases |s|
  {
    if s == [] {
    } else if s[0] == '"' {
      FirstPassKeepsIff(s[Literal(s)..]);
    } else if LineOpens(s) {
      FirstPassKeepsIff(AfterLine(s[1..]));
    } else if BlockOpens(s) {
      FirstPassKeepsIff(AfterBlock(s[2..]));
    } else {
      FirstPassKeepsIff(s[1..]);
    }
  }

  lemma {:induction false} SecondPassKeepsIff(s: string)
    ensures |Uncommaed(s)| <= |s| && (|Uncommaed(s)| == |s| <==> Commaless(s))
    ensures Commaless(s) ==> Uncommaed(s) == s
    decreases |s|
  {
    if s == [] {
    } else if s[0] == '"' {
      SecondPassKeepsIff(s[Literal(s)..]);
    } else {
      SecondPassKeepsIff(s[1..]);
    }
  }

  /** A text comes back unchanged exactly when it has neither comments nor trailing commas. */
  lemma UnchangedIff(s: string)
    ensures Strip(s) == s <==> Commentless(s) && Commaless(s)
  {
    FirstPassKeepsIff(s);
    SecondPassKeepsIff(s);
    SecondPassKeepsIff(Uncommented(s));
  }

  /** In a text that has tokens, a trailing comma is a comma token before a closer. */
  lemma {:induction false} CommalessIff(s: string)
    requires Lex(s, false).Some?
    ensures Commaless(s) <==> NoTrailing(Lex(s, false).value)
    decreases |s|
  {
    if s == [] {
    } else if JsonSpace(s[0]) {
      CommalessIff(s[1..]);
    } else if s[0] == '"' {
      CommalessIff(s[Literal(s)..]);
      NoTrailingStep(Str(s[..Literal(s)]), Lex(s[Literal(s)..], false).value);
    } else if Structural(s[0]) {
      CommalessIff(s[1..]);
      CloserIsNext(s[1..]);
      NoTrailingStep(Mark(s[0]), Lex(s[1..], false).value);
    } else {
      var n := AtomLength(s);
      AtomLengthMeans(s);
      AtomsAreNoCommas(s, n);
      CommalessIff(s[n..]);
      NoTrailingStep(Atom(s[..n]), Lex(s[n..], false).value);
    }
  }

  lemma {:induction false} AtomsAreNoCommas(s: string, n: nat)
    requires n <= |s| && forall i | 0 <= i < n :: AtomChar(s[i])
    ensures Commaless(s) <==> Commaless(s[n..])
  {
    if n > 0 {
      AtomsAreNoCommas(s[1..], n - 1);
      assert s[1..][n - 1..] == s[n..];
      assert s[0] != '"' && s[0] != ',';
    } else {
      assert s[0..] == s;
    }
  }

  lemma NoTrailingStep(t: Token, ts: seq<Token>)
    ensures NoTrailing([t] + ts) <==> !(t == Mark(',') && ts != [] && IsCloser(ts[0])) && NoTrailing(ts)
  {
    var all := [t] + ts;
    assert ts != [] ==> all[0] == t && all[1] == ts[0];
    if NoTrailing(all) {
      assert ts != [] ==> !(all[1 - 1] == Mark(',') && IsCloser(all[1]));
      forall i | 0 < i < |ts|
        ensures !(ts[i - 1] == Mark(',') && IsCloser(ts[i]))
      {
        assert all[i] == ts[i - 1] && all[i + 1] == ts[i];
      }
    }
  }

  /** Two commas in a row, and a closer after them. */
  predicate Doubled(ts: seq<Token>)
  {
    exists i | 1 < i < |ts| :: DoubledAt(ts, i)
  }

  lemma {:induction false} DroppingLeavesIff(ts: seq<Token>)
    ensures NoTrailing(DropTrailing(ts)) <==> !Doubled(ts)
  {
    if ts != [] {
      var t, rest := ts[0], ts[1..];
      assert ts == [t] + rest;
      DroppingLeavesIff(rest);
      DropTrailingStep(t, rest);
      NoTrailingStep(t, DropTrailing(rest));
      DoubledStep(t, rest);
      if rest != [] {
        assert rest == [rest[0]] + rest[1..];
        DropTrailingStep(rest[0], rest[1..]);
      }
    }
  }

  predicate DoubledAt(ts: seq<Token>, i: int)
  {
    1 < i < |ts| && ts[i - 2] == Mark(',') && ts[i - 1] == Mark(',') && IsCloser(ts[i])
  }

  lemma DoubledStep(t: Token, ts: seq<Token>)
    ensures Doubled([t] + ts) <==> Doubled(ts) || (|ts| > 1 && t == Mark(',') && ts[0] == Mark(',') && IsCloser(ts[1]))
  {
    var all := [t] + ts;
    forall i | 2 < i < |all|
      ensures DoubledAt(all, i) <==> DoubledAt(ts, i - 1)
    {
      assert all[i - 2] == ts[i - 3] && all[i - 1] == ts[i - 2] && all[i] == ts[i - 1];
    }
    assert |ts| > 1 ==> all[0] == t && all[1] == ts[0] && all[2] == ts[1];
    if Doubled(ts) {
      var i :| 1 < i < |ts| && DoubledAt(ts, i);
      assert DoubledAt(all, i + 1) <==> DoubledAt(ts, i + 1 - 1);
      assert DoubledAt(all, i + 1);
    }
    assert |ts| > 1 ==> (DoubledAt(all, 2) <==> t == Mark(',') && ts[0] == Mark(',') && IsCloser(ts[1]));
    hide DoubledAt;
  }

  /** After these characters: only whitespace, then a comma that a closer follows. */
  predicate TrailingNext(s: string)
  {
    var r := SkipSpace(s);
    r != [] && r[0] == ',' && ClosesNext(r[1..])
  }

  /** Outside strings, no comma that stays has only whitespace between it and a comma that goes. */
  predicate Undoubled(s: string)
    decreases |s|
  {
    s == [] ||
    if s[0] == '"' then Undoubled(s[Literal(s)..])
    else !(s[0] == ',' && !ClosesNext(s[1..]) && TrailingNext(s[1..])) && Undoubled(s[1..])
  }

  /** Whitespace stays, and so does a closer that comes next. */
  lemma {:induction false} CloserStaysNext(s: string)
    requires ClosesNext(s)
    ensures ClosesNext(Uncommaed(s))
  {
    assert s[0] != '"' && s[0] != ',';
    var r := Uncommaed(s[1..]);
    assert ([s[0]] + r)[1..] == r;
    if Space(s[0]) {
      CloserStaysNext(s[1..]);
    }
  }

  /** After the second pass a closer comes next exactly where one did, or where a comma before one went. */
  lemma {:induction false} ClosesAfterIff(s: string)
    ensures ClosesNext(Uncommaed(s)) <==> ClosesNext(s) || TrailingNext(s)
  {
    if s != [] {
      if Space(s[0]) {
        var r := Uncommaed(s[1..]);
        assert ([s[0]] + r)[1..] == r;
        ClosesAfterIff(s[1..]);
      } else if s[0] == ',' && ClosesNext(s[1..]) {
        CloserStaysNext(s[1..]);
      }
    }
  }

  lemma {:induction false} CommalessAfterIff(s: string)
    ensures Commaless(Uncommaed(s)) <==> Undoubled(s)
    decreases |s|
  {
    if s == [] {
    } else if s[0] == '"' {
      var rest := s[Literal(s)..];
      CommalessAfterIff(rest);
      if !Closed(s[1..]) {
        RestOfOpen(s);
      }
      LiteralAgain(s, Uncommaed(rest));
    } else {
      CommalessAfterIff(s[1..]);
      ClosesAfterIff(s[1..]);
      var r := Uncommaed(s[1..]);
      assert ([s[0]] + r)[1..] == r;
    }
  }

  /** On every text: stripping twice is stripping once exactly when the text without its comments has no doubled trailing comma. */
  lemma StrippingAgainIff(s: string)
    ensures Strip(Strip(s)) == Strip(s) <==> Undoubled(Uncommented(s))
  {
    StrippedIsCommentless(s);
    UnchangedIff(Strip(s));
    CommalessAfterIff(Uncommented(s));
    hide Commentless, Commaless, Uncommaed, Uncommented, Undoubled;
  }

  /** On a text with tokens: exactly when no closer has two commas before it. */
  lemma StrippingTokensAgainIff(s: string)
    requires Lex(s, true).Some? && AtomsApart(Lex(s, true).value)
    ensures Strip(Strip(s)) == Strip(s) <==> !Doubled(Lex(s, true).value)
  {
    StrippingKeepsTokens(s);
    StrippedIsCommentless(s);
    UnchangedIff(Strip(s));
    CommalessIff(Strip(s));
    DroppingLeavesIff(Lex(s, true).value);
    hide Lex, Strip, Commentless, Commaless, NoTrailing, DropTrailing, Doubled;
  }

  /** It is not always so. */
  lemma StrippingAgainCanDiffer()
    ensures Strip("[1,,]") == "[1,]" && Strip("[1,]") == "[1]"
  {
    hide Uncommented, Commentless;
    FirstPassKeepsIff("[1,,]");
    FirstPassKeepsIff("[1,]");
    PlainIsCommentless("[1,,]");
    PlainIsCommentless("[1,]");
    SecondPassOfTwo();
  }

  lemma SecondPassOfOne()
    ensures Uncommaed("]") == "]" && Uncommaed(",]") == "]" && Uncommaed("1,]") == "1]" && Uncommaed("[1,]") == "[1]"
  {
    SpacePasses("]");
    assert Uncommaed("]") == "]";
    hide Uncommaed;
    assert ",]"[1..] == "]" && "1,]"[1..] == ",]" && "[1,]"[1..] == "1,]";
    CommaPasses(",]");
    AtomPasses("1,]");
    SpacePasses("[1,]");
  }

  lemma SecondPassOfTwo()
    ensures Uncommaed("[1,,]") == "[1,]" && Uncommaed("[1,]") == "[1]"
  {
    hide Uncommaed;
    SecondPassOfOne();
    assert ",,]"[1..] == ",]" && "1,,]"[1..] == ",,]" && "[1,,]"[1..] == "1,,]";
    CommaPasses(",,]");
    AtomPasses("1,,]");
    SpacePasses("[1,,]");
  }

  lemma {:induction false} PlainIsCommentless(s: string)
    requires '/' !in s && '"' !in s
    ensures Commentless(s)
  {
    if s != [] {
      PlainIsCommentless(s[1..]);
    }
  }
}
