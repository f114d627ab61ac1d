/**
  Reading JSON with comments (src-tauri/src/scaffold_runner.rs, `strip_jsonc`):
  one pass drops the comments, a second one the trailing commas. The reference is
  a lexer for JSON (RFC 8259, sections 2 and 7), with comments allowed or not:
  stripping keeps every token but the trailing commas.
 */
module Jsonc {
  // ---------------------------------------------------------------- characters

  /** `char::is_whitespace`: the Unicode property White_Space. */
  predicate Space(c: char)
  {
    || '\t' <= c <= '\r' || c == ' ' || c == '\U{0085}' || c == '\U{00A0}' || c == '\U{1680}'
    || '\U{2000}' <= c <= '\U{200A}' || c == '\U{2028}' || c == '\U{2029}' || c == '\U{202F}'
    || c == '\U{205F}' || c == '\U{3000}'
  }

  /** The whitespace of RFC 8259, section 2. */
  predicate JsonSpace(c: char)
  {
    c == ' ' || c == '\t' || c == '\n' || c == '\r'
  }

  predicate Closer(c: char)
  {
    c == '}' || c == ']'
  }

  predicate Structural(c: char)
  {
    c == '{' || c == '[' || c == ':' || c == ',' || Closer(c)
  }

  /** What numbers and the literal names are written with. */
  predicate AtomChar(c: char)
  {
    'a' <= c <= 'z' || 'A' <= c <= 'Z' || '0' <= c <= '9' || c == '+' || c == '-' || c == '.'
  }

  // ---------------------------------------------------------- the parts of a text

  /** How much of the text belongs to a string that is already open, its closing quote included. */
  function StringLength(s: string): (n: nat)
    ensures n <= |s|
  {
    if s == [] then 0
    else if s[0] == '\\' && |s| > 1 then 2 + StringLength(s[2..])
    else if s[0] == '"' then 1
    else 1 + StringLength(s[1..])
  }

  /** The string that starts the text. */
  function Literal(s: string): (n: nat)
    requires s != [] && s[0] == '"'
    ensures 0 < n <= |s|
  {
    1 + StringLength(s[1..])
  }

  /** A string that is already open is closed. */
  predicate Closed(s: string)
  {
    if s == [] then false
    else if s[0] == '\\' && |s| > 1 then Closed(s[2..])
    else s[0] == '"' || Closed(s[1..])
  }

  predicate LineOpens(s: string)
  {
    |s| > 1 && s[0] == '/' && s[1] == '/'
  }

  predicate BlockOpens(s: string)
  {
    |s| > 1 && s[0] == '/' && s[1] == '*'
  }

  /** What follows a line comment: its newline, or nothing. */
  function AfterLine(s: string): (r: string)
    ensures |r| <= |s|
  {
    if s == [] || s[0] == '\n' then s else AfterLine(s[1..])
  }

  /** What follows a block comment that is already open; nothing, if it is never closed. */
  function AfterBlock(s: string): (r: string)
    ensures |r| <= |s|
  {
    if |s| < 2 then [] else if s[0] == '*' && s[1] == '/' then s[2..] else AfterBlock(s[1..])
  }

  predicate BlockCloses(s: string)
  {
    |s| >= 2 && ((s[0] == '*' && s[1] == '/') || BlockCloses(s[1..]))
  }

  function SkipSpace(s: string): (r: string)
    ensures |r| <= |s|
  {
    if s != [] && Space(s[0]) then SkipSpace(s[1..]) else s
  }

  /** After a comma: only whitespace, then a closer. */
  predicate ClosesNext(s: string)
  {
    var r := SkipSpace(s);
    r != [] && Closer(r[0])
  }

  // ------------------------------------------------------------------- the passes

  function Uncommented(s: string): (r: string)
    decreases |s|
  {
    if s == [] then []
    else if s[0] == '"' then s[..Literal(s)] + Uncommented(s[Literal(s)..])
    else if LineOpens(s) then Uncommented(AfterLine(s[1..]))
    else if BlockOpens(s) then Uncommented(AfterBlock(s[2..]))
    else [s[0]] + Uncommented(s[1..])
  }

  function Uncommaed(s: string): (r: string)
    decreases |s|
  {
    if s == [] then []
    else if s[0] == '"' then s[..Literal(s)] + Uncommaed(s[Literal(s)..])
    else if s[0] == ',' && ClosesNext(s[1..]) then Uncommaed(s[1..])
    else [s[0]] + Uncommaed(s[1..])
  }

  function Strip(s: string): string
  {
    Uncommaed(Uncommented(s))
  }

  // -------------------------------------------------------------------- the code

  /** What a pass still has to do, given whether a string is open. */
  function UncommentedFrom(s: string, inString: bool): string
  {
    if inString then s[..StringLength(s)] + Uncommented(s[StringLength(s)..]) else Uncommented(s)
  }

  function UncommaedFrom(s: string, inString: bool): string
  {
    if inString then s[..StringLength(s)] + Uncommaed(s[StringLength(s)..]) else Uncommaed(s)
  }

  function Drop(s: string, i: nat): string
  {
    if i <= |s| then s[i..] else []
  }

  lemma LiteralOpens(s: string)
    requires s != [] && s[0] == '"'
    ensures var n := StringLength(s[1..]);
            Literal(s) == 1 + n && s[..1 + n] == [s[0]] + s[1..][..n] && s[1 + n..] == s[1..][n..]
  {
    hide StringLength;
  }

  lemma NoString(s: string)
    ensures UncommentedFrom(s, false) == Uncommented(s)
    ensures UncommaedFrom(s, false) == Uncommaed(s)
  {
    hide Uncommented, Uncommaed;
  }

  lemma PassesComment(s: string)
    requires s != []
    ensures LineOpens(s) ==> UncommentedFrom(s, false) == UncommentedFrom(AfterLine(s), false)
    ensures BlockOpens(s) ==> UncommentedFrom(s, false) == UncommentedFrom(AfterBlock(s[2..]), false)
    ensures s[0] != '"' && !LineOpens(s) && !BlockOpens(s) ==>
              UncommentedFrom(s, false) == [s[0]] + UncommentedFrom(s[1..], false)
  {
    hide Literal, AfterBlock;
  }

  lemma PassesComma(s: string)
    requires s != [] && s[0] != '"'
    ensures UncommaedFrom(s, false) ==
            (if s[0] == ',' && ClosesNext(s[1..]) then [] else [s[0]]) + UncommaedFrom(s[1..], false)
  {
    hide Literal, ClosesNext;
  }

  lemma OpensString(s: string)
    requires s != [] && s[0] == '"'
    ensures UncommentedFrom(s, false) == [s[0]] + UncommentedFrom(s[1..], true)
  {
    NoString(s);
    hide StringLength, UncommentedFrom, UncommaedFrom, Literal, AfterLine, AfterBlock;
    LiteralOpens(s);
    OpenString(s[1..]);
    var n := StringLength(s[1..]);
    calc {
      Uncommented(s);
      s[..1 + n] + Uncommented(s[1 + n..]);
      ([s[0]] + s[1..][..n]) + Uncommented(s[1..][n..]);
      [s[0]] + (s[1..][..n] + Uncommented(s[1..][n..]));
    }
  }

  lemma OpensStringToo(s: string)
    requires s != [] && s[0] == '"'
    ensures UncommaedFrom(s, false) == [s[0]] + UncommaedFrom(s[1..], true)
  {
    NoString(s);
    hide StringLength, UncommentedFrom, UncommaedFrom, Literal, ClosesNext;
    LiteralOpens(s);
    OpenString(s[1..]);
    var n := StringLength(s[1..]);
    calc {
      Uncommaed(s);
      s[..1 + n] + Uncommaed(s[1 + n..]);
      ([s[0]] + s[1..][..n]) + Uncommaed(s[1..][n..]);
      [s[0]] + (s[1..][..n] + Uncommaed(s[1..][n..]));
    }
  }

  lemma OpenString(s: string)
    ensures var n := StringLength(s);
            && UncommentedFrom(s, true) == s[..n] + Uncommented(s[n..])
            && UncommaedFrom(s, true) == s[..n] + Uncommaed(s[n..])
  {
    hide Uncommented, Uncommaed, StringLength;
  }

  lemma InString(s: string)
    requires s != []
    ensures var k := if s[0] == '\\' && |s| > 1 then 2 else 1;
            var open := (s[0] == '\\' && |s| > 1) || s[0] != '"';
            && UncommentedFrom(s, true) == s[..k] + UncommentedFrom(s[k..], open)
            && UncommaedFrom(s, true) == s[..k] + UncommaedFrom(s[k..], open)
  {
    var k := if s[0] == '\\' && |s| > 1 then 2 else 1;
    if k == 2 || s[0] != '"' {
      var n := StringLength(s[k..]);
      assert StringLength(s) == k + n;
      assert s[..k + n] == s[..k] + s[k..][..n];
      assert s[k + n..] == s[k..][n..];
    }
    hide StringLength, Uncommented, Uncommaed;
  }

  /** What was written so far, and what is still to come, make up the whole result. */
  ghost predicate Underway(text: string, out: string, i: nat, inString: bool)
  {
    Uncommented(text) == out + UncommentedFrom(Drop(text, i), inString)
  }

  lemma Advance(text: string, out: string, i: nat, inString: bool, piece: string, j: nat, inString': bool)
    requires Underway(text, out, i, inString)
    requires UncommentedFrom(Drop(text, i), inString) == piece + UncommentedFrom(Drop(text, j), inString')
    ensures Underway(text, out + piece, j, inString')
  {
    hide UncommentedFrom, Uncommented;
    var r := UncommentedFrom(Drop(text, j), inString');
    assert out + (piece + r) == (out + piece) + r;
  }

  lemma DropMore(text: string, i: nat)
    requires i < |text|
    ensures var rest := Drop(text, i);
            && rest == text[i..] && rest != [] && rest[0] == text[i] && rest[..1] == [text[i]] && rest[1..] == Drop(text, i + 1)
            && (|rest| > 1 <==> i + 1 < |text|)
            && (i + 1 < |text| ==> rest[1] == text[i + 1] && rest[2..] == Drop(text, i + 2) && rest[..2] == [text[i], text[i + 1]])
  {
  }

  method StripComments(text: string) returns (out: string)
    ensures out == Uncommented(text)
  {
    hide Underway, UncommentedFrom, UncommaedFrom, Uncommented, StringLength, AfterLine, AfterBlock, Drop;
    out := [];
    var i := 0;
    var inString := false;
    StartsOut(text);
    while i < |text|
      invariant 0 <= i <= |text| + 2
      invariant Underway(text, out, i, inString)
      decreases |text| - i
    {
      var c := text[i];
      ghost var rest := Drop(text, i);
      DropMore(text, i);
      if inString {
        InString(rest);
        if c == '\\' && i + 1 < |text| {
          Advance(text, out, i, true, [c, text[i + 1]], i + 2, true);
          out := out + [c, text[i + 1]];
          i := i + 2;
          continue;
        }
        Advance(text, out, i, true, [c], i + 1, c != '"');
        out := out + [c];
        if c == '"' {
          inString := false;
        }
        i := i + 1;
        continue;
      }
      if c == '"' {
        OpensString(rest);
        Advance(text, out, i, false, [c], i + 1, true);
        inString := true;
        out := out + [c];
        i := i + 1;
        continue;
      }
      PassesComment(rest);
      if c == '/' && i + 1 < |text| && text[i + 1] == '/' {
        var after := SkipLine(text, i);
        Advance(text, out, i, false, [], after, false);
        assert out + [] == out;
        i := after;
        continue;
      }
      if c == '/' && i + 1 < |text| && text[i + 1] == '*' {
        DropMore(text, i + 1);
        var after := SkipBlock(text, i + 2);
        Advance(text, out, i, false, [], after, false);
        assert out + [] == out;
        i := after;
        continue;
      }
      Advance(text, out, i, false, [c], i + 1, false);
      out := out + [c];
      i := i + 1;
    }
    EndsOut(text, out, i, inString);
  }

  lemma StartsOut(text: string)
    ensures Underway(text, [], 0, false)
  {
    hide Uncommented;
    assert Drop(text, 0) == text;
  }

  lemma EndsOut(text: string, out: string, i: nat, inString: bool)
    requires i >= |text| && Underway(text, out, i, inString)
    ensures out == Uncommented(text)
  {
    hide Uncommented, UncommentedFrom;
    assert Drop(text, i) == [];
    EndsEmpty();
  }

  lemma EndsEmpty()
    ensures UncommentedFrom([], true) == [] == UncommentedFrom([], false)
    ensures UncommaedFrom([], true) == [] == UncommaedFrom([], false)
  {
  }

  /** The loop that passes over a line comment. */
  method SkipLine(text: string, start: nat) returns (i: nat)
    requires start < |text| && text[start] != '\n'
    ensures start < i <= |text| && Drop(text, i) == AfterLine(Drop(text, start))
  {
    i := start;
    while i < |text| && text[i] != '\n'
      invariant start <= i <= |text|
      invariant AfterLine(text[i..]) == AfterLine(text[start..])
      invariant i == start ==> text[i] != '\n'
    {
      i := i + 1;
    }
  }

  /** The loop that passes over a block comment, and its end; it may run over the end of the text. */
  method SkipBlock(text: string, start: nat) returns (i: nat)
    requires start <= |text|
    ensures start < i <= |text| + 2 && Drop(text, i) == AfterBlock(Drop(text, start))
  {
    i := start;
    while i + 1 < |text| && !(text[i] == '*' && text[i + 1] == '/')
      invariant start <= i <= |text|
      invariant AfterBlock(text[i..]) == AfterBlock(text[start..])
    {
      i := i + 1;
    }
    i := i + 2;
  }

  ghost predicate UnderwayToo(text: string, cleaned: string, j: nat, inString: bool)
  {
    Uncommaed(text) == cleaned + UncommaedFrom(Drop(text, j), inString)
  }

  lemma AdvanceToo(text: string, cleaned: string, j: nat, inString: bool, piece: string, k: nat, inString': bool)
    requires UnderwayToo(text, cleaned, j, inString)
    requires UncommaedFrom(Drop(text, j), inString) == piece + UncommaedFrom(Drop(text, k), inString')
    ensures UnderwayToo(text, cleaned + piece, k, inString')
  {
    hide UncommaedFrom, Uncommaed;
    var r := UncommaedFrom(Drop(text, k), inString');
    assert cleaned + (piece + r) == (cleaned + piece) + r;
  }

  method CleanCommas(out: string) returns (cleaned: string)
    ensures cleaned == Uncommaed(out)
  {
    hide UnderwayToo, UncommaedFrom, UncommentedFrom, Uncommaed, StringLength, SkipSpace, Space, Drop;
    cleaned := [];
    var j := 0;
    var inString := false;
    StartsCleaned(out);
    while j < |out|
      invariant 0 <= j <= |out|
      invariant UnderwayToo(out, cleaned, j, inString)
      decreases |out| - j
    {
      var c := out[j];
      ghost var rest := Drop(out, j);
      DropMore(out, j);
      if inString {
        InString(rest);
        if c == '\\' && j + 1 < |out| {
          AdvanceToo(out, cleaned, j, true, [c, out[j + 1]], j + 2, true);
          cleaned := cleaned + [c, out[j + 1]];
          j := j + 2;
          continue;
        }
        AdvanceToo(out, cleaned, j, true, [c], j + 1, c != '"');
        cleaned := cleaned + [c];
        if c == '"' {
          inString := false;
        }
        j := j + 1;
        continue;
      }
      if c == '"' {
        OpensStringToo(rest);
        AdvanceToo(out, cleaned, j, false, [c], j + 1, true);
        inString := true;
      } else {
        PassesComma(rest);
        if c == ',' {
          var k := SkipWhitespace(out, j + 1);
          if k < |out| && Closer(out[k]) {
            AdvanceToo(out, cleaned, j, false, [], j + 1, false);
            assert cleaned + [] == cleaned;
            j := j + 1;
            continue;
          }
        }
        AdvanceToo(out, cleaned, j, false, [c], j + 1, false);
      }
      cleaned := cleaned + [c];
      j := j + 1;
    }
    EndsCleaned(out, cleaned, j, inString);
  }

  lemma StartsCleaned(text: string)
    ensures UnderwayToo(text, [], 0, false)
  {
    hide Uncommaed;
    assert Drop(text, 0) == text;
  }

  lemma EndsCleaned(text: string, cleaned: string, j: nat, inString: bool)
    requires j >= |text| && UnderwayToo(text, cleaned, j, inString)
    ensures cleaned == Uncommaed(text)
  {
    hide Uncommaed, UncommaedFrom;
    assert Drop(text, j) == [];
    EndsEmpty();
  }

  method SkipWhitespace(out: string, start: nat) returns (k: nat)
    requires start <= |out|
    ensures start <= k <= |out| && out[k..] == SkipSpace(Drop(out, start))
    ensures ClosesNext(Drop(out, start)) <==> k < |out| && Closer(out[k])
  {
    k := start;
    while k < |out| && Space(out[k])
      invariant start <= k <= |out|
      invariant SkipSpace(out[k..]) == SkipSpace(out[start..])
    {
      k := k + 1;
    }
  }

  method StripJsonc(text: string) returns (cleaned: string)
    ensures cleaned == Strip(text)
  {
    var out := StripComments(text);
    cleaned := CleanCommas(out);
  }
}
