/**
  UTF-8 decoding of a terminal's output across reads
  (src-tauri/src/terminal_pty.rs, `Utf8Stream`).

  `Encode` is section 3 of RFC 3629. `Next` is how Rust's `str::from_utf8` reads the
  first character of its input; `NextMeetsStandard` proves that it accepts exactly
  the encodings, and that an error's length is that of the maximal subpart of
  section 3.9 of the Unicode Standard.
 */
module Utf8 {
  import opened Streams
  import opened Wrappers

  type Scalar = v: int | 0 <= v < 0xD800 || 0xE000 <= v < 0x110000

  type text = seq<Scalar>

  const REPLACEMENT: Scalar := 0xFFFD

  // ----------------------------------------------------------------- reference

  function Trail(v: nat): (b: byte)
    ensures Continuation(b)
  {
    (0x80 + v % 0x40) as byte
  }

  function Encode(v: Scalar): (code: bytes)
    ensures 1 <= |code| <= 4
  {
    if v < 0x80 then [v as byte]
    else if v < 0x800 then [(0xC0 + v / 0x40) as byte, Trail(v)]
    else if v < 0x10000 then [(0xE0 + v / 0x40 / 0x40) as byte, Trail(v / 0x40), Trail(v)]
    else [(0xF0 + v / 0x40 / 0x40 / 0x40) as byte, Trail(v / 0x40 / 0x40), Trail(v / 0x40), Trail(v)]
  }

  function EncodeAll(vs: text): bytes
  {
    if vs == [] then [] else Encode(vs[0]) + EncodeAll(vs[1..])
  }

  /** Some character's encoding begins with these bytes. */
  ghost predicate Initial(s: bytes)
  {
    exists v: Scalar :: s <= Encode(v)
  }

  /** The first character of the input: read whole, broken after `length` bytes, or cut off by the end. */
  datatype Reading = Char(scalar: Scalar, width: nat) | Invalid(length: nat) | Incomplete {
    /** The character it puts in the text: an error gives one U+FFFD. */
    function Out(): Scalar
    {
      if Char? then scalar else REPLACEMENT
    }

    /** How many bytes it is done with. */
    function Taken(): nat
      requires !Incomplete?
    {
      if Char? then width else length
    }
  }

  predicate Continuation(b: byte)
  {
    0x80 <= b <= 0xBF
  }

  predicate SecondOfThree(first: byte, second: byte)
  {
    || (first == 0xE0 && 0xA0 <= second <= 0xBF)
    || (0xE1 <= first <= 0xEC && Continuation(second))
    || (first == 0xED && 0x80 <= second <= 0x9F)
    || (0xEE <= first <= 0xEF && Continuation(second))
  }

  predicate SecondOfFour(first: byte, second: byte)
  {
    || (first == 0xF0 && 0x90 <= second <= 0xBF)
    || (0xF1 <= first <= 0xF3 && Continuation(second))
    || (first == 0xF4 && 0x80 <= second <= 0x8F)
  }

  /** Appending a continuation byte's six bits to the bits read so far. */
  function More(bits: int, b: byte): int
  {
    bits * 0x40 + (b as int - 0x80)
  }

  function Next(s: bytes): (r: Reading)
    requires s != []
    ensures r.Char? ==> 1 <= r.width <= |s|
    ensures r.Invalid? ==> 1 <= r.length <= 3 && r.length <= |s|
    ensures r.Incomplete? ==> |s| <= 3
  {
    var first := s[0] as int;
    if first < 0x80 then Char(first, 1)
    else if 0xC2 <= first <= 0xDF then
      if |s| < 2 then Incomplete
      else if !Continuation(s[1]) then Invalid(1)
      else Char(More(first - 0xC0, s[1]), 2)
    else if 0xE0 <= first <= 0xEF then
      if |s| < 2 then Incomplete
      else if !SecondOfThree(s[0], s[1]) then Invalid(1)
      else if |s| < 3 then Incomplete
      else if !Continuation(s[2]) then Invalid(2)
      else Char(More(More(first - 0xE0, s[1]), s[2]), 3)
    else if 0xF0 <= first <= 0xF4 then
      if |s| < 2 then Incomplete
      else if !SecondOfFour(s[0], s[1]) then Invalid(1)
      else if |s| < 3 then Incomplete
      else if !Continuation(s[2]) then Invalid(2)
      else if |s| < 4 then Incomplete
      else if !Continuation(s[3]) then Invalid(3)
      else Char(More(More(More(first - 0xF0, s[1]), s[2]), s[3]), 4)
    else Invalid(1)
  }

  /** Decoding a whole stream: one U+FFFD for each maximal invalid subpart, the cut-off end included. */
  function Lossy(s: bytes): text
    decreases |s|
  {
    if s == [] then []
    else
      var next := Next(s);
      [next.Out()] + if next.Incomplete? then [] else Lossy(s[next.Taken()..])
  }

  /** The text a stream settles so far, and the bytes that still wait for more. */
  datatype Split = Split(text: text, carry: bytes) {
    function After(v: Scalar): Split
    {
      this.(text := [v] + text)
    }
  }

  function Settle(s: bytes): (r: Split)
    ensures |r.carry| <= 3
    ensures r.carry == [] || Next(r.carry) == Incomplete
    decreases |s|
  {
    if s == [] then Split([], [])
    else
      var next := Next(s);
      if next.Incomplete? then Split([], s) else Settle(s[next.Taken()..]).After(next.Out())
  }

  // -------------------------------------------------------- about the reference

  lemma TrailMore(v: nat)
    ensures More(v / 0x40, Trail(v)) == v
  {
  }

  lemma MoreTrail(bits: nat, b: byte)
    requires Continuation(b)
    ensures var v := More(bits, b); v >= 0 && v / 0x40 == bits && Trail(v) == b
  {
  }

  /** An encoding at the front is read as its own character. */
  lemma EncodingIsRead(s: bytes, v: Scalar)
    requires Encode(v) <= s
    ensures Next(s) == Char(v, |Encode(v)|)
  {
    TrailMore(v);
    TrailMore(v / 0x40);
    TrailMore(v / 0x40 / 0x40);
    forall i | 0 <= i < |Encode(v)|
      ensures s[i] == Encode(v)[i]
    {
    }
  }

  lemma CharIsEncoding(s: bytes)
    requires s != [] && Next(s).Char?
    ensures Encode(Next(s).scalar) == s[..Next(s).width]
  {
    hide Encode, Trail, More;
    if s[0] < 0x80 {
      OneByte(s);
    } else if s[0] <= 0xDF {
      TwoBytes(s);
    } else if s[0] <= 0xEF {
      ThreeBytes(s);
    } else {
      FourBytes(s);
    }
  }

  lemma OneByte(s: bytes)
    requires s != [] && s[0] < 0x80
    ensures Next(s).Char? && Encode(Next(s).scalar) == s[..Next(s).width]
  {
  }

  lemma TwoBytes(s: bytes)
    requires s != [] && 0x80 <= s[0] <= 0xDF && Next(s).Char?
    ensures Encode(Next(s).scalar) == s[..Next(s).width]
  {
    hide Encode, Trail, More;
    var top := s[0] as int - 0xC0;
    TwoRange(top, s[1]);
    MoreTrail(top, s[1]);
    EncodeTwo(More(top, s[1]), top);
    assert s[..2] == [s[0], s[1]];
  }

  lemma ThreeBytes(s: bytes)
    requires s != [] && 0xE0 <= s[0] <= 0xEF && Next(s).Char?
    ensures Encode(Next(s).scalar) == s[..Next(s).width]
  {
    hide Encode, Trail, More;
    var top := s[0] as int - 0xE0;
    var bits := More(top, s[1]);
    ThreeRange(s[0], s[1], s[2]);
    MoreTrail(top, s[1]);
    MoreTrail(bits, s[2]);
    EncodeThree(More(bits, s[2]), bits, top);
    assert s[..3] == [s[0], s[1], s[2]];
  }

  lemma FourBytes(s: bytes)
    requires s != [] && 0xF0 <= s[0] && Next(s).Char?
    ensures Encode(Next(s).scalar) == s[..Next(s).width]
  {
    hide Encode, Trail, More;
    var top := s[0] as int - 0xF0;
    var bits := More(top, s[1]);
    var more := More(bits, s[2]);
    FourRange(s[0], s[1], s[2], s[3]);
    MoreTrail(top, s[1]);
    MoreTrail(bits, s[2]);
    MoreTrail(more, s[3]);
    EncodeFour(More(more, s[3]), more, bits, top);
    assert s[..4] == [s[0], s[1], s[2], s[3]];
  }

  lemma TwoRange(top: int, b: byte)
    requires 2 <= top < 0x20 && Continuation(b)
    ensures 0x80 <= More(top, b) < 0x800
  {
  }

  lemma ThreeRange(a: byte, b: byte, c: byte)
    requires SecondOfThree(a, b) && Continuation(c)
    ensures var v := More(More(a as int - 0xE0, b), c); 0x800 <= v < 0x10000 && !(0xD800 <= v < 0xE000)
  {
  }

  lemma FourRange(a: byte, b: byte, c: byte, d: byte)
    requires SecondOfFour(a, b) && Continuation(c) && Continuation(d)
    ensures 0x10000 <= More(More(More(a as int - 0xF0, b), c), d) < 0x110000
  {
  }

  lemma EncodeTwo(v: Scalar, top: int)
    requires 0x80 <= v < 0x800 && v / 0x40 == top
    ensures Encode(v) == [(0xC0 + top) as byte, Trail(v)]
  {
    hide Trail;
  }

  lemma EncodeThree(v: Scalar, bits: int, top: int)
    requires 0x800 <= v < 0x10000 && v / 0x40 == bits && bits / 0x40 == top
    ensures bits >= 0 && top >= 0 && Encode(v) == [(0xE0 + top) as byte, Trail(bits), Trail(v)]
  {
    hide Trail;
  }

  lemma EncodeFour(v: Scalar, more: int, bits: int, top: int)
    requires 0x10000 <= v && v / 0x40 == more && more / 0x40 == bits && bits / 0x40 == top
    ensures more >= 0 && bits >= 0 && top >= 0
    ensures Encode(v) == [(0xF0 + top) as byte, Trail(bits), Trail(more), Trail(v)]
  {
    hide Trail;
  }

  /** Bytes that complete what `Next` has accepted so far to a whole encoding. */
  function Completion(s: bytes): (rest: bytes)
    requires s != []
    ensures Next(s).Incomplete? ==> Next(s + rest).Char?
    ensures Next(s).Invalid? && Next(s).length > 1 ==> Next(s[..Next(s).length] + rest).Char?
  {
    var n := if Next(s).Invalid? then Next(s).length else |s|;
    var second := if s[0] == 0xE0 || s[0] == 0xF0 then [0xA0] else [0x80];
    if s[0] < 0xE0 then second
    else if s[0] < 0xF0 then (if n == 1 then second else []) + [0x80]
    else (if n == 1 then second else []) + (if n <= 2 then [0x80] else []) + [0x80]
  }

  /** A beginning that can be completed is the beginning of an encoding. */
  lemma CompletedIsInitial(s: bytes, rest: bytes)
    requires s + rest != [] && Next(s + rest).Char? && Next(s + rest).width >= |s|
    ensures Initial(s)
  {
    CharIsEncoding(s + rest);
    assert s <= Encode(Next(s + rest).scalar);
  }

  lemma CompletionIsNeeded(s: bytes, rest: bytes)
    requires s != [] && Next(s + rest).Char? && Next(s).Incomplete?
    ensures Next(s + rest).width > |s|
  {
  }

  lemma AcceptedIsNeeded(s: bytes, rest: bytes)
    requires s != [] && Next(s).Invalid? && Next(s).length > 1 && Next(s[..Next(s).length] + rest).Char?
    ensures Next(s[..Next(s).length] + rest).width > Next(s).length
  {
  }

  /** More input does not change how a settled first character reads. */
  lemma NextSettled(s: bytes, more: bytes)
    requires s != [] && !Next(s).Incomplete?
    ensures Next(s + more) == Next(s)
  {
  }

  /** An error is decided by the bytes it covers and the one after them. */
  lemma InvalidDecided(s: bytes, t: bytes)
    requires s != [] && Next(s).Invalid? && s[..if |s| > Next(s).length then Next(s).length + 1 else |s|] <= t
    ensures t != [] && Next(t) == Next(s)
  {
    var n := if |s| > Next(s).length then Next(s).length + 1 else |s|;
    forall i | 0 <= i < n
      ensures t[i] == s[i]
    {
      assert s[..n][i] == t[i];
    }
  }

  /**
    The standard's terms. A character is read exactly when an encoding stands at
    the front. Otherwise the input is `Incomplete` exactly when it is all the
    beginning of some encoding, and an error covers the longest beginning of an
    encoding, or one byte when there is none.
   */
  lemma NextMeetsStandard(s: bytes)
    requires s != []
    ensures match Next(s)
            case Char(v, width) => Encode(v) == s[..width]
            case Incomplete => Initial(s) && forall v: Scalar :: !(Encode(v) <= s)
            case Invalid(n) =>
              && (forall v: Scalar :: !(Encode(v) <= s))
              && (n > 1 ==> Initial(s[..n]))
              && !Initial(s[..if |s| > n then n + 1 else |s|])
  {
    if Next(s).Char? {
      CharIsEncoding(s);
    } else {
      forall v: Scalar
        ensures !(Encode(v) <= s)
      {
        if Encode(v) <= s {
          EncodingIsRead(s, v);
          assert false;
        }
      }
    }
    match Next(s)
    case Char(v, width) =>
    case Incomplete =>
      CompletionIsNeeded(s, Completion(s));
      CompletedIsInitial(s, Completion(s));
    case Invalid(n) =>
      if n > 1 {
        AcceptedIsNeeded(s, Completion(s));
        CompletedIsInitial(s[..n], Completion(s));
      }
      InvalidIsNotInitial(s);
  }

  lemma InvalidIsNotInitial(s: bytes)
    requires s != [] && Next(s).Invalid?
    ensures var n := Next(s).length; !Initial(s[..if |s| > n then n + 1 else |s|])
  {
    var n := Next(s).length;
    var t := s[..if |s| > n then n + 1 else |s|];
    forall v: Scalar
      ensures !(t <= Encode(v))
    {
      if t <= Encode(v) {
        InvalidDecided(s, Encode(v));
        EncodingIsRead(Encode(v), v);
        assert false;
      }
    }
  }

  /** What the bytes so far settle never changes: the rest is decoded from the carry alone. */
  lemma {:induction false} SettleConcat(s: bytes, more: bytes)
    ensures Settle(s + more) ==
            Split(Settle(s).text + Settle(Settle(s).carry + more).text, Settle(Settle(s).carry + more).carry)
    decreases |s|
  {
    hide Next;
    if s == [] {
      assert s + more == more;
    } else if !Next(s).Incomplete? {
      var n := Next(s).Taken();
      NextSettled(s, more);
      assert (s + more)[n..] == s[n..] + more;
      SettleConcat(s[n..], more);
    }
  }

  /** The whole-stream decoding is the settled text, and one U+FFFD if anything is left over. */
  lemma {:induction false} LossyOfSettled(s: bytes)
    ensures Lossy(s) == Settle(s).text + Lossy(Settle(s).carry)
    ensures Lossy(Settle(s).carry) == if Settle(s).carry == [] then [] else [REPLACEMENT]
    decreases |s|
  {
    hide Next;
    if s != [] && !Next(s).Incomplete? {
      LossyOfSettled(s[Next(s).Taken()..]);
    }
  }

  /** The examples of section 7 of RFC 3629. */
  lemma StandardExamples()
    ensures Encode(0x41) == [0x41] && Encode(0x2262) == [0xE2, 0x89, 0xA2] && Encode(0x391) == [0xCE, 0x91]
    ensures Encode(0xD55C) == [0xED, 0x95, 0x9C] && Encode(0x65E5) == [0xE6, 0x97, 0xA5] && Encode(0x233B4) == [0xF0, 0xA3, 0x8E, 0xB4]
  {
  }

  /** Decoding goes character by character: an encoding gives its character, an error one U+FFFD, a cut-off end one U+FFFD or a carry. */
  lemma DecodingGoesOn(v: Scalar, s: bytes)
    ensures Lossy(Encode(v) + s) == [v] + Lossy(s)
    ensures Settle(Encode(v) + s) == Split([v] + Settle(s).text, Settle(s).carry)
    ensures s != [] && Next(s).Invalid? ==>
              var rest := s[Next(s).length..];
              Lossy(s) == [0xFFFD] + Lossy(rest) && Settle(s) == Split([0xFFFD] + Settle(rest).text, Settle(rest).carry)
    ensures s != [] && Next(s).Incomplete? ==> Lossy(s) == [0xFFFD] && Settle(s) == Split([], s)
    ensures Lossy([]) == [] && Settle([]) == Split([], [])
  {
    EncodingIsRead(Encode(v) + s, v);
    assert (Encode(v) + s)[|Encode(v)|..] == s;
    hide Encode, Next;
  }

  /** Encoded text decodes to itself, with nothing held at the end. */
  lemma {:induction false} EncodedSettles(vs: text)
    ensures Settle(EncodeAll(vs)) == Split(vs, [])
  {
    hide Next, Encode;
    if vs != [] {
      var s := EncodeAll(vs);
      EncodingIsRead(s, vs[0]);
      assert s[|Encode(vs[0])|..] == EncodeAll(vs[1..]);
      EncodedSettles(vs[1..]);
    }
  }

  // --------------------------------------------------------------- str::from_utf8

  /** The answer of Rust's `str::from_utf8`: the text, or the end of its valid part and the error's length. */
  datatype Check = Valid(text: text) | Error(validUpTo: nat, errorLen: Option<nat>)

  function FromUtf8(s: bytes): (r: Check)
    ensures r.Error? ==> r.validUpTo < |s|
    decreases |s|
  {
    if s == [] then Valid([])
    else
      var next := Next(s);
      if next.Invalid? then Error(0, Some(next.length))
      else if next.Incomplete? then Error(0, None)
      else
        match FromUtf8(s[next.width..])
        case Valid(rest) => Valid([next.scalar] + rest)
        case Error(upTo, len) => Error(next.width + upTo, len)
  }

  lemma AcceptedIsEncoded(s: bytes)
    requires FromUtf8(s).Valid?
    ensures EncodeAll(FromUtf8(s).text) == s
    ensures Settle(s) == Split(FromUtf8(s).text, [])
  {
    EncodedBack(s);
    EncodedSettles(FromUtf8(s).text);
    hide FromUtf8, Settle, EncodeAll;
  }

  lemma {:induction false} EncodedBack(s: bytes)
    requires FromUtf8(s).Valid?
    ensures EncodeAll(FromUtf8(s).text) == s
    decreases |s|
  {
    hide Next, Encode;
    if s != [] {
      var n := Next(s).width;
      CharIsEncoding(s);
      var vs := FromUtf8(s).text;
      assert vs[1..] == FromUtf8(s[n..]).text;
      EncodedBack(s[n..]);
      assert s == s[..n] + s[n..];
    }
  }

  lemma {:induction false} EncodedIsAccepted(vs: text)
    ensures FromUtf8(EncodeAll(vs)) == Valid(vs)
  {
    if vs != [] {
      var s := EncodeAll(vs);
      EncodingIsRead(s, vs[0]);
      hide Next;
      assert s[|Encode(vs[0])|..] == EncodeAll(vs[1..]);
      EncodedIsAccepted(vs[1..]);
    }
  }

  /** `from_utf8` accepts exactly the encodings of texts. */
  lemma FromUtf8AcceptsIff(s: bytes)
    ensures FromUtf8(s).Valid? <==> exists vs: text :: EncodeAll(vs) == s
  {
    if FromUtf8(s).Valid? {
      AcceptedIsEncoded(s);
    }
    forall vs: text | EncodeAll(vs) == s
      ensures FromUtf8(s).Valid?
    {
      EncodedIsAccepted(vs);
    }
  }

  /** What an error says about the bytes after the valid part. */
  lemma {:induction false} ErrorIsNext(s: bytes)
    requires FromUtf8(s).Error?
    ensures var e := FromUtf8(s);
            var next := Next(s[e.validUpTo..]);
            !next.Char? && e.errorLen == if next.Invalid? then Some(next.length) else None
    decreases |s|
  {
    hide Next;
    var upTo := FromUtf8(s).validUpTo;
    if Next(s).Char? {
      ErrorIsNext(s[Next(s).width..]);
      assert s[upTo..] == s[Next(s).width..][upTo - Next(s).width..];
    } else {
      assert s[upTo..] == s;
    }
  }

  /** The part before the error is valid by itself, so re-reading it never falls back to a default. */
  lemma {:induction false} ValidPartIsValid(s: bytes)
    requires FromUtf8(s).Error?
    ensures FromUtf8(s[..FromUtf8(s).validUpTo]).Valid?
    decreases |s|
  {
    var upTo := FromUtf8(s).validUpTo;
    if Next(s).Char? {
      var n := Next(s).width;
      CharIsEncoding(s);
      assert s[..upTo][..n] == s[..n];
      EncodingIsRead(s[..upTo], Next(s).scalar);
      hide Next;
      ValidPartIsValid(s[n..]);
      assert s[..upTo][n..] == s[n..][..upTo - n];
    }
  }

  /** One turn of the decoding loop, in terms of what the rest of the input settles. */
  lemma LoopTurn(rest: bytes)
    ensures FromUtf8(rest).Valid? ==> Settle(rest) == Split(FromUtf8(rest).text, [])
    ensures FromUtf8(rest).Error? ==> FromUtf8(rest[..FromUtf8(rest).validUpTo]).Valid?
    ensures FromUtf8(rest).Error? ==>
              var r := FromUtf8(rest);
              var valid, after := FromUtf8(rest[..r.validUpTo]).text, rest[r.validUpTo..];
              if r.errorLen.None? then Settle(rest) == Split(valid, after)
              else
                && 0 < r.errorLen.value <= |after|
                && var later := Settle(after[r.errorLen.value..]);
                   Settle(rest) == Split(valid + [REPLACEMENT] + later.text, later.carry)
  {
    hide Next;
    match FromUtf8(rest)
    case Valid(valid) => AcceptedIsEncoded(rest);
    case Error(upTo, errorLen) =>
      ErrorIsNext(rest);
      ErrorSettles(rest);
      hide FromUtf8;
      AfterError(rest[upTo..]);
  }

  /** The valid part is settled, and the rest settles as it would alone. */
  lemma ErrorSettles(s: bytes)
    requires FromUtf8(s).Error?
    ensures var upTo := FromUtf8(s).validUpTo;
            && FromUtf8(s[..upTo]).Valid?
            && Settle(s) == Split(FromUtf8(s[..upTo]).text + Settle(s[upTo..]).text, Settle(s[upTo..]).carry)
  {
    hide Next, FromUtf8, Settle;
    ValidPartIsValid(s);
    var upTo := FromUtf8(s).validUpTo;
    AcceptedIsEncoded(s[..upTo]);
    SettleConcat(s[..upTo], s[upTo..]);
    assert s[..upTo] + s[upTo..] == s;
    assert [] + s[upTo..] == s[upTo..];
  }

  lemma AfterError(after: bytes)
    requires after != [] && !Next(after).Char?
    ensures Next(after).Incomplete? ==> Settle(after) == Split([], after)
    ensures Next(after).Invalid? ==>
              var n := Next(after).length;
              && 0 < n <= |after|
              && Settle(after) == Split([REPLACEMENT] + Settle(after[n..]).text, Settle(after[n..]).carry)
  {
    hide Next;
  }

  // -------------------------------------------------------------------- the code

  class Utf8Stream {
    var carry: bytes
    ghost var fed: bytes
    ghost var given: text

    /** Whatever the cuts were, text and carry are those of the whole stream. */
    ghost predicate Valid()
      reads this
    {
      Settle(fed) == Split(given, carry)
    }

    constructor ()
      ensures Valid() && fed == [] && given == []
    {
      carry, fed, given := [], [], [];
    }

    method Decode(chunk: bytes) returns (out: text)
      requires Valid()
      modifies this
      ensures Valid() && |carry| <= 3
      ensures fed == old(fed) + chunk && given == old(given) + out
    {
      hide Next, FromUtf8, Settle;
      var input := carry + chunk;
      carry := [];
      out := [];
      var rest := input;
      while true
        invariant Settle(input) == Split(out + Settle(rest).text, Settle(rest).carry)
        invariant carry == [] && fed == old(fed) && given == old(given)
        decreases |rest|
      {
        LoopTurn(rest);
        match FromUtf8(rest)
        case Valid(valid) =>
          out := out + valid;
          break;
        case Error(validUpTo, errorLen) =>
          var valid, after := rest[..validUpTo], rest[validUpTo..];
          out := out + match FromUtf8(valid) case Valid(t) => t case Error(_, _) => [];
          match errorLen {
            case Some(len) =>
              out := out + [REPLACEMENT];
              rest := after[len..];
            case None =>
              carry := after;
              break;
          }
      }
      assert Settle(input) == Split(out, carry);
      SettleConcat(fed, chunk);
      fed, given := fed + chunk, given + out;
    }

    /** With the tail, the text given out is the whole-stream decoding. */
    method Finish() returns (tail: text)
      requires Valid()
      modifies this
      ensures carry == [] && fed == old(fed) && given == old(given) + tail
      ensures given == Lossy(fed)
    {
      LossyOfSettled(fed);
      tail := Lossy(carry);
      carry := [];
      given := given + tail;
    }
  }
}
