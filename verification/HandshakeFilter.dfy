/**
  The filter at the front of a terminal's output: it answers the console host's
  first cursor query and removes it from the stream
  (src-tauri/src/terminal_pty.rs, `HandshakeFilter`).

  The reference definition is `Forwarded`: a function of the whole stream and of
  how far into it the filter has searched. The class keeps, after every read, a
  state that is exactly what `Forwarded` says about all the reads so far.
 */
module HandshakeFilter {
  import opened Streams
  import opened Wrappers

  /** ESC [ 6 n */
  const CURSOR_QUERY: bytes := [0x1b, 0x5b, 0x36, 0x6e]
  const SCAN_BUDGET: nat := 64

  // ---------------------------------------------------------------- reference

  predicate QueryAt(s: bytes, p: nat)
  {
    && p + |CURSOR_QUERY| <= |s|
    && s[p] == CURSOR_QUERY[0] && s[p + 1] == CURSOR_QUERY[1]
    && s[p + 2] == CURSOR_QUERY[2] && s[p + 3] == CURSOR_QUERY[3]
  }

  /** Where the first query starts. */
  function FirstQuery(s: bytes): (at: Option<nat>)
    ensures at.Some? ==> QueryAt(s, at.value) && forall q: nat | q < at.value :: !QueryAt(s, q)
    ensures at.None? ==> forall q: nat :: !QueryAt(s, q)
  {
    FirstQueryFrom(s, 0)
  }

  function FirstQueryFrom(s: bytes, start: nat): (at: Option<nat>)
    ensures at.Some? ==> start <= at.value && QueryAt(s, at.value) && forall q: nat | start <= q < at.value :: !QueryAt(s, q)
    ensures at.None? ==> forall q: nat | start <= q :: !QueryAt(s, q)
    decreases |s| - start
  {
    if start + |CURSOR_QUERY| > |s| then None
    else if QueryAt(s, start) then Some(start)
    else FirstQueryFrom(s, start + 1)
  }

  predicate EndsInQueryPrefix(s: bytes, n: nat)
  {
    && n < |CURSOR_QUERY| && n <= |s|
    && (n >= 1 ==> s[|s| - n] == CURSOR_QUERY[0])
    && (n >= 2 ==> s[|s| - n + 1] == CURSOR_QUERY[1])
    && (n >= 3 ==> s[|s| - n + 2] == CURSOR_QUERY[2])
  }

  /** The longest proper prefix of the query that the stream ends in. */
  function HeldBack(s: bytes): (n: nat)
    ensures EndsInQueryPrefix(s, n)
    ensures forall m: nat | EndsInQueryPrefix(s, m) :: m <= n
  {
    if EndsInQueryPrefix(s, 3) then 3
    else if EndsInQueryPrefix(s, 2) then 2
    else if EndsInQueryPrefix(s, 1) then 1
    else 0
  }

  /** How many bytes of the stream are searched: whole reads, until the budget is reached. */
  function Searched(chunks: seq<bytes>): (n: nat)
    ensures n <= |Concat(chunks)|
    ensures n < SCAN_BUDGET ==> n == |Concat(chunks)|
  {
    if chunks == [] then 0
    else
      var before := Searched(chunks[..|chunks| - 1]);
      if before >= SCAN_BUDGET then before else before + |chunks[|chunks| - 1]|
  }

  /** The stream without its first query, as far as the first `searched` bytes show one. */
  function Stripped(stream: bytes, searched: nat): bytes
    requires searched <= |stream|
  {
    match FirstQuery(stream[..searched])
    case Some(p) => stream[..p] + stream[p + |CURSOR_QUERY|..]
    case None =>
      if searched >= SCAN_BUDGET then stream else stream[..|stream| - HeldBack(stream)]
  }

  /** What reaches the decoder out of the reads so far. */
  function Forwarded(chunks: seq<bytes>): bytes
  {
    Stripped(Concat(chunks), Searched(chunks))
  }

  function Replies(chunks: seq<bytes>): nat
  {
    if FirstQuery(Concat(chunks)[..Searched(chunks)]).Some? then 1 else 0
  }

  /** The filter is done once it has found the query or spent its budget. */
  predicate Done(chunks: seq<bytes>)
  {
    FirstQuery(Concat(chunks)[..Searched(chunks)]).Some? || Searched(chunks) >= SCAN_BUDGET
  }

  // -------------------------------------------------------- about the reference

  lemma FirstQueryUnique(s: bytes, p: nat)
    requires QueryAt(s, p) && forall q: nat | q < p :: !QueryAt(s, q)
    ensures FirstQuery(s) == Some(p)
  {
  }

  lemma HeldBackUnique(s: bytes, n: nat)
    requires EndsInQueryPrefix(s, n) && forall m: nat | EndsInQueryPrefix(s, m) :: m <= n
    ensures HeldBack(s) == n
  {
  }

  lemma QueryAtPrefix(s: bytes, n: nat, p: nat)
    requires n <= |s|
    ensures QueryAt(s[..n], p) <==> QueryAt(s, p) && p + |CURSOR_QUERY| <= n
  {
    if p + |CURSOR_QUERY| <= n {
      assert s[..n][p..p + |CURSOR_QUERY|] == s[p..p + |CURSOR_QUERY|];
    }
  }

  /** Looking further never moves the first query. */
  lemma FirstQueryOfPrefix(s: bytes, n: nat)
    requires n <= |s|
    ensures FirstQuery(s[..n]) ==
            (match FirstQuery(s)
             case Some(p) => if p + |CURSOR_QUERY| <= n then Some(p) else None
             case None => None)
  {
    forall p: nat { QueryAtPrefix(s, n, p); }
  }

  lemma EndSplits(s: bytes, n: nat)
    requires EndsInQueryPrefix(s, n)
    ensures s == s[..|s| - n] + CURSOR_QUERY[..n]
  {
    var i := |s| - n;
    if n == 1 {
      assert s == s[..i] + [s[i]];
    } else if n == 2 {
      assert s == s[..i] + [s[i], s[i + 1]];
    } else if n == 3 {
      assert s == s[..i] + [s[i], s[i + 1], s[i + 2]];
    }
  }

  lemma HeldBackSplits(s: bytes)
    ensures s == s[..|s| - HeldBack(s)] + CURSOR_QUERY[..HeldBack(s)]
  {
    EndSplits(s, HeldBack(s));
  }

  lemma QueryMeetsEnd(seen: bytes, more: bytes, p: nat)
    requires p < |seen| && QueryAt(seen + more, p)
    ensures QueryAt(seen, p) || EndsInQueryPrefix(seen, |seen| - p)
  {
  }

  /** The held-back window is enough: a query in the longer stream is a query in the window. */
  lemma QueryAtWindow(seen: bytes, more: bytes, p: nat)
    requires FirstQuery(seen).None?
    ensures var window := CURSOR_QUERY[..HeldBack(seen)] + more;
            var skipped := |seen| - HeldBack(seen);
            QueryAt(seen + more, p) <==> skipped <= p && QueryAt(window, p - skipped)
  {
    var k := HeldBack(seen);
    var skipped := |seen| - k;
    var stream := seen + more;
    var window := CURSOR_QUERY[..k] + more;
    HeldBackSplits(seen);
    assert stream == seen[..skipped] + window;
    if p < |seen| && QueryAt(stream, p) {
      QueryMeetsEnd(seen, more, p);
    }
    hide FirstQuery, HeldBack;
    if skipped <= p {
      QueryShifts(seen[..skipped], window, p - skipped);
    }
  }

  lemma QueryShifts(before: bytes, window: bytes, p: nat)
    ensures QueryAt(before + window, |before| + p) <==> QueryAt(window, p)
  {
  }

  lemma WindowFindsFirstQuery(seen: bytes, more: bytes)
    requires FirstQuery(seen).None?
    ensures var window := CURSOR_QUERY[..HeldBack(seen)] + more;
            var skipped := |seen| - HeldBack(seen);
            FirstQuery(seen + more) ==
            (match FirstQuery(window) case Some(p) => Some(p + skipped) case None => None)
  {
    var window := CURSOR_QUERY[..HeldBack(seen)] + more;
    var skipped := |seen| - HeldBack(seen);
    forall p: nat { QueryAtWindow(seen, more, p); }
    match FirstQuery(window)
    case Some(p) => FirstQueryUnique(seen + more, p + skipped);
    case None =>
  }

  lemma WindowHoldsBackTheSame(seen: bytes, more: bytes)
    ensures HeldBack(seen + more) == HeldBack(CURSOR_QUERY[..HeldBack(seen)] + more)
  {
    var k := HeldBack(seen);
    var stream := seen + more;
    var window := CURSOR_QUERY[..k] + more;
    HeldBackSplits(seen);
    assert stream == seen[..|seen| - k] + window;
    forall m: nat | |more| < m && EndsInQueryPrefix(stream, m)
      ensures m <= |window|
    {
      assert EndsInQueryPrefix(seen, m - |more|);
    }
    forall m: nat | m <= |window|
      ensures EndsInQueryPrefix(stream, m) <==> EndsInQueryPrefix(window, m)
    {
    }
    HeldBackUnique(stream, HeldBack(window));
  }

  /** The next read, seen from the reference: the stream grows and so may the part searched. */
  lemma NextRead(chunks: seq<bytes>, chunk: bytes)
    ensures Concat(chunks + [chunk]) == Concat(chunks) + chunk
    ensures Searched(chunks + [chunk]) ==
            if Searched(chunks) >= SCAN_BUDGET then Searched(chunks) else Searched(chunks) + |chunk|
  {
    ConcatSnoc(chunks, chunk);
    assert (chunks + [chunk])[..|chunks|] == chunks;
  }

  // ------------------------------------------------------------------- the code

  class Filter {
    /** Bytes of the query matched at the end of the last read. */
    var partial: nat
    var scanned: nat
    var done: bool
    ghost var chunks: seq<bytes>
    ghost var sent: bytes
    ghost var replies: nat

    ghost predicate Valid()
      reads this
    {
      && sent == Forwarded(chunks)
      && replies == Replies(chunks)
      && done == Done(chunks)
      && (!done ==> scanned == |Concat(chunks)| && partial == HeldBack(Concat(chunks)))
    }

    constructor ()
      ensures Valid() && chunks == [] && sent == [] && replies == 0 && !done
    {
      partial, scanned, done := 0, 0, false;
      chunks, sent, replies := [], [], 0;
    }

    method Push(chunk: bytes) returns (forward: bytes, reply: bool)
      requires Valid()
      modifies this
      ensures Valid()
      ensures chunks == old(chunks) + [chunk]
      ensures sent == old(sent) + forward
      ensures replies == old(replies) + if reply then 1 else 0
      ensures done == (old(done) || reply || scanned >= SCAN_BUDGET)
      ensures reply ==> !old(done)
    {
      if done {
        PassedThrough(chunks, chunk);
        chunks, sent := chunks + [chunk], sent + chunk;
        return chunk, false;
      }
      SearchedWindow(chunks, chunk);
      ForwardedWindow(chunks, chunk);
      NextRead(chunks, chunk);
      chunks := chunks + [chunk];
      var window := CURSOR_QUERY[..partial] + chunk;
      var found := FirstQuery(window);
      if found.Some? {
        done := true;
        forward := window[..found.value] + window[found.value + |CURSOR_QUERY|..];
        sent, replies := sent + forward, replies + 1;
        return forward, true;
      }
      var tail := HeldBack(window);
      forward := window[..|window| - tail];
      partial := tail;
      scanned := scanned + |chunk|;
      if scanned >= SCAN_BUDGET {
        forward := forward + CURSOR_QUERY[..partial];
        HeldBackSplits(window);
        partial := 0;
        done := true;
      }
      sent := sent + forward;
      return forward, false;
    }
  }

  /** Once done, every further byte goes straight through. */
  lemma PassedThrough(chunks: seq<bytes>, chunk: bytes)
    requires Done(chunks)
    ensures Done(chunks + [chunk])
    ensures Forwarded(chunks + [chunk]) == Forwarded(chunks) + chunk
    ensures Replies(chunks + [chunk]) == Replies(chunks)
  {
    hide FirstQuery, HeldBack, QueryAt, Searched, Concat;
    NextRead(chunks, chunk);
    var before, after := Concat(chunks), Concat(chunks + [chunk]);
    var n, m := Searched(chunks), Searched(chunks + [chunk]);
    FirstQueryOfPrefix(after, n);
    FirstQueryOfPrefix(after, m);
    assert after[..n] == before[..n];
    match FirstQuery(before[..n])
    case Some(p) =>
      assert after[p + 4..] == before[p + 4..] + chunk;
    case None =>
  }

  /** Until then everything is searched, and the window of held-back bytes and the new read decides. */
  lemma SearchedWindow(chunks: seq<bytes>, chunk: bytes)
    requires !Done(chunks)
    ensures var stream, next := Concat(chunks), chunks + [chunk];
            var window := CURSOR_QUERY[..HeldBack(stream)] + chunk;
            && Searched(next) == |Concat(next)| == |stream| + |chunk|
            && Replies(chunks) == 0
            && Replies(next) == (if FirstQuery(window).Some? then 1 else 0)
            && Done(next) == (FirstQuery(window).Some? || Searched(next) >= SCAN_BUDGET)
            && HeldBack(Concat(next)) == HeldBack(window)
  {
    var seen, next := Concat(chunks), chunks + [chunk];
    NextRead(chunks, chunk);
    assert seen[..Searched(chunks)] == seen;
    assert Concat(next)[..Searched(next)] == Concat(next);
    WindowFindsFirstQuery(seen, chunk);
    WindowHoldsBackTheSame(seen, chunk);
  }

  lemma ForwardedWindow(chunks: seq<bytes>, chunk: bytes)
    requires !Done(chunks)
    ensures var next := chunks + [chunk];
            var window := CURSOR_QUERY[..HeldBack(Concat(chunks))] + chunk;
            match FirstQuery(window)
            case Some(p) =>
              Forwarded(next) == Forwarded(chunks) + (window[..p] + window[p + |CURSOR_QUERY|..])
            case None =>
              Forwarded(next) == Forwarded(chunks) +
                if Searched(next) >= SCAN_BUDGET then window else window[..|window| - HeldBack(window)]
  {
    SearchedWindow(chunks, chunk);
    NextRead(chunks, chunk);
    assert Concat(chunks)[..Searched(chunks)] == Concat(chunks);
    StrippedWindow(Concat(chunks), chunk);
  }

  lemma StrippedWindow(seen: bytes, chunk: bytes)
    requires FirstQuery(seen).None? && |seen| < SCAN_BUDGET
    ensures var window := CURSOR_QUERY[..HeldBack(seen)] + chunk;
            var before, after := Stripped(seen, |seen|), Stripped(seen + chunk, |seen + chunk|);
            match FirstQuery(window)
            case Some(p) => after == before + (window[..p] + window[p + |CURSOR_QUERY|..])
            case None =>
              after == before +
                if |seen + chunk| >= SCAN_BUDGET then window else window[..|window| - HeldBack(window)]
  {
    var kept := seen[..|seen| - HeldBack(seen)];
    var window := CURSOR_QUERY[..HeldBack(seen)] + chunk;
    assert seen[..|seen|] == seen;
    assert seen + chunk == kept + window by {
      HeldBackSplits(seen);
    }
    WindowFindsFirstQuery(seen, chunk);
    WindowHoldsBackTheSame(seen, chunk);
    StrippedAppend(kept, window);
  }

  lemma StrippedAppend(kept: bytes, window: bytes)
    requires FirstQuery(kept + window) ==
             match FirstQuery(window) case Some(p) => Some(p + |kept|) case None => None
    requires HeldBack(kept + window) == HeldBack(window)
    ensures Stripped(kept + window, |kept + window|) ==
            kept + match FirstQuery(window)
                   case Some(p) => window[..p] + window[p + |CURSOR_QUERY|..]
                   case None =>
                     if |kept + window| >= SCAN_BUDGET then window else window[..|window| - HeldBack(window)]
  {
    assert (kept + window)[..|kept + window|] == kept + window;
    match FirstQuery(window)
    case Some(p) => CutOut(kept, window, p);
    case None => KeepBack(kept, window, HeldBack(window));
  }

  lemma CutOut(kept: bytes, window: bytes, p: nat)
    requires p + 4 <= |window|
    ensures (kept + window)[..p + |kept|] + (kept + window)[p + |kept| + 4..] == kept + (window[..p] + window[p + 4..])
  {
  }

  lemma KeepBack(kept: bytes, window: bytes, n: nat)
    requires n <= |window|
    ensures (kept + window)[..|kept + window| - n] == kept + window[..|window| - n]
  {
  }

  // ------------------------------------------------------------ whole-stream laws

  /**
    When the first query ends within the budget, every way of cutting the stream
    into reads exactly that query, and answers it exactly once.
   */
  lemma QueryWithinBudget(chunks: seq<bytes>, p: nat)
    requires FirstQuery(Concat(chunks)) == Some(p) && p + 4 <= 64
    ensures Forwarded(chunks) == Concat(chunks)[..p] + Concat(chunks)[p + 4..]
    ensures Replies(chunks) == 1
  {
    FirstQueryOfPrefix(Concat(chunks), Searched(chunks));
  }

  /** The four bytes ESC [ 6 n stand here. */
  predicate EscBracket6n(s: bytes, p: nat)
  {
    p + 4 <= |s| && s[p..p + 4] == [0x1b, 0x5b, 0x36, 0x6e]
  }

  lemma QueryBytes(s: bytes, p: nat)
    ensures QueryAt(s, p) <==> EscBracket6n(s, p)
  {
    if p + 4 <= |s| {
      assert s[p..p + 4] == [s[p], s[p + 1], s[p + 2], s[p + 3]];
    }
  }

  /** The query is ESC [ 6 n: where these four bytes first stand within the budget, they alone go, and are answered once. */
  lemma CursorQueryIsAnswered(chunks: seq<bytes>, before: bytes, after: bytes)
    requires Concat(chunks) == before + [0x1b, 0x5b, 0x36, 0x6e] + after && |before| + 4 <= 64
    requires forall q: nat | q < |before| :: !EscBracket6n(Concat(chunks), q)
    ensures Forwarded(chunks) == before + after && Replies(chunks) == 1
  {
    hide Forwarded, Replies, FirstQuery, QueryAt;
    var s, p := Concat(chunks), |before|;
    forall q: nat
      ensures QueryAt(s, q) <==> EscBracket6n(s, q)
    {
      QueryBytes(s, q);
    }
    assert s[p..p + 4] == [0x1b, 0x5b, 0x36, 0x6e];
    FirstQueryUnique(s, p);
    QueryWithinBudget(chunks, p);
    assert s[..p] == before && s[p + 4..] == after;
  }

  /** What is searched: the reads up to the one that brings the stream to 64 bytes, that one included. */
  lemma {:induction false} SearchedIs(chunks: seq<bytes>, k: nat)
    requires k <= |chunks| && (k == |chunks| || |Concat(chunks[..k])| >= 64)
    requires forall j | 0 <= j < k :: |Concat(chunks[..j])| < 64
    ensures Searched(chunks) == |Concat(chunks[..k])|
  {
    if k < |chunks| {
      var init := chunks[..|chunks| - 1];
      forall j | 0 <= j <= k
        ensures init[..j] == chunks[..j]
      {
      }
      SearchedIs(init, k);
    } else if chunks == [] {
      assert chunks[..k] == chunks;
    } else {
      var init := chunks[..|chunks| - 1];
      assert chunks[..k] == chunks;
      forall j | 0 <= j <= |init|
        ensures init[..j] == chunks[..j]
      {
      }
      SearchedIs(init, |init|);
      assert |Concat(chunks[..|init|])| < 64;
    }
  }

  /** A query that ends later is removed exactly when the read that brought it began within the budget. */
  lemma QueryRemovedIff(chunks: seq<bytes>, p: nat)
    requires FirstQuery(Concat(chunks)) == Some(p)
    ensures Replies(chunks) == 1 <==> p + 4 <= Searched(chunks)
    ensures Replies(chunks) == 1 ==> Forwarded(chunks) == Concat(chunks)[..p] + Concat(chunks)[p + 4..]
    ensures Replies(chunks) != 1 ==> Replies(chunks) == 0 && Forwarded(chunks) == Concat(chunks)
  {
    FirstQueryOfPrefix(Concat(chunks), Searched(chunks));
    if Searched(chunks) < SCAN_BUDGET {
      assert Concat(chunks)[..Searched(chunks)] == Concat(chunks);
    }
  }

  /** With no query at all, nothing is lost but the at most three bytes held at the end. */
  lemma NoQuery(chunks: seq<bytes>)
    requires FirstQuery(Concat(chunks)).None?
    ensures Replies(chunks) == 0
    ensures |Concat(chunks)| >= 64 ==> Forwarded(chunks) == Concat(chunks)
    ensures |Concat(chunks)| < 64 ==>
              && HeldBack(Concat(chunks)) <= 3
              && Concat(chunks) == Forwarded(chunks) + CURSOR_QUERY[..HeldBack(Concat(chunks))]
  {
    FirstQueryOfPrefix(Concat(chunks), Searched(chunks));
    HeldBackSplits(Concat(chunks));
  }

  lemma OneRead(stream: bytes)
    ensures Concat([stream]) == stream && Searched([stream]) == |stream|
  {
    NextRead([], stream);
    assert [] + [stream] == [stream];
  }

  ghost predicate CutIndependent(stream: bytes)
  {
    forall a: seq<bytes>, b: seq<bytes> {:trigger Forwarded(a), Forwarded(b)} |
      Concat(a) == stream && Concat(b) == stream :: Forwarded(a) == Forwarded(b)
  }

  /** One read removes a query wherever it is; a cut at the budget lets a later one through. */
  lemma LateQueryDependsOnCuts(stream: bytes, p: nat)
    requires FirstQuery(stream) == Some(p) && p + 4 > 64
    ensures |stream| > 64
    ensures var one, two := [stream], [stream[..64], stream[64..]];
            && Concat(one) == Concat(two) == stream
            && |Forwarded(one)| + 4 == |Forwarded(two)| == |stream|
  {
    var head, rest := stream[..64], stream[64..];
    OneRead(stream);
    OneRead(head);
    NextRead([head], rest);
    assert [head] + [rest] == [head, rest];
    assert head + rest == stream;
    QueryRemovedIff([stream], p);
    QueryRemovedIff([head, rest], p);
    assert stream[..|stream|] == stream;
  }

  /** The cuts matter exactly for a stream whose first query ends beyond the budget. */
  lemma CutIndependentIff(stream: bytes)
    ensures CutIndependent(stream) <==>
            match FirstQuery(stream)
            case Some(p) => p + 4 <= 64
            case None => true
  {
    hide FirstQuery, Forwarded, Searched, Concat, HeldBack, QueryAt, EndsInQueryPrefix;
    if FirstQuery(stream).Some? && FirstQuery(stream).value + |CURSOR_QUERY| > SCAN_BUDGET {
      LateQueryDependsOnCuts(stream, FirstQuery(stream).value);
      assert Forwarded([stream]) != Forwarded([stream[..64], stream[64..]]);
    } else {
      forall a: seq<bytes>, b: seq<bytes> | Concat(a) == stream && Concat(b) == stream
        ensures Forwarded(a) == Forwarded(b)
      {
        ForwardedByStream(a);
        ForwardedByStream(b);
      }
    }
  }

  lemma ForwardedByStream(chunks: seq<bytes>)
    ensures var stream := Concat(chunks);
            match FirstQuery(stream)
            case Some(p) =>
              p + 4 <= 64 ==> Forwarded(chunks) == stream[..p] + stream[p + 4..]
            case None =>
              Forwarded(chunks) == if |stream| >= 64 then stream else stream[..|stream| - HeldBack(stream)]
  {
    var stream := Concat(chunks);
    match FirstQuery(stream)
    case Some(p) => if p + 4 <= 64 { QueryWithinBudget(chunks, p); }
    case None => FirstQueryOfPrefix(stream, Searched(chunks));
  }
}
