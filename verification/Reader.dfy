/**
  The reader thread of a terminal (src-tauri/src/terminal_pty.rs,
  `spawn_reader_thread`): the handshake filter, then the decoder, then one event
  for each read that settles some text.

  The flag that ends the session is set at most once, by another thread, at any
  time. It is modelled by `endAt`, the number of loads of the flag that still read
  false; loads are numbered in the order the thread makes them.
 */
module Reader {
  import opened Streams
  import opened Wrappers
  import opened Utf8
  import HandshakeFilter

  datatype Event = Output(chunk: text) | Exited(exitCode: Option<int>)

  /** The text of the output events, in order. */
  function Shown(events: seq<Event>): text
  {
    if events == [] then []
    else
      Shown(events[..|events| - 1]) +
      match events[|events| - 1]
      case Output(chunk) => chunk
      case Exited(_) => []
  }

  lemma ShownSnoc(events: seq<Event>, last: Event)
    ensures Shown(events + [last]) == Shown(events) + match last case Output(chunk) => chunk case Exited(_) => []
  {
    assert (events + [last])[..|events|] == events;
  }

  /** Every event but the last is text, and no text is empty. */
  predicate OnlyOutput(events: seq<Event>)
  {
    forall i | 0 <= i < |events| :: events[i].Output? && events[i].chunk != []
  }

  /** How many of `n` reads are passed on: read `i` is followed by load `2 * i + 1` of the flag. */
  function Delivered(n: nat, endAt: nat): nat
  {
    if endAt / 2 < n then endAt / 2 else n
  }

  /** The thread's local state after the given reads were passed on. */
  ghost predicate Linked(handshake: HandshakeFilter.Filter, utf8: Utf8Stream, passed: seq<bytes>,
                         events: seq<Event>, reply: bool, replies: nat, canReply: bool)
    reads handshake, utf8
  {
    && handshake.Valid() && utf8.Valid()
    && handshake.chunks == passed
    && utf8.fed == handshake.sent && utf8.given == Shown(events)
    && OnlyOutput(events)
    && reply == (canReply && !handshake.done)
    && replies == if canReply then handshake.replies else 0
  }

  lemma Unlinked(handshake: HandshakeFilter.Filter, utf8: Utf8Stream, passed: seq<bytes>,
                 events: seq<Event>, reply: bool, replies: nat, canReply: bool)
    requires Linked(handshake, utf8, passed, events, reply, replies, canReply)
    ensures utf8.Valid() && utf8.fed == HandshakeFilter.Forwarded(passed) && utf8.given == Shown(events)
    ensures utf8.given == Settle(HandshakeFilter.Forwarded(passed)).text
    ensures OnlyOutput(events)
    ensures replies == if canReply then HandshakeFilter.Replies(passed) else 0
  {
  }

  /** One read goes through the filter and the decoder. */
  method PassOn(handshake: HandshakeFilter.Filter, utf8: Utf8Stream, input: bytes, ghost passed: seq<bytes>,
                before: seq<Event>, mayReply: bool, answered: nat, ghost canReply: bool)
    returns (events: seq<Event>, reply: bool, replies: nat)
    requires Linked(handshake, utf8, passed, before, mayReply, answered, canReply)
    modifies handshake, utf8
    ensures Linked(handshake, utf8, passed + [input], events, reply, replies, canReply)
    ensures before <= events && |events| <= |before| + 1
    ensures replies <= answered + 1
  {
    hide Shown, HandshakeFilter.Forwarded, HandshakeFilter.Replies, HandshakeFilter.HeldBack, HandshakeFilter.Done;
    hide Settle, Next, FromUtf8;
    events, reply, replies := before, mayReply, answered;
    var forward, replyNeeded := handshake.Push(input);
    if replyNeeded {
      if reply {
        replies := replies + 1;
      }
    }
    if handshake.done {
      reply := false;
    }
    assert forward == [] ==> handshake.sent == old(handshake.sent);
    if forward != [] {
      var chunk := utf8.Decode(forward);
      if chunk != [] {
        ShownSnoc(events, Output(chunk));
        events := events + [Output(chunk)];
      }
    }
  }

  /** What `Run` shows, as a function of the reads and of when the session is ended. */
  function ShownText(inputs: seq<bytes>, endAt: nat): text
  {
    var passed := HandshakeFilter.Forwarded(inputs[..Delivered(|inputs|, endAt)]);
    if 2 * |inputs| + 1 < endAt then Lossy(passed) else Settle(passed).text
  }

  /** After the output ended: the tail and the exit marker, unless the session is being ended. */
  method Close(utf8: Utf8Stream, before: seq<Event>, endAt: nat, loadsBefore: nat, exitCode: Option<int>)
    returns (events: seq<Event>)
    requires utf8.Valid() && utf8.given == Shown(before) && OnlyOutput(before)
    modifies utf8
    ensures Shown(events) == if loadsBefore < endAt then Lossy(old(utf8.fed)) else old(utf8.given)
    ensures if loadsBefore + 1 < endAt
            then events != [] && events[|events| - 1] == Exited(exitCode) && OnlyOutput(events[..|events| - 1])
            else OnlyOutput(events)
    ensures forall i | 0 <= i < |events| && events[i].Output? :: events[i].chunk != []
  {
    hide Shown, Lossy, Settle;
    events := before;
    var loads := loadsBefore;
    var ended := endAt <= loads;
    loads := loads + 1;
    if !ended {
      var tail := utf8.Finish();
      if tail != [] {
        ShownSnoc(events, Output(tail));
        events := events + [Output(tail)];
      }
      ended := endAt <= loads;
      if !ended {
        ShownSnoc(events, Exited(exitCode));
        events := events + [Exited(exitCode)];
      }
    }
  }

  /**
    `inputs` are the reads up to the end of the output. `stopsAtOnce` is the Unix
    build, where a set flag ends the loop; on Windows the thread goes on reading
    and drops what it reads. `canReply` says whether there is a writer to answer
    the handshake.

    The loads of the flag: `2 * i` before read `i`, `2 * i + 1` after it; the read
    that meets the end has only the load before it, so the two loads after the
    loop are `2 * n + 1` and `2 * n + 2`, where `n` is the number of reads.
   */
  method Run(inputs: seq<bytes>, endAt: nat, stopsAtOnce: bool, canReply: bool, exitCode: Option<int>)
    returns (events: seq<Event>, replies: nat)
    ensures Shown(events) == ShownText(inputs, endAt)
    ensures if 2 * |inputs| + 2 < endAt
            then events != [] && events[|events| - 1] == Exited(exitCode) && OnlyOutput(events[..|events| - 1])
            else OnlyOutput(events)
    ensures forall i | 0 <= i < |events| && events[i].Output? :: events[i].chunk != []
    ensures replies == if canReply then HandshakeFilter.Replies(inputs[..Delivered(|inputs|, endAt)]) else 0
  {
    var handshake := new HandshakeFilter.Filter();
    var utf8 := new Utf8Stream();
    events, replies := [], 0;
    assert inputs[..0] == [];
    assert Linked(handshake, utf8, [], events, canReply, replies, canReply);
    hide Linked, Shown, OnlyOutput, HandshakeFilter.Forwarded, HandshakeFilter.Replies, Settle, Lossy, Next;
    var reply := canReply;
    var loads: nat := 0;
    var i := 0;
    ghost var passed: nat := 0;
    while true
      invariant i <= |inputs| && loads == 2 * i
      invariant passed == Delivered(i, endAt)
      invariant fresh(handshake) && fresh(utf8)
      invariant Linked(handshake, utf8, inputs[..passed], events, reply, replies, canReply)
      decreases |inputs| - i
    {
      var ending := endAt <= loads;
      loads := loads + 1;
      if ending && stopsAtOnce {
        break;
      }
      if i == |inputs| {
        break;
      }
      i := i + 1;
      ending := endAt <= loads;
      loads := loads + 1;
      if ending {
        continue;
      }
      assert inputs[..passed + 1] == inputs[..passed] + [inputs[i - 1]];
      events, reply, replies :=
        PassOn(handshake, utf8, inputs[i - 1], inputs[..passed], events, reply, replies, canReply);
      passed := passed + 1;
    }
    assert passed == Delivered(|inputs|, endAt);
    assert loads < endAt <==> 2 * |inputs| + 1 < endAt;
    assert loads + 1 < endAt <==> 2 * |inputs| + 2 < endAt;
    hide Delivered;
    Unlinked(handshake, utf8, inputs[..passed], events, reply, replies, canReply);
    events := Close(utf8, events, endAt, loads, exitCode);
  }

  /**
    A session nobody ends shows the whole stream, decoded, without the query that the
    filter answered. How the stream was cut into reads matters only for a query that
    ends beyond the budget, and then only for whether it was in a read that was searched.
   */
  lemma WholeStreamShown(inputs: seq<bytes>, endAt: nat)
    requires 2 * |inputs| + 2 < endAt
    ensures var stream := Concat(inputs);
            match HandshakeFilter.FirstQuery(stream)
            case Some(p) =>
              var searched := p + 4 <= 64 || p + 4 <= HandshakeFilter.Searched(inputs);
              ShownText(inputs, endAt) == Lossy(if searched then stream[..p] + stream[p + 4..] else stream)
            case None =>
              ShownText(inputs, endAt) ==
              Lossy(if |stream| >= 64 then stream
                    else stream[..|stream| - HandshakeFilter.HeldBack(stream)])
  {
    hide HandshakeFilter.FirstQuery, HandshakeFilter.HeldBack, HandshakeFilter.Searched, Lossy, Settle, Next;
    assert inputs[..Delivered(|inputs|, endAt)] == inputs;
    HandshakeFilter.ForwardedByStream(inputs);
    var stream := Concat(inputs);
    if HandshakeFilter.FirstQuery(stream).Some? {
      HandshakeFilter.QueryRemovedIff(inputs, HandshakeFilter.FirstQuery(stream).value);
      HandshakeFilter.FirstQueryOfPrefix(stream, HandshakeFilter.Searched(inputs));
    }
  }

  /** The load of the flag that follows read `i` still reads false; it is load `2 * i + 1`. */
  predicate InTime(i: nat, endAt: nat)
  {
    2 * i + 1 < endAt
  }

  /** The first `k` reads are those that came in time. */
  predicate Counts(inputs: seq<bytes>, endAt: nat, k: nat)
  {
    k <= |inputs| && forall i: nat | i < |inputs| :: InTime(i, endAt) <==> i < k
  }

  /** There is exactly one number of them, and exactly these reads are shown and answered. */
  lemma ReadsThatCount(inputs: seq<bytes>, endAt: nat, k: nat)
    requires Counts(inputs, endAt, k)
    ensures ShownText(inputs, endAt) ==
            if 2 * |inputs| + 1 < endAt then Lossy(HandshakeFilter.Forwarded(inputs[..k]))
            else Settle(HandshakeFilter.Forwarded(inputs[..k])).text
    ensures HandshakeFilter.Replies(inputs[..Delivered(|inputs|, endAt)]) == HandshakeFilter.Replies(inputs[..k])
  {
    hide Settle, Lossy, HandshakeFilter.Forwarded, HandshakeFilter.Replies;
    var n := Delivered(|inputs|, endAt);
    var i := if k < n then k else n;
    assert i < |inputs| ==> (InTime(i, endAt) <==> i < n);
  }

  lemma SomeReadsCount(inputs: seq<bytes>, endAt: nat)
    ensures exists k :: Counts(inputs, endAt, k)
  {
    assert Counts(inputs, endAt, Delivered(|inputs|, endAt));
  }

  /** What comes after the end of a session leaves no trace: reads that do not count can be anything. */
  lemma LateReadsLeaveNoTrace(inputs: seq<bytes>, inputs': seq<bytes>, endAt: nat)
    requires endAt <= 2 * |inputs| + 1 && endAt <= 2 * |inputs'| + 1
    requires forall i | 0 <= i < |inputs| && i < |inputs'| && InTime(i, endAt) :: inputs[i] == inputs'[i]
    ensures ShownText(inputs, endAt) == ShownText(inputs', endAt)
    ensures HandshakeFilter.Replies(inputs[..Delivered(|inputs|, endAt)]) ==
            HandshakeFilter.Replies(inputs'[..Delivered(|inputs'|, endAt)])
  {
    hide Settle, Lossy, HandshakeFilter.Forwarded, HandshakeFilter.Replies;
    var n := Delivered(|inputs|, endAt);
    assert n == Delivered(|inputs'|, endAt);
    assert inputs[..n] == inputs'[..n];
  }

  /** Another read only ever adds to what was forwarded. */
  lemma {:induction false} ForwardedGrows(chunks: seq<bytes>, n: nat)
    requires n <= |chunks|
    ensures HandshakeFilter.Forwarded(chunks[..n]) <= HandshakeFilter.Forwarded(chunks)
  {
    hide HandshakeFilter.Forwarded, HandshakeFilter.Searched, HandshakeFilter.Done, Concat;
    hide HandshakeFilter.FirstQuery, HandshakeFilter.HeldBack;
    if n == |chunks| {
      assert chunks[..n] == chunks;
    } else {
      var init, last := chunks[..|chunks| - 1], chunks[|chunks| - 1];
      ForwardedGrows(init, n);
      assert init[..n] == chunks[..n];
      assert init + [last] == chunks;
      if HandshakeFilter.Done(init) {
        HandshakeFilter.PassedThrough(init, last);
      } else {
        HandshakeFilter.ForwardedWindow(init, last);
      }
    }
  }

  lemma SettledGrows(s: bytes, t: bytes)
    requires s <= t
    ensures Settle(s).text <= Settle(t).text
    ensures Settle(s).text <= Lossy(t)
  {
    hide Settle, Lossy, Next;
    SettleConcat(s, t[|s|..]);
    assert s + t[|s|..] == t;
    LossyOfSettled(t);
  }

  /** A session that is ended shows the beginning of what it would have shown: nothing else, in no other order. */
  lemma EndedShowsPrefix(inputs: seq<bytes>, endAt: nat, later: nat)
    requires endAt <= later
    ensures ShownText(inputs, endAt) <= ShownText(inputs, later)
  {
    hide Settle, Lossy, Next, HandshakeFilter.Forwarded;
    var n, m := Delivered(|inputs|, endAt), Delivered(|inputs|, later);
    ForwardedGrows(inputs[..m], n);
    assert inputs[..m][..n] == inputs[..n];
    SettledGrows(HandshakeFilter.Forwarded(inputs[..n]), HandshakeFilter.Forwarded(inputs[..m]));
  }
}
