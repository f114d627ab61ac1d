/**
  Every run of the registry: the locked sections of any number of threads in any
  order, with the spawns and teardowns between them.
 */
module RegistryRuns {
  import opened Registry

  // ------------------------------------------------------------------ the system

  /** What `terminal_spawn` asked for. */
  datatype Request = Request(page: nat, project: Name, root: Name)

  /**
    What happened so far, which the code does not keep: who asked for each token,
    the token each session id was drawn for, the starts still running, the sessions
    whose spawn failed, the teardowns begun and finished, the exits reported, and
    the reports that a clearing of `early_exits` forgot.
   */
  datatype History = History(
    requests: map<nat, Request>,
    drawn: map<SessionId, nat>,
    starting: set<nat>,
    failed: set<SessionId>,
    begun: multiset<SessionId>,
    finished: multiset<SessionId>,
    reported: set<SessionId>,
    forgotten: set<SessionId>)

  datatype System = System(reg: State, h: History)

  const INITIAL: System := System(EMPTY, History(map[], map[], {}, {}, multiset{}, multiset{}, {}, {}))

  datatype Step =
    | AskStart(page: nat, project: Name, root: Name)  // start_on_page, its first section
    | DrawId(token: nat, id: SessionId)               // its session id; the spawn runs
    | StartReturns(token: nat, id: SessionId, spawned: bool) // its second section
    | StartPanics(token: nat)                         // the reservation is dropped
    | EndOne(project: Name, id: SessionId)
    | CloseProject(project: Name)
    | SweepAll                                        // end_all, and part of quit and of a page load
    | NewPage                                         // the other part of a page load
    | QuitFlag                                        // the other part of quit
    | ShellExits(id: SessionId)                       // the exit watcher's report
    | TeardownReturns(id: SessionId)

  /**
    Which steps can come next. Session ids are 128 random bits, so a drawn id is
    new; only sessions that were spawned have a shell that exits; each teardown
    that was begun returns once.
   */
  predicate Enabled(sys: System, step: Step)
  {
    match step
    case DrawId(token, id) => token in sys.h.starting && token !in sys.h.drawn.Values && id !in sys.h.drawn
    case StartReturns(token, id, _) => token in sys.h.starting && id in sys.h.drawn && sys.h.drawn[id] == token
    case StartPanics(token) => token in sys.h.starting
    case ShellExits(id) => id in sys.h.drawn
    case TeardownReturns(id) => sys.h.finished[id] < sys.h.begun[id]
    case _ => true
  }

  function Begin(h: History, taken: set<SessionId>): History
  {
    h.(begun := h.begun + multiset(taken))
  }

  function DrawnFor(h: History, token: nat): set<SessionId>
  {
    set id | id in h.drawn && h.drawn[id] == token
  }

  function Apply(sys: System, step: Step): System
    requires Enabled(sys, step)
    requires sys.h.starting <= sys.h.requests.Keys
  {
    var System(s, h) := sys;
    match step
    case AskStart(page, project, root) =>
      if Refusal(s, page, project, root).Reserved? then
        System(Reserve(s, page, project, root),
               h.(requests := h.requests[s.nextToken := Request(page, project, root)],
                  starting := h.starting + {s.nextToken}))
      else sys
    case DrawId(token, id) => System(s, h.(drawn := h.drawn[id := token]))
    case StartReturns(token, id, spawned) =>
      var r := h.requests[token];
      var done := h.(starting := h.starting - {token});
      System(Resolve(s, token, id, r.page, r.project, r.root, spawned),
             match StartResult(s, token, id, r.page, spawned)
             case SpawnFailed => done.(failed := h.failed + {id})
             case Started => done
             case _ => Begin(done, {id}))
    case StartPanics(token) =>
      System(Release(s, token), h.(starting := h.starting - {token}, failed := h.failed + DrawnFor(h, token)))
    case EndOne(project, id) =>
      System(Take(s, TakenByEnd(s, project, id)), Begin(h, TakenByEnd(s, project, id)))
    case CloseProject(project) => System(EndProject(s, project), Begin(h, LiveOf(s.live, project)))
    case SweepAll => System(TakeAll(s), Begin(h, s.live.Keys))
    case NewPage => System(s.(page := s.page + 1), h)
    case QuitFlag => System(s.(quitting := true), h)
    case ShellExits(id) =>
      System(SelfExit(s, id),
             if id in s.live then Begin(h, {id}).(reported := h.reported + {id})
             else h.(reported := h.reported + {id},
                     forgotten := if |s.earlyExits| >= EARLY_EXIT_LIMIT then h.forgotten + s.earlyExits else h.forgotten))
    case TeardownReturns(id) => System(EndingFinished(s), h.(finished := h.finished + multiset{id}))
  }

  // ---------------------------------------------------------------- the invariant

  /** Tokens name requests; the reservations are those of the starts still running. */
  ghost predicate TokensAgree(nextToken: nat, pending: map<nat, Pending>, requests: map<nat, Request>, starting: set<nat>)
  {
    && (forall t: nat :: t in requests <==> t < nextToken)
    && pending.Keys == starting <= requests.Keys
    && (forall t | t in pending :: pending[t].project == requests[t].project && pending[t].root == requests[t].root)
  }

  /** No two ids were drawn for one token. */
  ghost predicate DrawnOnce(requests: map<nat, Request>, drawn: map<SessionId, nat>)
  {
    && (forall id | id in drawn :: drawn[id] in requests)
    && (forall id, other | id in drawn && other in drawn && drawn[id] == drawn[other] :: id == other)
  }

  predicate InFlight(drawn: map<SessionId, nat>, starting: set<nat>, id: SessionId)
  {
    id in drawn && drawn[id] in starting
  }

  function Count(b: bool): nat
  {
    if b then 1 else 0
  }

  /** A drawn session is in one place, and its teardown is begun at most once. */
  ghost predicate OneFate(drawn: map<SessionId, nat>, starting: set<nat>, live: set<SessionId>, failed: set<SessionId>,
                    begun: multiset<SessionId>)
  {
    forall id: SessionId {:trigger InFlight(drawn, starting, id)} ::
      Count(InFlight(drawn, starting, id)) + Count(id in live) + Count(id in failed) + begun[id] == Count(id in drawn)
  }

  ghost predicate TeardownsCounted(ending: nat, begun: multiset<SessionId>, finished: multiset<SessionId>)
  {
    finished <= begun && ending + |finished| == |begun|
  }

  /** A live session is the one its request asked for. */
  ghost predicate LiveAsAsked(live: map<SessionId, Live>, drawn: map<SessionId, nat>, requests: map<nat, Request>)
  {
    forall id | id in live ::
      && id in drawn && drawn[id] in requests
      && live[id] == Live(requests[drawn[id]].project, requests[drawn[id]].root)
  }

  ghost predicate WithinLimits(live: map<SessionId, Live>, pending: map<nat, Pending>, ending: nat)
  {
    && |live| + |pending| + ending <= MAX_SESSIONS_TOTAL
    && forall project: Name :: |LiveOf(live, project)| + |PendingOf(pending, project)| <= MAX_SESSIONS_PER_PROJECT
  }

  /** A reported exit is remembered until the start that it belongs to has seen it, or it was cleared. */
  ghost predicate ExitsRemembered(earlyExits: set<SessionId>, reported: set<SessionId>, forgotten: set<SessionId>,
                            drawn: map<SessionId, nat>, starting: set<nat>, live: set<SessionId>)
  {
    && |earlyExits| <= EARLY_EXIT_LIMIT
    && earlyExits <= reported <= drawn.Keys
    && (forall id | id in reported && InFlight(drawn, starting, id) :: id in earlyExits + forgotten)
    && reported * live <= forgotten
  }

  ghost predicate Inv(sys: System)
  {
    var System(s, h) := sys;
    && TokensAgree(s.nextToken, s.pending, h.requests, h.starting)
    && DrawnOnce(h.requests, h.drawn)
    && OneFate(h.drawn, h.starting, s.live.Keys, h.failed, h.begun)
    && TeardownsCounted(s.ending, h.begun, h.finished)
    && LiveAsAsked(s.live, h.drawn, h.requests)
    && WithinLimits(s.live, s.pending, s.ending)
    && OneRoot(s.live, s.pending)
    && ExitsRemembered(s.earlyExits, h.reported, h.forgotten, h.drawn, h.starting, s.live.Keys)
  }

  lemma InitialInv()
    ensures Inv(INITIAL)
  {
  }

  /** The parts, one by one: proofs below put an invariant together with this. */
  lemma Assemble(sys: System)
    requires TokensAgree(sys.reg.nextToken, sys.reg.pending, sys.h.requests, sys.h.starting)
    requires DrawnOnce(sys.h.requests, sys.h.drawn)
    requires OneFate(sys.h.drawn, sys.h.starting, sys.reg.live.Keys, sys.h.failed, sys.h.begun)
    requires TeardownsCounted(sys.reg.ending, sys.h.begun, sys.h.finished)
    requires LiveAsAsked(sys.reg.live, sys.h.drawn, sys.h.requests)
    requires WithinLimits(sys.reg.live, sys.reg.pending, sys.reg.ending)
    requires OneRoot(sys.reg.live, sys.reg.pending)
    requires ExitsRemembered(sys.reg.earlyExits, sys.h.reported, sys.h.forgotten, sys.h.drawn, sys.h.starting, sys.reg.live.Keys)
    ensures Inv(sys)
  {
  }

  // ---------------------------------------------------------- each part, each change

  lemma CancelKeeps(sys: System, tokens: set<nat>)
    requires Inv(sys)
    ensures Inv(sys.(reg := Cancel(sys.reg, tokens)))
  {
    var s, s' := sys.reg, Cancel(sys.reg, tokens);
    assert s'.pending.Keys == s.pending.Keys;
    CancelKeepsLimits(s, tokens);
    CancelKeepsRoot(s, tokens);
    hide DrawnOnce, OneFate, TeardownsCounted, LiveAsAsked, WithinLimits, OneRoot, ExitsRemembered;
    hide Inv;
    Assemble(sys.(reg := s'));
  }

  lemma CancelKeepsLimits(s: State, tokens: set<nat>)
    requires WithinLimits(s.live, s.pending, s.ending)
    ensures WithinLimits(s.live, Cancel(s, tokens).pending, s.ending)
  {
    var pending := Cancel(s, tokens).pending;
    assert pending.Keys == s.pending.Keys;
    assert |pending| == |pending.Keys| == |s.pending|;
    forall project: Name
      ensures PendingOf(pending, project) == PendingOf(s.pending, project)
    {
    }
  }

  lemma CancelKeepsRoot(s: State, tokens: set<nat>)
    requires OneRoot(s.live, s.pending)
    ensures OneRoot(s.live, Cancel(s, tokens).pending)
  {
  }

  lemma {:induction false} SubsetIsSmaller<T>(a: set<T>, b: set<T>)
    requires a <= b
    ensures |a| <= |b|
  {
    assert b == a + (b - a);
    assert |b| == |a| + |b - a|;
  }

  /** Taking live sessions moves each to its one teardown. */
  lemma TakeKeeps(sys: System, ids: set<SessionId>)
    requires Inv(sys) && ids <= sys.reg.live.Keys
    ensures Inv(System(Take(sys.reg, ids), Begin(sys.h, ids)))
  {
    var s, h := sys.reg, sys.h;
    hide TokensAgree, DrawnOnce, OneFate, TeardownsCounted, LiveAsAsked, WithinLimits, OneRoot, ExitsRemembered;
    assert (s.live - ids).Keys == s.live.Keys - ids;
    TakeKeepsFates(h.drawn, h.starting, s.live.Keys, h.failed, h.begun, ids);
    TakeKeepsLimits(s, ids);
    FewerLive(s.live, s.pending, ids, h.drawn, h.requests);
    TeardownsBegin(s.ending, h.begun, h.finished, ids);
    ExitsMonotone(s.earlyExits, h.reported, h.forgotten, h.drawn, h.starting, s.live.Keys, h.starting, s.live.Keys - ids);
    hide Inv;
    Assemble(System(Take(s, ids), Begin(h, ids)));
  }

  /** With fewer starts running and fewer sessions live, there is less to remember. */
  lemma ExitsMonotone(earlyExits: set<SessionId>, reported: set<SessionId>, forgotten: set<SessionId>,
                      drawn: map<SessionId, nat>, starting: set<nat>, live: set<SessionId>,
                      starting': set<nat>, live': set<SessionId>)
    requires ExitsRemembered(earlyExits, reported, forgotten, drawn, starting, live)
    requires starting' * drawn.Values <= starting && live' <= live
    ensures ExitsRemembered(earlyExits, reported, forgotten, drawn, starting', live')
  {
    forall id | id in reported && InFlight(drawn, starting', id)
      ensures InFlight(drawn, starting, id)
    {
      assert drawn[id] in drawn.Values;
    }
  }

  lemma FewerLive(live: map<SessionId, Live>, pending: map<nat, Pending>, ids: set<SessionId>,
                  drawn: map<SessionId, nat>, requests: map<nat, Request>)
    ensures OneRoot(live, pending) ==> OneRoot(live - ids, pending)
    ensures LiveAsAsked(live, drawn, requests) ==> LiveAsAsked(live - ids, drawn, requests)
  {
  }

  lemma TeardownsBegin(ending: nat, begun: multiset<SessionId>, finished: multiset<SessionId>, ids: set<SessionId>)
    requires TeardownsCounted(ending, begun, finished)
    ensures TeardownsCounted(ending + |ids|, begun + multiset(ids), finished)
  {
  }

  lemma TakeKeepsFates(drawn: map<SessionId, nat>, starting: set<nat>, live: set<SessionId>, failed: set<SessionId>,
                       begun: multiset<SessionId>, ids: set<SessionId>)
    requires OneFate(drawn, starting, live, failed, begun) && ids <= live
    ensures OneFate(drawn, starting, live - ids, failed, begun + multiset(ids))
  {
  }

  lemma TakeKeepsLimits(s: State, ids: set<SessionId>)
    requires WithinLimits(s.live, s.pending, s.ending) && ids <= s.live.Keys
    ensures WithinLimits(s.live - ids, s.pending, s.ending + |ids|)
  {
    var live := s.live - ids;
    assert live.Keys == s.live.Keys - ids;
    assert |live| == |live.Keys| == |s.live| - |ids|;
    forall project: Name
      ensures |LiveOf(live, project)| <= |LiveOf(s.live, project)|
    {
      SubsetIsSmaller(LiveOf(live, project), LiveOf(s.live, project));
    }
  }

  // ---- a start is admitted

  lemma AdmitKeepsRoot(live: map<SessionId, Live>, pending: map<nat, Pending>, token: nat, project: Name, root: Name)
    requires OneRoot(live, pending) && token !in pending && !RunsElsewhere(live, pending, project, root)
    ensures OneRoot(live, pending[token := Pending(project, root, false)])
  {
  }

  lemma AdmitKeepsLimits(s: State, project: Name, root: Name)
    requires WithinLimits(s.live, s.pending, s.ending) && s.nextToken !in s.pending
    requires |LiveOf(s.live, project)| + |PendingOf(s.pending, project)| < MAX_SESSIONS_PER_PROJECT
    requires |s.live| + |s.pending| + s.ending < MAX_SESSIONS_TOTAL
    ensures WithinLimits(s.live, s.pending[s.nextToken := Pending(project, root, false)], s.ending)
  {
    var pending := s.pending[s.nextToken := Pending(project, root, false)];
    assert pending.Keys == s.pending.Keys + {s.nextToken};
    assert |pending| == |pending.Keys| == |s.pending| + 1;
    hide LiveOf, PendingOf;
    forall p: Name
      ensures |PendingOf(pending, p)| == |PendingOf(s.pending, p)| + Count(p == project)
    {
      AdmitPerProject(s.pending, s.nextToken, Pending(project, root, false), p);
    }
  }

  lemma AdmitPerProject(pending: map<nat, Pending>, token: nat, entry: Pending, p: Name)
    requires token !in pending
    ensures |PendingOf(pending[token := entry], p)| == |PendingOf(pending, p)| + Count(p == entry.project)
  {
    var grown := PendingOf(pending[token := entry], p);
    if p == entry.project {
      assert grown == PendingOf(pending, p) + {token};
    } else {
      assert grown == PendingOf(pending, p);
    }
  }

  lemma AdmitKeepsHistory(sys: System, r: Request)
    requires Inv(sys)
    ensures var System(s, h) := sys;
            var requests, starting := h.requests[s.nextToken := r], h.starting + {s.nextToken};
            && TokensAgree(s.nextToken + 1, s.pending[s.nextToken := Pending(r.project, r.root, false)], requests, starting)
            && DrawnOnce(requests, h.drawn)
            && OneFate(h.drawn, starting, s.live.Keys, h.failed, h.begun)
            && LiveAsAsked(s.live, h.drawn, requests)
  {
    var System(s, h) := sys;
    hide TeardownsCounted, WithinLimits, OneRoot, ExitsRemembered;
    assert forall id | id in h.drawn :: h.drawn[id] != s.nextToken;
    assert forall id: SessionId :: InFlight(h.drawn, h.starting + {s.nextToken}, id) == InFlight(h.drawn, h.starting, id);
  }

  lemma AdmitResult(sys: System, page: nat, project: Name, root: Name)
    requires Refusal(sys.reg, page, project, root).Reserved? && sys.h.starting <= sys.h.requests.Keys
    ensures var System(s, h) := sys;
            Apply(sys, AskStart(page, project, root)) ==
            System(s.(pending := s.pending[s.nextToken := Pending(project, root, false)], nextToken := s.nextToken + 1),
                   h.(requests := h.requests[s.nextToken := Request(page, project, root)],
                      starting := h.starting + {s.nextToken}))
  {
  }

  lemma AskStartKeeps(sys: System, page: nat, project: Name, root: Name)
    requires Inv(sys)
    ensures Inv(Apply(sys, AskStart(page, project, root)))
  {
    var System(s, h) := sys;
    if Refusal(s, page, project, root).Reserved? {
      assert h.starting <= h.requests.Keys && s.nextToken !in s.pending && s.nextToken !in h.drawn.Values;
      AdmitResult(sys, page, project, root);
      hide Apply;
      hide TokensAgree, DrawnOnce, OneFate, TeardownsCounted, LiveAsAsked, WithinLimits, OneRoot, ExitsRemembered;
      AdmitKeepsHistory(sys, Request(page, project, root));
      AdmitKeepsRoot(s.live, s.pending, s.nextToken, project, root);
      AdmitKeepsLimits(s, project, root);
      ExitsMonotone(s.earlyExits, h.reported, h.forgotten, h.drawn, h.starting, s.live.Keys,
                    h.starting + {s.nextToken}, s.live.Keys);
      hide Inv, Refusal;
      Assemble(Apply(sys, AskStart(page, project, root)));
    }
  }

  // ---- its session id is drawn

  lemma DrawIdKeeps(sys: System, token: nat, id: SessionId)
    requires Inv(sys) && Enabled(sys, DrawId(token, id))
    ensures Inv(Apply(sys, DrawId(token, id)))
  {
    var System(s, h) := sys;
    var drawn := h.drawn[id := token];
    assert h.starting <= h.requests.Keys;
    hide TokensAgree, OneFate, TeardownsCounted, WithinLimits, OneRoot;
    assert DrawnOnce(h.requests, drawn);
    assert LiveAsAsked(s.live, drawn, h.requests);
    assert ExitsRemembered(s.earlyExits, h.reported, h.forgotten, drawn, h.starting, s.live.Keys);
    DrawKeepsFates(h.drawn, h.starting, s.live.Keys, h.failed, h.begun, id, token);
    hide Inv, DrawnOnce, LiveAsAsked, ExitsRemembered;
    Assemble(Apply(sys, DrawId(token, id)));
  }

  lemma DrawKeepsFates(drawn: map<SessionId, nat>, starting: set<nat>, live: set<SessionId>, failed: set<SessionId>,
                       begun: multiset<SessionId>, id: SessionId, token: nat)
    requires OneFate(drawn, starting, live, failed, begun) && id !in drawn && token in starting
    ensures OneFate(drawn[id := token], starting, live, failed, begun)
  {
    forall other: SessionId
      ensures Count(InFlight(drawn[id := token], starting, other)) + Count(other in live) + Count(other in failed) + begun[other]
              == Count(other in drawn[id := token])
    {
      var before := InFlight(drawn, starting, other);
    }
  }

  // ---- a start returns

  lemma ReleasePerProject(pending: map<nat, Pending>, token: nat, p: Name)
    ensures |PendingOf(pending - {token}, p)| == |PendingOf(pending, p)| - Count(token in PendingOf(pending, p))
  {
    assert PendingOf(pending - {token}, p) == PendingOf(pending, p) - {token};
  }

  /** A released reservation may make room for one teardown. */
  lemma ReleaseKeepsLimits(s: State, token: nat)
    requires WithinLimits(s.live, s.pending, s.ending)
    ensures WithinLimits(s.live, s.pending - {token}, s.ending)
    ensures token in s.pending ==> WithinLimits(s.live, s.pending - {token}, s.ending + 1)
  {
    var pending := s.pending - {token};
    assert pending.Keys == s.pending.Keys - {token};
    assert |pending| == |pending.Keys|;
    forall p: Name
      ensures |PendingOf(pending, p)| <= |PendingOf(s.pending, p)|
    {
      ReleasePerProject(s.pending, token, p);
    }
  }

  lemma ReleaseKeeps(sys: System, token: nat)
    requires Inv(sys)
    ensures var System(s, h) := sys;
            var pending, starting := s.pending - {token}, h.starting - {token};
            && TokensAgree(s.nextToken, pending, h.requests, starting)
            && OneRoot(s.live, pending)
            && ExitsRemembered(s.earlyExits, h.reported, h.forgotten, h.drawn, starting, s.live.Keys)
  {
    var System(s, h) := sys;
    TokenReleased(s.nextToken, s.pending, h.requests, h.starting, token);
    FewerPending(s.live, s.pending, token);
    hide TokensAgree, OneFate, DrawnOnce, TeardownsCounted, LiveAsAsked, WithinLimits, OneRoot, ExitsRemembered;
    ExitsMonotone(s.earlyExits, h.reported, h.forgotten, h.drawn, h.starting, s.live.Keys,
                  h.starting - {token}, s.live.Keys);
  }

  lemma TokenReleased(nextToken: nat, pending: map<nat, Pending>, requests: map<nat, Request>, starting: set<nat>,
                      token: nat)
    requires TokensAgree(nextToken, pending, requests, starting)
    ensures TokensAgree(nextToken, pending - {token}, requests, starting - {token})
  {
    assert (pending - {token}).Keys == pending.Keys - {token};
  }

  lemma FewerPending(live: map<SessionId, Live>, pending: map<nat, Pending>, token: nat)
    requires OneRoot(live, pending)
    ensures OneRoot(live, pending - {token})
  {
  }

  /** The start that ends is the one its id was drawn for, so exactly one session leaves the spawn. */
  lemma LandFate(drawn: map<SessionId, nat>, requests: map<nat, Request>, starting: set<nat>, live: set<SessionId>,
                 failed: set<SessionId>, begun: multiset<SessionId>, id: SessionId, token: nat)
    requires OneFate(drawn, starting, live, failed, begun) && DrawnOnce(requests, drawn)
    requires id in drawn && drawn[id] == token && token in starting
    ensures id !in live && id !in failed && begun[id] == 0
    ensures OneFate(drawn, starting - {token}, live, failed + {id}, begun)
    ensures OneFate(drawn, starting - {token}, live + {id}, failed, begun)
    ensures OneFate(drawn, starting - {token}, live, failed, begun + multiset({id}))
  {
    assert InFlight(drawn, starting, id);
    forall other: SessionId
      ensures InFlight(drawn, starting - {token}, other) == (other != id && InFlight(drawn, starting, other))
    {
    }
  }

  lemma PanicFate(h: History, live: set<SessionId>, token: nat)
    requires OneFate(h.drawn, h.starting, live, h.failed, h.begun) && token in h.starting
    ensures OneFate(h.drawn, h.starting - {token}, live, h.failed + DrawnFor(h, token), h.begun)
  {
    forall id: SessionId
      ensures InFlight(h.drawn, h.starting, id) ==
              (id in DrawnFor(h, token) || InFlight(h.drawn, h.starting - {token}, id))
    {
    }
  }

  lemma StartPanicsKeeps(sys: System, token: nat)
    requires Inv(sys) && token in sys.h.starting
    ensures Inv(Apply(sys, StartPanics(token)))
  {
    var System(s, h) := sys;
    assert h.starting <= h.requests.Keys;
    hide TokensAgree, DrawnOnce, OneFate, TeardownsCounted, LiveAsAsked, WithinLimits, OneRoot, ExitsRemembered;
    PanicFate(h, s.live.Keys, token);
    hide Inv, DrawnFor;
    LandedWithout(sys, token, Apply(sys, StartPanics(token)));
  }

  lemma SpawnFailedResult(sys: System, token: nat, id: SessionId)
    requires Enabled(sys, StartReturns(token, id, false)) && sys.h.starting <= sys.h.requests.Keys
    ensures Apply(sys, StartReturns(token, id, false)) ==
            System(Release(sys.reg, token),
                   sys.h.(starting := sys.h.starting - {token}, failed := sys.h.failed + {id}))
  {
  }

  lemma SpawnFailedKeeps(sys: System, token: nat, id: SessionId)
    requires Inv(sys) && Enabled(sys, StartReturns(token, id, false))
    ensures Inv(Apply(sys, StartReturns(token, id, false)))
  {
    var System(s, h) := sys;
    assert h.starting <= h.requests.Keys;
    hide TokensAgree, DrawnOnce, OneFate, TeardownsCounted, LiveAsAsked, WithinLimits, OneRoot, ExitsRemembered;
    LandFate(h.drawn, h.requests, h.starting, s.live.Keys, h.failed, h.begun, id, token);
    SpawnFailedResult(sys, token, id);
    hide Inv, Apply;
    LandedWithout(sys, token, Apply(sys, StartReturns(token, id, false)));
  }

  /** A start that ends without a session only gives its reservation back. */
  lemma LandedWithout(sys: System, token: nat, sys': System)
    requires Inv(sys)
    requires sys'.reg == Release(sys.reg, token)
    requires sys'.h == sys.h.(starting := sys.h.starting - {token}, failed := sys'.h.failed)
    requires OneFate(sys'.h.drawn, sys'.h.starting, sys'.reg.live.Keys, sys'.h.failed, sys'.h.begun)
    ensures Inv(sys')
  {
    hide TokensAgree, DrawnOnce, OneFate, TeardownsCounted, LiveAsAsked, WithinLimits, OneRoot, ExitsRemembered;
    ReleaseKeeps(sys, token);
    ReleaseKeepsLimits(sys.reg, token);
    hide Inv;
    Assemble(sys');
  }

  /** The report that a start has seen is dropped. */
  lemma SeenExitDropped(earlyExits: set<SessionId>, reported: set<SessionId>, forgotten: set<SessionId>,
                        drawn: map<SessionId, nat>, starting: set<nat>, live: set<SessionId>, id: SessionId)
    requires ExitsRemembered(earlyExits, reported, forgotten, drawn, starting, live)
    requires !InFlight(drawn, starting, id)
    ensures ExitsRemembered(earlyExits - {id}, reported, forgotten, drawn, starting, live)
  {
    SubsetIsSmaller(earlyExits - {id}, earlyExits);
  }

  lemma OvertakenResult(sys: System, token: nat, id: SessionId)
    requires Enabled(sys, StartReturns(token, id, true)) && sys.h.starting <= sys.h.requests.Keys
    requires StartCancelled(sys.reg, token, sys.h.requests[token].page) || id in sys.reg.earlyExits
    ensures var System(s, h) := sys;
            Apply(sys, StartReturns(token, id, true)) ==
            System(Release(s, token).(earlyExits := s.earlyExits - {id}, ending := s.ending + 1),
                   Begin(h.(starting := h.starting - {token}), {id}))
  {
  }

  /** The start was overtaken: the new session goes straight to its teardown. */
  lemma OvertakenKeeps(sys: System, token: nat, id: SessionId)
    requires Inv(sys) && Enabled(sys, StartReturns(token, id, true))
    requires StartCancelled(sys.reg, token, sys.h.requests[token].page) || id in sys.reg.earlyExits
    ensures Inv(Apply(sys, StartReturns(token, id, true)))
  {
    var System(s, h) := sys;
    assert token in s.pending && h.starting <= h.requests.Keys;
    OvertakenResult(sys, token, id);
    hide TokensAgree, DrawnOnce, OneFate, TeardownsCounted, LiveAsAsked, WithinLimits, OneRoot, ExitsRemembered;
    LandFate(h.drawn, h.requests, h.starting, s.live.Keys, h.failed, h.begun, id, token);
    hide Inv, Apply, StartCancelled;
    LandedEnding(sys, token, id, Apply(sys, StartReturns(token, id, true)));
  }

  lemma LandedEnding(sys: System, token: nat, id: SessionId, sys': System)
    requires Inv(sys) && token in sys.reg.pending && id in sys.h.drawn && sys.h.drawn[id] == token
    requires sys'.reg == Release(sys.reg, token).(earlyExits := sys.reg.earlyExits - {id}, ending := sys.reg.ending + 1)
    requires sys'.h == Begin(sys.h.(starting := sys.h.starting - {token}), {id})
    requires OneFate(sys'.h.drawn, sys'.h.starting, sys'.reg.live.Keys, sys'.h.failed, sys'.h.begun)
    ensures Inv(sys')
  {
    var System(s, h) := sys;
    hide TokensAgree, DrawnOnce, OneFate, TeardownsCounted, LiveAsAsked, WithinLimits, OneRoot, ExitsRemembered;
    ReleaseKeeps(sys, token);
    ReleaseKeepsLimits(s, token);
    TeardownsBegin(s.ending, h.begun, h.finished, {id});
    SeenExitDropped(s.earlyExits, h.reported, h.forgotten, h.drawn, h.starting - {token}, s.live.Keys, id);
    hide Inv;
    Assemble(sys');
  }

  lemma StartedPerProject(live: map<SessionId, Live>, id: SessionId, entry: Live, p: Name)
    requires id !in live
    ensures |LiveOf(live[id := entry], p)| == |LiveOf(live, p)| + Count(p == entry.project)
  {
    var grown := LiveOf(live[id := entry], p);
    if p == entry.project {
      assert grown == LiveOf(live, p) + {id};
    } else {
      assert grown == LiveOf(live, p);
    }
  }

  /** A start that becomes live only changes places: the counts stay. */
  lemma StartedKeepsLimits(s: State, token: nat, id: SessionId, entry: Live)
    requires WithinLimits(s.live, s.pending, s.ending) && token in s.pending && id !in s.live
    requires s.pending[token].project == entry.project
    ensures WithinLimits(s.live[id := entry], s.pending - {token}, s.ending)
  {
    var live, pending := s.live[id := entry], s.pending - {token};
    assert live.Keys == s.live.Keys + {id};
    assert |live| == |live.Keys| == |s.live| + 1;
    assert pending.Keys == s.pending.Keys - {token};
    assert |pending| == |pending.Keys| == |s.pending| - 1;
    assert token in PendingOf(s.pending, entry.project);
    hide LiveOf, PendingOf;
    forall p: Name
      ensures |LiveOf(live, p)| + |PendingOf(pending, p)| <= |LiveOf(s.live, p)| + |PendingOf(s.pending, p)|
    {
      StartedPerProject(s.live, id, entry, p);
      ReleasePerProject(s.pending, token, p);
    }
  }

  /** A wanted start already runs where its project does. */
  lemma StartedKeepsRoot(live: map<SessionId, Live>, pending: map<nat, Pending>, token: nat, id: SessionId)
    requires OneRoot(live, pending) && token in pending && !pending[token].cancelled && id !in live
    ensures OneRoot(live[id := Live(pending[token].project, pending[token].root)], pending - {token})
  {
  }

  lemma StartedKeeps(sys: System, token: nat, id: SessionId)
    requires Inv(sys) && Enabled(sys, StartReturns(token, id, true))
    requires StartResult(sys.reg, token, id, sys.h.requests[token].page, true).Started?
    ensures Inv(Apply(sys, StartReturns(token, id, true)))
  {
    var System(s, h) := sys;
    var entry := Live(h.requests[token].project, h.requests[token].root);
    assert token in s.pending && s.pending[token] == Pending(entry.project, entry.root, false);
    assert s.live[id := entry].Keys == s.live.Keys + {id};
    assert LiveAsAsked(s.live[id := entry], h.drawn, h.requests);
    StartedRemembers(sys, token, id);
    hide TokensAgree, DrawnOnce, OneFate, TeardownsCounted, LiveAsAsked, WithinLimits, OneRoot, ExitsRemembered;
    ReleaseKeeps(sys, token);
    LandFate(h.drawn, h.requests, h.starting, s.live.Keys, h.failed, h.begun, id, token);
    StartedKeepsLimits(s, token, id, entry);
    StartedKeepsRoot(s.live, s.pending, token, id);
    var System(s', h') := Apply(sys, StartReturns(token, id, true));
    assert s' == Release(s, token).(live := s.live[id := entry]);
    assert h' == h.(starting := h.starting - {token});
    hide Inv;
    Assemble(System(s', h'));
  }

  /** A session becomes live although its exit was reported only if the report was cleared. */
  lemma StartedRemembers(sys: System, token: nat, id: SessionId)
    requires Inv(sys) && Enabled(sys, StartReturns(token, id, true)) && id !in sys.reg.earlyExits
    ensures var System(s, h) := sys;
            ExitsRemembered(s.earlyExits, h.reported, h.forgotten, h.drawn, h.starting - {token}, s.live.Keys + {id})
  {
    hide TokensAgree, DrawnOnce, OneFate, TeardownsCounted, LiveAsAsked, WithinLimits, OneRoot;
    assert InFlight(sys.h.drawn, sys.h.starting, id);
  }

  lemma StartReturnsKeeps(sys: System, token: nat, id: SessionId, spawned: bool)
    requires Inv(sys) && Enabled(sys, StartReturns(token, id, spawned))
    ensures Inv(Apply(sys, StartReturns(token, id, spawned)))
  {
    assert token in sys.h.requests;
    hide Inv, Apply;
    if !spawned {
      SpawnFailedKeeps(sys, token, id);
    } else if StartCancelled(sys.reg, token, sys.h.requests[token].page) || id in sys.reg.earlyExits {
      OvertakenKeeps(sys, token, id);
    } else {
      StartedKeeps(sys, token, id);
    }
  }

  // ---- an exit is reported, a teardown returns

  lemma ReportRemembered(sys: System, id: SessionId)
    requires Inv(sys) && id in sys.h.drawn && id !in sys.reg.live
    ensures var System(s', h') := Apply(sys, ShellExits(id));
            ExitsRemembered(s'.earlyExits, h'.reported, h'.forgotten, h'.drawn, h'.starting, s'.live.Keys)
  {
    hide TokensAgree, DrawnOnce, OneFate, TeardownsCounted, LiveAsAsked, WithinLimits, OneRoot;
  }

  lemma ReportKeeps(sys: System, id: SessionId)
    requires Inv(sys) && id in sys.h.drawn && id !in sys.reg.live
    ensures Inv(Apply(sys, ShellExits(id)))
  {
    ReportRemembered(sys, id);
    assert sys.h.starting <= sys.h.requests.Keys;
    hide TokensAgree, DrawnOnce, OneFate, TeardownsCounted, LiveAsAsked, WithinLimits, OneRoot, ExitsRemembered;
    hide Inv;
    Assemble(Apply(sys, ShellExits(id)));
  }

  /** The exit of a live session takes it; its report matters to no start. */
  lemma LiveExitKeeps(sys: System, id: SessionId)
    requires Inv(sys) && id in sys.h.drawn && id in sys.reg.live
    ensures Inv(Apply(sys, ShellExits(id)))
  {
    var System(s, h) := sys;
    NotInFlight(h, s.live.Keys, id);
    assert h.starting <= h.requests.Keys;
    hide TokensAgree, DrawnOnce, OneFate, TeardownsCounted, LiveAsAsked, WithinLimits, OneRoot, ExitsRemembered;
    LiveExitResult(sys, id);
    hide Apply;
    TakeKeeps(sys, {id});
    hide Inv;
    AddReport(System(Take(s, {id}), Begin(h, {id})), id);
  }

  lemma LiveExitResult(sys: System, id: SessionId)
    requires id in sys.h.drawn && id in sys.reg.live && sys.h.starting <= sys.h.requests.Keys
    ensures var System(s, h) := sys;
            Apply(sys, ShellExits(id)) == System(Take(s, {id}), Begin(h, {id}).(reported := h.reported + {id}))
  {
  }

  /** A report about a session that is neither starting nor live changes nothing else. */
  lemma AddReport(sys: System, id: SessionId)
    requires Inv(sys)
    requires id in sys.h.drawn && id !in sys.reg.live && !InFlight(sys.h.drawn, sys.h.starting, id)
    ensures Inv(sys.(h := sys.h.(reported := sys.h.reported + {id})))
  {
    hide TokensAgree, DrawnOnce, OneFate, TeardownsCounted, LiveAsAsked, WithinLimits, OneRoot, ExitsRemembered;
    ReportOfEnding(sys.reg.earlyExits, sys.h, sys.reg.live.Keys, id);
    hide Inv;
    Assemble(sys.(h := sys.h.(reported := sys.h.reported + {id})));
  }

  lemma NotInFlight(h: History, live: set<SessionId>, id: SessionId)
    requires OneFate(h.drawn, h.starting, live, h.failed, h.begun) && id in live
    ensures !InFlight(h.drawn, h.starting, id)
  {
  }

  lemma ReportOfEnding(earlyExits: set<SessionId>, h: History, live: set<SessionId>, id: SessionId)
    requires ExitsRemembered(earlyExits, h.reported, h.forgotten, h.drawn, h.starting, live)
    requires id in h.drawn && id !in live && !InFlight(h.drawn, h.starting, id)
    ensures ExitsRemembered(earlyExits, h.reported + {id}, h.forgotten, h.drawn, h.starting, live)
  {
  }

  /** The count never goes below zero: every teardown that returns was counted. */
  lemma EndingNeverClips(sys: System, id: SessionId)
    requires Inv(sys) && Enabled(sys, TeardownReturns(id))
    ensures sys.reg.ending > 0
    ensures EndingFinished(sys.reg).ending == sys.reg.ending - 1
  {
    var more := sys.h.finished + multiset{id};
    assert more <= sys.h.begun;
    assert sys.h.begun == more + (sys.h.begun - more);
  }

  lemma TeardownKeeps(sys: System, id: SessionId)
    requires Inv(sys) && Enabled(sys, TeardownReturns(id))
    ensures Inv(Apply(sys, TeardownReturns(id)))
  {
    var System(s, h) := sys;
    EndingNeverClips(sys, id);
    assert TeardownsCounted(s.ending - 1, h.begun, h.finished + multiset{id});
    assert WithinLimits(s.live, s.pending, s.ending - 1);
    hide TokensAgree, DrawnOnce, OneFate, TeardownsCounted, LiveAsAsked, WithinLimits, OneRoot, ExitsRemembered;
    hide Inv;
    Assemble(Apply(sys, TeardownReturns(id)));
  }

  // ---- every step

  lemma SectionKeeps(sys: System, tokens: set<nat>, ids: set<SessionId>)
    requires Inv(sys) && ids <= sys.reg.live.Keys
    ensures Inv(System(Take(Cancel(sys.reg, tokens), ids), Begin(sys.h, ids)))
  {
    hide Inv;
    CancelKeeps(sys, tokens);
    TakeKeeps(sys.(reg := Cancel(sys.reg, tokens)), ids);
  }

  lemma StepKeeps(sys: System, step: Step)
    requires Inv(sys) && Enabled(sys, step)
    ensures Inv(Apply(sys, step))
  {
    var System(s, h) := sys;
    hide Inv;
    match step
    case AskStart(page, project, root) => AskStartKeeps(sys, page, project, root);
    case DrawId(token, id) => DrawIdKeeps(sys, token, id);
    case StartReturns(token, id, spawned) => StartReturnsKeeps(sys, token, id, spawned);
    case StartPanics(token) => StartPanicsKeeps(sys, token);
    case EndOne(project, id) => TakeKeeps(sys, TakenByEnd(s, project, id));
    case CloseProject(project) => SectionKeeps(sys, PendingOf(s.pending, project), LiveOf(s.live, project));
    case SweepAll => SectionKeeps(sys, s.pending.Keys, s.live.Keys);
    case ShellExits(id) => if id in s.live { LiveExitKeeps(sys, id); } else { ReportKeeps(sys, id); }
    case TeardownReturns(id) => TeardownKeeps(sys, id);
    case NewPage => FlagsKeep(sys, step);
    case QuitFlag => FlagsKeep(sys, step);
  }

  lemma FlagsKeep(sys: System, step: Step)
    requires Inv(sys) && (step.NewPage? || step.QuitFlag?)
    ensures Inv(Apply(sys, step))
  {
    hide TokensAgree, DrawnOnce, OneFate, TeardownsCounted, LiveAsAsked, WithinLimits, OneRoot, ExitsRemembered;
  }
}
