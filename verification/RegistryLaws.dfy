/** What holds over every run of the registry. */
module RegistryLaws {
  import opened Registry
  import opened RegistryRuns

  ghost predicate Next(sys: System, step: Step, sys': System)
  {
    sys.h.starting <= sys.h.requests.Keys && Enabled(sys, step) && sys' == Apply(sys, step)
  }

  ghost predicate Run(states: seq<System>, steps: seq<Step>)
  {
    && |states| == |steps| + 1
    && states[0] == INITIAL
    && forall i | 0 <= i < |steps| :: Next(states[i], steps[i], states[i + 1])
  }

  /** The first condition of `Next` costs no run: it holds wherever a run can get. */
  lemma {:induction false} Reachable(states: seq<System>, steps: seq<Step>, k: nat)
    requires Run(states, steps) && k < |states|
    ensures Inv(states[k])
    ensures states[k].h.starting <= states[k].h.requests.Keys
  {
    if k == 0 {
      InitialInv();
    } else {
      Reachable(states, steps, k - 1);
      assert Next(states[k - 1], steps[k - 1], states[k]);
      hide Inv, Apply;
      StepKeeps(states[k - 1], steps[k - 1]);
      InvTokens(states[k]);
    }
  }

  lemma InvTokens(sys: System)
    requires Inv(sys)
    ensures sys.h.starting <= sys.h.requests.Keys
  {
  }

  /** One step of a run, with what holds before it. */
  lemma StepAt(states: seq<System>, steps: seq<Step>, k: nat)
    requires Run(states, steps) && k + 1 < |states|
    ensures |states| == |steps| + 1
    ensures Inv(states[k]) && states[k].h.starting <= states[k].h.requests.Keys
    ensures Enabled(states[k], steps[k]) && states[k + 1] == Apply(states[k], steps[k])
  {
    Reachable(states, steps, k);
    assert Next(states[k], steps[k], states[k + 1]);
  }

  // --------------------------------------------------------- what one step can change

  /** Sessions leave live in any step, and enter it only as a start returns that nothing overtook. */
  lemma LiveStep(sys: System, step: Step)
    requires Inv(sys) && Enabled(sys, step) && sys.h.starting <= sys.h.requests.Keys
    ensures var s, s' := sys.reg, Apply(sys, step).reg;
            forall id | id in s'.live ::
              || (id in s.live && s'.live[id] == s.live[id])
              || (&& step.StartReturns? && step.id == id
                  && var r := sys.h.requests[step.token];
                     !StartCancelled(s, step.token, r.page) && s'.live[id] == Live(r.project, r.root))
  {
    hide Inv;
  }

  /** What was asked for is never forgotten. */
  lemma RequestsStep(sys: System, step: Step)
    requires Inv(sys) && Enabled(sys, step) && sys.h.starting <= sys.h.requests.Keys
    ensures var h, h' := sys.h, Apply(sys, step).h;
            forall t | t in h.requests :: t in h'.requests && h'.requests[t] == h.requests[t]
  {
    if step.AskStart? {
      assert sys.reg.nextToken !in sys.h.requests;
    } else {
      OtherRequests(sys, step);
      hide *;
    }
  }

  lemma OtherRequests(sys: System, step: Step)
    requires Enabled(sys, step) && sys.h.starting <= sys.h.requests.Keys && !step.AskStart?
    ensures Apply(sys, step).h.requests == sys.h.requests
  {
    hide Refusal, StartResult, Reserve, Resolve, SelfExit, TakeAll, EndProject, Take, Release;
  }

  lemma OtherDrawn(sys: System, step: Step)
    requires Enabled(sys, step) && sys.h.starting <= sys.h.requests.Keys && !step.DrawId?
    ensures Apply(sys, step).h.drawn == sys.h.drawn
  {
    hide Refusal, StartResult, Reserve, Resolve, SelfExit, TakeAll, EndProject, Take, Release;
  }

  /** Nor which start a session was drawn for. */
  lemma DrawnStep(sys: System, step: Step)
    requires Inv(sys) && Enabled(sys, step) && sys.h.starting <= sys.h.requests.Keys
    ensures var h, h' := sys.h, Apply(sys, step).h;
            forall id | id in h.drawn :: id in h'.drawn && h'.drawn[id] == h.drawn[id]
  {
    if !step.DrawId? {
      OtherDrawn(sys, step);
      hide *;
    } else {
      hide Inv;
    }
  }

  /** The page only goes up, and quitting is for good. */
  lemma FlagStep(sys: System, step: Step)
    requires Enabled(sys, step) && sys.h.starting <= sys.h.requests.Keys
    ensures Apply(sys, step).reg.page == sys.reg.page + Count(step.NewPage?)
    ensures Apply(sys, step).reg.quitting == (sys.reg.quitting || step.QuitFlag?)
  {
  }

  /** A reservation stays until its start returns. */
  lemma PendingStep(sys: System, step: Step, t: nat)
    requires Enabled(sys, step) && sys.h.starting <= sys.h.requests.Keys && t < sys.reg.nextToken
    ensures t in Apply(sys, step).reg.pending <==> t in sys.reg.pending && !Returns(step, t)
  {
    if step.AskStart? || step.StartReturns? || step.StartPanics? {
      hide StartCancelled;
    } else {
      OtherPending(sys, step);
      hide Apply, Enabled;
    }
  }

  lemma OtherPending(sys: System, step: Step)
    requires Enabled(sys, step) && sys.h.starting <= sys.h.requests.Keys
    requires !step.AskStart? && !step.StartReturns? && !step.StartPanics?
    ensures Apply(sys, step).reg.pending.Keys == sys.reg.pending.Keys
  {
  }

  /** What is cancelled stays cancelled, and only a sweep or its project's close cancels a start. */
  lemma CancelStep(sys: System, step: Step, t: nat)
    requires Inv(sys) && Enabled(sys, step) && sys.h.starting <= sys.h.requests.Keys && t in sys.reg.pending
    requires t < sys.reg.nextToken
    ensures var s, s' := sys.reg, Apply(sys, step).reg;
            (t in s'.pending ==>
                  var p := s.pending[t];
                  s'.pending[t] == p.(cancelled := p.cancelled || step.SweepAll? || step == CloseProject(p.project)))
  {
    hide Inv;
  }

  predicate Returns(step: Step, token: nat)
  {
    (step.StartReturns? && step.token == token) || step == StartPanics(token)
  }

  // ------------------------------------------------------------------ conservation

  datatype Fate = InTheAir | IsLive | Ending | Ended | NeverStarted

  /** The places that a session is in. */
  ghost function FatesOf(sys: System, id: SessionId): set<Fate>
  {
    (if InFlight(sys.h.drawn, sys.h.starting, id) then {InTheAir} else {}) +
    (if id in sys.reg.live then {IsLive} else {}) +
    (if sys.h.finished[id] < sys.h.begun[id] then {Ending} else {}) +
    (if id in sys.h.finished then {Ended} else {}) +
    (if id in sys.h.failed then {NeverStarted} else {})
  }

  /**
    In every state of every run, each session is in exactly one place, its
    teardown was begun at most once, however its end, its project's close, the
    sweeps and its own exit raced, and `ending` is the number of teardowns begun
    and not finished.
   */
  lemma Conservation(states: seq<System>, steps: seq<Step>, k: nat, id: SessionId)
    requires Run(states, steps) && k < |states|
    ensures id in states[k].h.drawn ==> |FatesOf(states[k], id)| == 1
    ensures id !in states[k].h.drawn ==> FatesOf(states[k], id) == {}
    ensures states[k].h.begun[id] <= 1 && states[k].h.finished <= states[k].h.begun
    ensures states[k].reg.ending == |states[k].h.begun - states[k].h.finished|
  {
    Reachable(states, steps, k);
    FatesOfInv(states[k], id);
    var h := states[k].h;
    assert h.begun == h.finished + (h.begun - h.finished);
  }

  lemma FatesOfInv(sys: System, id: SessionId)
    requires Inv(sys)
    ensures id in sys.h.drawn ==> exists f :: FatesOf(sys, id) == {f}
    ensures id !in sys.h.drawn ==> FatesOf(sys, id) == {}
    ensures sys.h.begun[id] <= 1
  {
    hide TokensAgree, DrawnOnce, LiveAsAsked, WithinLimits, OneRoot, ExitsRemembered;
    var h := sys.h;
    assert Count(InFlight(h.drawn, h.starting, id)) + Count(id in sys.reg.live.Keys) + Count(id in h.failed) + h.begun[id]
        == Count(id in h.drawn);
    assert h.finished[id] <= h.begun[id];
    if id in h.drawn {
      var f := if InFlight(h.drawn, h.starting, id) then InTheAir
               else if id in sys.reg.live then IsLive
               else if id in h.failed then NeverStarted
               else if h.finished[id] == 0 then Ending else Ended;
      assert FatesOf(sys, id) == {f};
    }
  }

  /** A teardown that returns is subtracted in full: the saturating subtraction never clips. */
  lemma NeverClips(states: seq<System>, steps: seq<Step>, k: nat)
    requires Run(states, steps) && k < |steps| && steps[k].TeardownReturns?
    ensures states[k + 1].reg.ending == states[k].reg.ending - 1
  {
    Reachable(states, steps, k);
    assert Next(states[k], steps[k], states[k + 1]);
    EndingNeverClips(states[k], steps[k].id);
  }

  /** A report that fills the held reports up clears them: it comes when 64 are held, for a session that is not live. */
  predicate Clears(s: State, step: Step)
  {
    step.ShellExits? && step.id !in s.live && |s.earlyExits| >= EARLY_EXIT_LIMIT
  }

  /** A held report goes exactly as its start returns with a session, or as another report clears them all. */
  lemma ReportGoesIff(sys: System, step: Step, id: SessionId)
    requires Enabled(sys, step) && sys.h.starting <= sys.h.requests.Keys && id in sys.reg.earlyExits
    ensures id !in Apply(sys, step).reg.earlyExits <==>
            (Clears(sys.reg, step) && step.id != id) || (step.StartReturns? && step.id == id && step.spawned)
  {
    if !step.ShellExits? && !step.StartReturns? {
      OtherReports(sys, step);
      hide Apply;
    } else {
      hide StartCancelled;
    }
  }

  lemma OtherReports(sys: System, step: Step)
    requires Enabled(sys, step) && sys.h.starting <= sys.h.requests.Keys && !step.ShellExits? && !step.StartReturns?
    ensures Apply(sys, step).reg.earlyExits == sys.reg.earlyExits
  {
    hide Refusal, StartResult, LiveOf, PendingOf;
  }

  /** Exactly the reports that were held at some clearing are forgotten. */
  lemma {:induction false} ForgottenIff(states: seq<System>, steps: seq<Step>, k: nat, id: SessionId)
    requires Run(states, steps) && k < |states|
    ensures id in states[k].h.forgotten <==>
            exists j | 0 <= j < k :: Clears(states[j].reg, steps[j]) && id in states[j].reg.earlyExits
  {
    hide Apply, Inv, Clears, Enabled, Next;
    if k > 0 {
      ForgottenIff(states, steps, k - 1, id);
      StepAt(states, steps, k - 1);
      ForgottenStep(states[k - 1], steps[k - 1], id);
      hide Run;
    }
  }

  lemma ForgottenStep(sys: System, step: Step, id: SessionId)
    requires Enabled(sys, step) && sys.h.starting <= sys.h.requests.Keys
    ensures id in Apply(sys, step).h.forgotten <==>
            id in sys.h.forgotten || (Clears(sys.reg, step) && id in sys.reg.earlyExits)
  {
  }

  /** A session whose shell has reported its exit is never left live, unless the report was cleared before its start saw it. */
  lemma NoDeadSessionLive(states: seq<System>, steps: seq<Step>, k: nat, id: SessionId)
    requires Run(states, steps) && k < |states|
    requires id in states[k].h.reported && id in states[k].reg.live
    ensures exists j | 0 <= j < k :: Clears(states[j].reg, steps[j]) && id in states[j].reg.earlyExits
  {
    Reachable(states, steps, k);
    ForgottenIff(states, steps, k, id);
    hide TokensAgree, DrawnOnce, OneFate, TeardownsCounted, LiveAsAsked, WithinLimits, OneRoot, Run;
    assert id in states[k].h.reported * states[k].reg.live.Keys;
  }

  // ------------------------------------------------------------------------ limits

  /** Never more than 24 sessions in all and 8 in a project, and a project's all in one folder. */
  lemma Limits(states: seq<System>, steps: seq<Step>, k: nat, project: Name)
    requires Run(states, steps) && k < |states|
    ensures var s := states[k].reg;
            && |s.live| + |s.pending| + s.ending <= 24
            && |LiveOf(s.live, project)| + |PendingOf(s.pending, project)| <= 8
            && (forall a, b | a in LiveOf(s.live, project) && b in LiveOf(s.live, project) ::
                  s.live[a].root == s.live[b].root)
            && (forall a, t | a in LiveOf(s.live, project) && t in PendingOf(s.pending, project) && !s.pending[t].cancelled ::
                  s.live[a].root == s.pending[t].root)
            && (forall t, u | t in PendingOf(s.pending, project) && u in PendingOf(s.pending, project)
                              && !s.pending[t].cancelled && !s.pending[u].cancelled ::
                  s.pending[t].root == s.pending[u].root)
  {
    Reachable(states, steps, k);
    hide TokensAgree, DrawnOnce, OneFate, TeardownsCounted, LiveAsAsked, ExitsRemembered;
    OneRootPairs(states[k].reg.live, states[k].reg.pending, project);
  }

  lemma OneRootPairs(live: map<SessionId, Live>, pending: map<nat, Pending>, project: Name)
    requires OneRoot(live, pending)
    ensures forall a, b | a in LiveOf(live, project) && b in LiveOf(live, project) :: live[a].root == live[b].root
    ensures forall a, t | a in LiveOf(live, project) && t in PendingOf(pending, project) && !pending[t].cancelled ::
              live[a].root == pending[t].root
    ensures forall t, u | t in PendingOf(pending, project) && u in PendingOf(pending, project)
                          && !pending[t].cancelled && !pending[u].cancelled :: pending[t].root == pending[u].root
  {
    forall a | a in LiveOf(live, project)
      ensures !RunsElsewhere(live, pending, project, live[a].root)
    {
    }
    forall t | t in PendingOf(pending, project) && !pending[t].cancelled
      ensures !RunsElsewhere(live, pending, project, pending[t].root)
    {
    }
  }

  // -------------------------------------------------------------------------- quit

  predicate QuitSwept(s: State)
  {
    s.quitting && s.live == map[]
  }

  /** What quit still waits for: a start in flight becomes a teardown at most. */
  function Outstanding(s: State): nat
  {
    2 * |s.pending| + s.ending
  }

  predicate Changed(s: State, s': State)
  {
    |s'.pending| != |s.pending| || s'.ending != s.ending
  }

  lemma QuitSweptKeeps(sys: System, step: Step)
    requires Inv(sys) && Enabled(sys, step) && QuitSwept(sys.reg) && sys.h.starting <= sys.h.requests.Keys
    ensures QuitSwept(Apply(sys, step).reg)
  {
    LiveStep(sys, step);
    FlagStep(sys, step);
    hide Inv, Apply;
    assert Apply(sys, step).reg.live.Keys == {};
  }

  lemma OutstandingStep(sys: System, step: Step)
    requires Inv(sys) && Enabled(sys, step) && QuitSwept(sys.reg) && sys.h.starting <= sys.h.requests.Keys
    ensures var s, s' := sys.reg, Apply(sys, step).reg;
            Outstanding(s') + Count(Changed(s, s')) <= Outstanding(s)
  {
    var s := sys.reg;
    assert s.pending.Keys == sys.h.starting;
    hide Inv;
    assert s.live.Keys == {};
    if step.StartReturns? || step.StartPanics? {
      ReleasedCount(s, step.token);
    } else if step.CloseProject? || step.SweepAll? {
      SectionStep(sys, step);
      hide Apply;
    } else {
      QuietStep(sys, step);
      hide Apply;
    }
  }

  lemma SectionStep(sys: System, step: Step)
    requires step.CloseProject? || step.SweepAll?
    requires QuitSwept(sys.reg) && sys.h.starting <= sys.h.requests.Keys
    ensures var s, s' := sys.reg, Apply(sys, step).reg;
            s'.ending == s.ending && |s'.pending| == |s.pending|
  {
    var s := sys.reg;
    if step.CloseProject? {
      NothingTaken(s, PendingOf(s.pending, step.project), LiveOf(s.live, step.project));
    } else {
      NothingTaken(s, s.pending.Keys, s.live.Keys);
    }
  }

  /** The other steps change neither the reservations nor, with nothing live, the count but by a finished teardown. */
  lemma QuietStep(sys: System, step: Step)
    requires Enabled(sys, step) && QuitSwept(sys.reg) && sys.h.starting <= sys.h.requests.Keys
    requires !step.StartReturns? && !step.StartPanics? && !step.CloseProject? && !step.SweepAll?
    ensures var s, s' := sys.reg, Apply(sys, step).reg;
            s'.pending == s.pending && s'.ending <= s.ending
  {
  }

  lemma ReleasedCount(s: State, token: nat)
    requires token in s.pending
    ensures |s.pending - {token}| == |s.pending| - 1
  {
    var pending := s.pending - {token};
    assert pending.Keys == s.pending.Keys - {token};
    assert |pending| == |pending.Keys|;
  }

  lemma NothingTaken(s: State, tokens: set<nat>, ids: set<SessionId>)
    requires s.live == map[] && ids <= s.live.Keys
    ensures var s' := Take(Cancel(s, tokens), ids);
            s'.live == map[] && s'.ending == s.ending && |s'.pending| == |s.pending| && s'.quitting == s.quitting
  {
    assert ids == {};
    var pending := Cancel(s, tokens).pending;
    assert pending.Keys == s.pending.Keys;
    assert |pending| == |pending.Keys|;
  }

  /** How many steps of a stretch of the run change what quit waits for. */
  ghost function Changes(states: seq<System>, from: nat, to: nat): nat
    requires from <= to < |states|
  {
    if from == to then 0
    else Changes(states, from, to - 1) + Count(Changed(states[to - 1].reg, states[to].reg))
  }

  /**
    Quit sets the flag in one locked section and sweeps in another. From the sweep
    on, in every later state, nothing is live and no start is admitted, and every
    change of what quit waits for brings it nearer: there are never more changes
    than were outstanding.
   */
  lemma {:induction false} QuitDrains(states: seq<System>, steps: seq<Step>, flag: nat, sweep: nat, k: nat)
    requires Run(states, steps) && flag < sweep < k < |states|
    requires steps[flag] == QuitFlag && steps[sweep] == SweepAll
    ensures QuitSwept(states[k].reg)
    ensures Changes(states, sweep + 1, k) + Outstanding(states[k].reg) <= Outstanding(states[sweep + 1].reg)
    ensures forall page, project, root :: Refusal(states[k].reg, page, project, root) == ShuttingDown
  {
    hide Run, Inv, Apply, Enabled;
    StepAt(states, steps, k - 1);
    if k == sweep + 1 {
      StaysQuitting(states, steps, flag, sweep);
      SweepEmpties(states[sweep]);
    } else {
      QuitDrains(states, steps, flag, sweep, k - 1);
      QuitSweptKeeps(states[k - 1], steps[k - 1]);
      OutstandingStep(states[k - 1], steps[k - 1]);
    }
  }

  lemma SweepEmpties(sys: System)
    requires sys.h.starting <= sys.h.requests.Keys
    ensures var s' := Apply(sys, SweepAll).reg;
            s'.live == map[] && s'.quitting == sys.reg.quitting && s'.page == sys.reg.page
  {
    assert sys.reg.live - sys.reg.live.Keys == map[];
  }

  lemma {:induction false} StaysQuitting(states: seq<System>, steps: seq<Step>, flag: nat, k: nat)
    requires Run(states, steps) && flag < k < |states| && steps[flag] == QuitFlag
    ensures states[k].reg.quitting
  {
    hide Run, Inv, Apply, Enabled;
    StepAt(states, steps, k - 1);
    FlagStep(states[k - 1], steps[k - 1]);
    if k > flag + 1 {
      StaysQuitting(states, steps, flag, k - 1);
    }
  }

  /** Once every start and every teardown has returned, quit waits for nothing. */
  lemma QuitWaitEnds(states: seq<System>, steps: seq<Step>, k: nat)
    requires Run(states, steps) && k < |states|
    ensures states[k].h.starting == {} && states[k].h.begun == states[k].h.finished <==>
            states[k].reg.pending == map[] && states[k].reg.ending == 0
  {
    Reachable(states, steps, k);
    var System(s, h) := states[k];
    assert s.pending.Keys == h.starting;
    assert h.begun == h.finished + (h.begun - h.finished);
    hide Inv;
  }

  // ------------------------------------------------------------------- page reload

  /** Nothing is live that was asked for before page `page`. */
  ghost predicate SweptBefore(sys: System, page: nat)
  {
    && page <= sys.reg.page
    && forall id | id in sys.reg.live :: id in sys.h.drawn && sys.h.drawn[id] in sys.h.requests
                                         && page <= sys.h.requests[sys.h.drawn[id]].page
  }

  lemma SweptBeforeKeeps(sys: System, step: Step, page: nat)
    requires Inv(sys) && Enabled(sys, step) && SweptBefore(sys, page)
    ensures SweptBefore(Apply(sys, step), page)
  {
    assert sys.h.starting <= sys.h.requests.Keys;
    LiveStep(sys, step);
    RequestsStep(sys, step);
    DrawnStep(sys, step);
    FlagStep(sys, step);
    hide Inv, Apply;
  }

  /**
    A page load counts up the page in one locked section and sweeps in another.
    From the sweep on, in every later state, every live session was asked for by
    the new page or a later one, whatever started or resolved in between.
   */
  lemma {:induction false} PageReloadSweeps(states: seq<System>, steps: seq<Step>, bump: nat, sweep: nat, k: nat)
    requires Run(states, steps) && bump < sweep < k < |states|
    requires steps[bump] == NewPage && steps[sweep] == SweepAll
    ensures SweptBefore(states[k], states[bump + 1].reg.page)
  {
    hide Run, Inv, Apply, Enabled, SweptBefore;
    var page := states[bump + 1].reg.page;
    StepAt(states, steps, k - 1);
    if k == sweep + 1 {
      PageOnlyGrows(states, steps, bump + 1, sweep);
      SweepEmpties(states[sweep]);
      EmptyIsSwept(states[k], page);
    } else {
      PageReloadSweeps(states, steps, bump, sweep, k - 1);
      SweptBeforeKeeps(states[k - 1], steps[k - 1], page);
    }
  }

  lemma EmptyIsSwept(sys: System, page: nat)
    requires sys.reg.live == map[] && page <= sys.reg.page
    ensures SweptBefore(sys, page)
  {
  }

  lemma {:induction false} PageOnlyGrows(states: seq<System>, steps: seq<Step>, i: nat, k: nat)
    requires Run(states, steps) && i <= k < |states|
    ensures states[i].reg.page <= states[k].reg.page
  {
    hide Run, Inv, Apply, Enabled;
    if i < k {
      StepAt(states, steps, k - 1);
      FlagStep(states[k - 1], steps[k - 1]);
      PageOnlyGrows(states, steps, i, k - 1);
    }
  }

  // ----------------------------------------------------------------- project close

  /** No start of the project with a token below `bound` is live or still wanted. */
  ghost predicate ClosedBelow(sys: System, project: Name, bound: nat)
  {
    && bound <= sys.reg.nextToken
    && (forall id | id in sys.reg.live && sys.reg.live[id].project == project ::
          id in sys.h.drawn && bound <= sys.h.drawn[id])
    && (forall t | t in sys.reg.pending && t < bound && sys.reg.pending[t].project == project ::
          sys.reg.pending[t].cancelled)
  }

  lemma ClosedBelowKeeps(sys: System, step: Step, project: Name, bound: nat)
    requires Inv(sys) && Enabled(sys, step) && ClosedBelow(sys, project, bound)
    ensures ClosedBelow(Apply(sys, step), project, bound)
  {
    assert sys.h.starting <= sys.h.requests.Keys && sys.reg.pending.Keys == sys.h.starting;
    assert forall t | t in sys.reg.pending :: t < sys.reg.nextToken;
    LiveOfClosed(sys, step, project, bound);
    hide Inv, Apply;
    NextTokenStep(sys, step);
    forall t: nat | t < bound
      ensures t in Apply(sys, step).reg.pending ==> t in sys.reg.pending
    {
      PendingStep(sys, step, t);
    }
    forall t | t in sys.reg.pending && t < bound {
      CancelStep(sys, step, t);
    }
  }

  lemma LiveOfClosed(sys: System, step: Step, project: Name, bound: nat)
    requires Inv(sys) && Enabled(sys, step) && ClosedBelow(sys, project, bound)
    ensures var System(s', h') := Apply(sys, step);
            forall id | id in s'.live && s'.live[id].project == project :: id in h'.drawn && bound <= h'.drawn[id]
  {
    assert sys.h.starting <= sys.h.requests.Keys && sys.reg.pending.Keys == sys.h.starting;
    assert forall t | t in sys.reg.pending :: sys.reg.pending[t].project == sys.h.requests[t].project;
    hide Inv, Apply;
    LiveStep(sys, step);
    DrawnStep(sys, step);
  }

  lemma NextTokenStep(sys: System, step: Step)
    requires Enabled(sys, step) && sys.h.starting <= sys.h.requests.Keys
    ensures sys.reg.nextToken <= Apply(sys, step).reg.nextToken
  {
  }

  /** Right after the close, no session of the project is live and every start of it is cancelled. */
  lemma CloseCloses(sys: System, project: Name)
    requires Inv(sys)
    ensures ClosedBelow(Apply(sys, CloseProject(project)), project, sys.reg.nextToken)
  {
    hide Inv;
  }

  /**
    From the close of a project on, in every later state, no start whose
    reservation came before the close is live, whenever its spawn returns.
   */
  lemma {:induction false} ProjectCloseHolds(states: seq<System>, steps: seq<Step>, close: nat, k: nat, project: Name)
    requires Run(states, steps) && close < k < |states| && steps[close] == CloseProject(project)
    ensures ClosedBelow(states[k], project, states[close].reg.nextToken)
  {
    hide Run, Inv, Apply, Enabled, ClosedBelow;
    StepAt(states, steps, k - 1);
    if k == close + 1 {
      CloseCloses(states[close], project);
    } else {
      ProjectCloseHolds(states, steps, close, k - 1, project);
      ClosedBelowKeeps(states[k - 1], steps[k - 1], project, states[close].reg.nextToken);
    }
  }

  // -------------------------------------------------- exactly which starts become live

  /** The steps that a start of the project does not survive. */
  predicate Overtakes(step: Step, project: Name)
  {
    step.QuitFlag? || step.NewPage? || step.SweepAll? || step == CloseProject(project)
  }

  ghost predicate Overtaken(steps: seq<Step>, from: nat, to: nat, project: Name)
  {
    exists i: nat :: from <= i < to && i < |steps| && Overtakes(steps[i], project)
  }

  lemma StillWantedKeeps(sys: System, step: Step, token: nat)
    requires Inv(sys) && Enabled(sys, step) && token in sys.h.starting && !Returns(step, token)
    requires token in sys.h.requests && sys.h.requests[token].page <= sys.reg.page
    ensures var sys' := Apply(sys, step);
            && token in sys'.h.starting
            && token in sys'.h.requests && sys'.h.requests[token] == sys.h.requests[token]
            && sys.reg.page <= sys'.reg.page
            && (StartCancelled(sys'.reg, token, sys.h.requests[token].page) <==>
                StartCancelled(sys.reg, token, sys.h.requests[token].page) || Overtakes(step, sys.h.requests[token].project))
  {
    assert sys.h.starting <= sys.h.requests.Keys && sys.reg.pending.Keys == sys.h.starting;
    assert sys.reg.pending[token].project == sys.h.requests[token].project && token < sys.reg.nextToken;
    RequestsStep(sys, step);
    DrawnStep(sys, step);
    FlagStep(sys, step);
    PendingStep(sys, step, token);
    CancelStep(sys, step, token);
    StartingStep(sys, step, token);
    hide Inv, Apply;
  }

  lemma StartingStep(sys: System, step: Step, token: nat)
    requires Enabled(sys, step) && sys.h.starting <= sys.h.requests.Keys && token in sys.h.starting && !Returns(step, token)
    ensures token in Apply(sys, step).h.starting
  {
  }

  lemma AdmittedIsWanted(sys: System, step: Step)
    requires Inv(sys) && step.AskStart? && Refusal(sys.reg, step.page, step.project, step.root).Reserved?
    ensures var token, sys' := sys.reg.nextToken, Apply(sys, step);
            && token in sys'.h.starting
            && token in sys'.h.requests && sys'.h.requests[token] == Request(step.page, step.project, step.root)
            && step.page == sys'.reg.page
            && !StartCancelled(sys'.reg, token, step.page)
  {
    hide Inv;
  }

  lemma {:induction false} CancelledIffOvertaken(states: seq<System>, steps: seq<Step>, ask: nat, k: nat)
    requires Run(states, steps) && ask < k < |states| && steps[ask].AskStart?
    requires Refusal(states[ask].reg, steps[ask].page, steps[ask].project, steps[ask].root).Reserved?
    requires forall i | ask < i < k :: !Returns(steps[i], states[ask].reg.nextToken)
    ensures var token := states[ask].reg.nextToken;
            && token in states[k].h.starting
            && token in states[k].h.requests
            && states[k].h.requests[token] == Request(steps[ask].page, steps[ask].project, steps[ask].root)
            && steps[ask].page <= states[k].reg.page
            && (StartCancelled(states[k].reg, token, steps[ask].page) <==> Overtaken(steps, ask + 1, k, steps[ask].project))
  {
    hide Run, Apply, Inv, Enabled, StartCancelled, Refusal;
    var token := states[ask].reg.nextToken;
    StepAt(states, steps, k - 1);
    if k == ask + 1 {
      AdmittedIsWanted(states[ask], steps[ask]);
    } else {
      CancelledIffOvertaken(states, steps, ask, k - 1);
      StillWantedKeeps(states[k - 1], steps[k - 1], token);
      OvertakenSnoc(steps, ask + 1, k, steps[ask].project);
    }
  }

  lemma OvertakenSnoc(steps: seq<Step>, from: nat, to: nat, project: Name)
    requires from < to <= |steps|
    ensures Overtaken(steps, from, to, project) <==>
            Overtaken(steps, from, to - 1, project) || Overtakes(steps[to - 1], project)
  {
  }

  /**
    A start that was admitted becomes live when its spawn returns exactly if no
    quit, page load, sweep or close of its own project came after it was admitted
    and no report of its exit is held. So a start asked for after a close is not
    touched by it.
   */
  lemma BecomesLiveIff(states: seq<System>, steps: seq<Step>, ask: nat, k: nat)
    requires Run(states, steps) && ask < k < |steps| && steps[ask].AskStart?
    requires Refusal(states[ask].reg, steps[ask].page, steps[ask].project, steps[ask].root).Reserved?
    requires forall i | ask < i < k :: !Returns(steps[i], states[ask].reg.nextToken)
    requires steps[k].StartReturns? && steps[k].token == states[ask].reg.nextToken && steps[k].spawned
    ensures steps[k].id in states[k + 1].reg.live <==>
            !Overtaken(steps, ask + 1, k, steps[ask].project) && steps[k].id !in states[k].reg.earlyExits
  {
    CancelledIffOvertaken(states, steps, ask, k);
    Reachable(states, steps, k);
    assert Next(states[k], steps[k], states[k + 1]);
    var System(s, h) := states[k];
    NotLiveYet(states[k], steps[k].id);
    hide Inv, Overtaken;
  }

  lemma NotLiveYet(sys: System, id: SessionId)
    requires Inv(sys) && InFlight(sys.h.drawn, sys.h.starting, id)
    ensures id !in sys.reg.live
  {
    hide TokensAgree, DrawnOnce, TeardownsCounted, LiveAsAsked, WithinLimits, OneRoot, ExitsRemembered;
    assert Count(InFlight(sys.h.drawn, sys.h.starting, id)) + Count(id in sys.reg.live.Keys) + Count(id in sys.h.failed)
        + sys.h.begun[id] == Count(id in sys.h.drawn);
  }

  // ------------------------------------- exactly which starts become live although dead

  /** A report that is held at once: its session is not live. */
  predicate Reports(s: State, step: Step, id: SessionId)
  {
    step == ShellExits(id) && id !in s.live
  }

  /** A held report of this session goes. */
  predicate Loses(s: State, step: Step, id: SessionId)
  {
    (Clears(s, step) && step.id != id) || (step.StartReturns? && step.id == id && step.spawned)
  }

  lemma HeldStep(sys: System, step: Step, id: SessionId)
    requires Enabled(sys, step) && sys.h.starting <= sys.h.requests.Keys
    ensures id in Apply(sys, step).reg.earlyExits <==>
            Reports(sys.reg, step, id) || (id in sys.reg.earlyExits && !Loses(sys.reg, step, id))
  {
    if !step.ShellExits? && !step.StartReturns? {
      OtherReports(sys, step);
      hide Apply;
    } else {
      hide StartCancelled, LiveOf, PendingOf, Refusal;
    }
  }

  /** Exactly the reports are held that came for a session that was not live, and were not lost since. */
  ghost predicate HeldSince(states: seq<System>, steps: seq<Step>, k: nat, id: SessionId)
    requires k <= |steps| && k <= |states|
  {
    exists r | 0 <= r < k :: Reports(states[r].reg, steps[r], id) && forall j | r < j < k :: !Loses(states[j].reg, steps[j], id)
  }

  lemma {:induction false} HeldIff(states: seq<System>, steps: seq<Step>, k: nat, id: SessionId)
    requires Run(states, steps) && k < |states|
    ensures id in states[k].reg.earlyExits <==> HeldSince(states, steps, k, id)
  {
    hide Apply, Inv, Enabled, Next, Reports, Loses;
    if k > 0 {
      HeldIff(states, steps, k - 1, id);
      StepAt(states, steps, k - 1);
      HeldStep(states[k - 1], steps[k - 1], id);
      if HeldSince(states, steps, k - 1, id) && !Loses(states[k - 1].reg, steps[k - 1], id) {
        var r :| 0 <= r < k - 1 && Reports(states[r].reg, steps[r], id) && forall j | r < j < k - 1 :: !Loses(states[j].reg, steps[j], id);
        assert forall j | r < j < k :: !Loses(states[j].reg, steps[j], id);
      }
      hide Run;
    }
  }

  lemma {:induction false} DrawnStays(states: seq<System>, steps: seq<Step>, i: nat, k: nat, id: SessionId)
    requires Run(states, steps) && i <= k < |states| && id in states[i].h.drawn
    ensures id in states[k].h.drawn && states[k].h.drawn[id] == states[i].h.drawn[id]
    ensures states[i].reg.nextToken <= states[k].reg.nextToken
  {
    hide Run, Apply, Inv, Enabled;
    if i < k {
      DrawnStays(states, steps, i, k - 1, id);
      StepAt(states, steps, k - 1);
      DrawnStep(states[k - 1], steps[k - 1]);
      NextTokenStep(states[k - 1], steps[k - 1]);
    }
  }

  /** A start that returns now did not return before. */
  lemma NotReturnedYet(states: seq<System>, steps: seq<Step>, ask: nat, j: nat, k: nat)
    requires Run(states, steps) && ask < k < |steps| && j < k
    requires forall i | ask < i < k :: !Returns(steps[i], states[ask].reg.nextToken)
    requires steps[k].StartReturns? && steps[k].token == states[ask].reg.nextToken
    ensures !(steps[j].StartReturns? && steps[j].id == steps[k].id)
  {
    if steps[j].StartReturns? && steps[j].id == steps[k].id {
      var id := steps[k].id;
      StepAt(states, steps, j);
      StepAt(states, steps, k);
      DrawnStays(states, steps, j, k, id);
      assert steps[j].token == steps[k].token && steps[j].token in states[j].h.starting;
      if j <= ask {
        DrawnStays(states, steps, j, ask, id);
        TokenIsOld(states[j], steps[j].token);
      }
      hide Run, Apply, Inv;
      assert false;
    }
  }

  lemma TokenIsOld(sys: System, token: nat)
    requires Inv(sys) && token in sys.h.starting
    ensures token < sys.reg.nextToken
  {
    hide DrawnOnce, OneFate, TeardownsCounted, LiveAsAsked, WithinLimits, OneRoot, ExitsRemembered;
  }

  /**
    A start whose shell exited before it returns becomes live all the same exactly if
    nothing overtook it and every report of it was cleared by another one since.
   */
  lemma DeadStartBecomesLiveIff(states: seq<System>, steps: seq<Step>, ask: nat, k: nat)
    requires Run(states, steps) && ask < k < |steps| && steps[ask].AskStart?
    requires Refusal(states[ask].reg, steps[ask].page, steps[ask].project, steps[ask].root).Reserved?
    requires forall i | ask < i < k :: !Returns(steps[i], states[ask].reg.nextToken)
    requires steps[k].StartReturns? && steps[k].token == states[ask].reg.nextToken && steps[k].spawned
    ensures steps[k].id in states[k + 1].reg.live <==>
            && !Overtaken(steps, ask + 1, k, steps[ask].project)
            && forall r | 0 <= r < k && Reports(states[r].reg, steps[r], steps[k].id) ::
                 exists j | r < j < k :: Clears(states[j].reg, steps[j]) && steps[j].id != steps[k].id
  {
    hide Refusal, Overtaken, Reports, Apply, Inv, Enabled, Next;
    var id := steps[k].id;
    BecomesLiveIff(states, steps, ask, k);
    HeldIff(states, steps, k, id);
    forall j | 0 <= j < k
      ensures Loses(states[j].reg, steps[j], id) <==> Clears(states[j].reg, steps[j]) && steps[j].id != id
    {
      NotReturnedYet(states, steps, ask, j, k);
    }
    hide Run, Loses;
  }
}
