/** What each step of a run does to the registry, told by the entries themselves. */
module RegistrySteps {
  import opened Registry
  import opened RegistryRuns
  import opened RegistryLaws

  // ---------------------------------------------------------- who is let in, and why not

  /** The project runs, or is being started, in this folder only. */
  predicate SameFolder(s: State, project: Name, root: Name)
  {
    && (forall id | id in s.live && s.live[id].project == project :: s.live[id].root == root)
    && (forall t | t in s.pending && s.pending[t].project == project && !s.pending[t].cancelled :: s.pending[t].root == root)
  }

  /** How many sessions a project has, and how many starts that did not return. */
  function OfProject(s: State, project: Name): nat
  {
    |set id | id in s.live && s.live[id].project == project| + |set t | t in s.pending && s.pending[t].project == project|
  }

  /** Every session that is not over. */
  function InAll(s: State): nat
  {
    |s.live| + |s.pending| + s.ending
  }

  predicate Admits(s: State, page: nat, project: Name, root: Name)
  {
    && !s.quitting && s.page == page && SameFolder(s, project, root)
    && OfProject(s, project) < 8 && InAll(s) < 24
  }

  /** For which registry each answer to a start is given. */
  lemma AnswerIff(s: State, page: nat, project: Name, root: Name)
    ensures var answer := Refusal(s, page, project, root);
            && (answer == ShuttingDown <==> s.quitting)
            && (answer == PageReloaded <==> !s.quitting && s.page != page)
            && (answer == RootMismatch <==> !s.quitting && s.page == page && !SameFolder(s, project, root))
            && (answer == ProjectLimit <==>
                  !s.quitting && s.page == page && SameFolder(s, project, root) && OfProject(s, project) >= 8)
            && (answer == TotalLimit <==>
                  !s.quitting && s.page == page && SameFolder(s, project, root) && OfProject(s, project) < 8 && InAll(s) >= 24)
            && (answer.Reserved? <==> Admits(s, page, project, root))
            && (answer.Reserved? ==> answer.token == s.nextToken)
  {
    CountsAgree(s, project);
    hide LiveOf, PendingOf, OfProject;
  }

  lemma CountsAgree(s: State, project: Name)
    ensures OfProject(s, project) == |LiveOf(s.live, project)| + |PendingOf(s.pending, project)|
  {
    assert LiveOf(s.live, project) == set id | id in s.live && s.live[id].project == project;
    assert PendingOf(s.pending, project) == set t | t in s.pending && s.pending[t].project == project;
  }

  /** In every run a start is let in exactly if the registry admits it; then its token is the next one, and nothing else changes. */
  lemma StartIsLetInIff(states: seq<System>, steps: seq<Step>, k: nat)
    requires Run(states, steps) && k < |steps| && steps[k].AskStart?
    ensures var s, s', ask := states[k].reg, states[k + 1].reg, steps[k];
            if Admits(s, ask.page, ask.project, ask.root)
            then s' == s.(pending := s.pending[s.nextToken := Pending(ask.project, ask.root, false)], nextToken := s.nextToken + 1)
            else s' == s
  {
    StepAt(states, steps, k);
    AnswerIff(states[k].reg, steps[k].page, steps[k].project, steps[k].root);
    hide Run, Inv, Refusal, Admits;
  }

  /** For which registry a start that returns gets each outcome. */
  lemma OutcomeIff(s: State, token: nat, id: SessionId, page: nat, spawned: bool)
    ensures var outcome := StartResult(s, token, id, page, spawned);
            var wanted := !s.quitting && s.page == page && token in s.pending && !s.pending[token].cancelled;
            && (outcome == SpawnFailed <==> !spawned)
            && (outcome == Cancelled <==> spawned && !wanted)
            && (outcome == ExitedEarly <==> spawned && wanted && id in s.earlyExits)
            && (outcome == Started <==> spawned && wanted && id !in s.earlyExits)
  {
  }

  /** A run starts with nothing live, nothing starting, nothing ending and no exit held, on the first page. */
  lemma StartsEmpty(states: seq<System>, steps: seq<Step>)
    requires Run(states, steps)
    ensures states[0].reg == State(map[], map[], 0, 0, false, {}, 0)
  {
  }

  // --------------------------------------------------------- what every step changes

  /** A live session goes with its own end, its project's close, a sweep, or its shell's exit. */
  predicate Goes(s: State, step: Step, id: SessionId)
    requires id in s.live
  {
    || step == EndOne(s.live[id].project, id)
    || step == CloseProject(s.live[id].project)
    || step == SweepAll
    || step == ShellExits(id)
  }

  /** A start comes through: its session was spawned, its page is still there, nothing cancelled it, and no exit of it is held. */
  predicate Comes(sys: System, step: Step, id: SessionId)
    requires Enabled(sys, step) && sys.h.starting <= sys.h.requests.Keys
  {
    && step.StartReturns? && step.id == id && step.spawned
    && var s := sys.reg;
       && !s.quitting && s.page == sys.h.requests[step.token].page
       && step.token in s.pending && !s.pending[step.token].cancelled && id !in s.earlyExits
  }

  /** Exactly the sessions that come and do not go are live after a step, each as its start asked. */
  lemma LiveAfter(sys: System, step: Step, id: SessionId)
    requires Inv(sys) && Enabled(sys, step) && sys.h.starting <= sys.h.requests.Keys
    ensures var s, s' := sys.reg, Apply(sys, step).reg;
            && (id in s'.live <==> Comes(sys, step, id) || (id in s.live && !Goes(s, step, id)))
            && (id in s'.live && !Comes(sys, step, id) ==> s'.live[id] == s.live[id])
            && (Comes(sys, step, id) ==>
                  s'.live[id] == Live(sys.h.requests[step.token].project, sys.h.requests[step.token].root))
  {
    hide Inv, Refusal, Going;
    if step.StartReturns? {
      hide Take, TakeAll, EndProject, SelfExit, Reserve, LiveOf, PendingOf;
    } else {
      hide StartResult, Resolve, StartCancelled, PendingOf;
    }
  }

  /** Starts stay in flight until they return; only an admitted request adds one. */
  lemma PendingAfter(sys: System, step: Step, t: nat)
    requires Inv(sys) && Enabled(sys, step) && sys.h.starting <= sys.h.requests.Keys
    ensures var s, s' := sys.reg, Apply(sys, step).reg;
            var added := step.AskStart? && Admits(s, step.page, step.project, step.root) && t == s.nextToken;
            && (t in s'.pending <==> added || (t in s.pending && !Returns(step, t)))
            && (added ==> s'.pending[t] == Pending(step.project, step.root, false))
            && (t in s.pending && t in s'.pending && !added ==>
                  s'.pending[t] == s.pending[t].(cancelled :=
                    s.pending[t].cancelled || step == SweepAll || step == CloseProject(s.pending[t].project)))
  {
    hide Inv;
    if step.AskStart? {
      AnswerIff(sys.reg, step.page, step.project, step.root);
      hide Refusal, Admits;
    } else {
      hide Admits;
    }
  }

  function Going(s: State, step: Step): (ids: set<SessionId>)
    ensures forall id :: id in ids <==> id in s.live && Goes(s, step, id)
  {
    set id | id in s.live && Goes(s, step, id)
  }

  lemma GoingOf(s: State, step: Step)
    ensures Going(s, step) ==
            match step
            case EndOne(project, id) => TakenByEnd(s, project, id)
            case CloseProject(project) => LiveOf(s.live, project)
            case SweepAll => s.live.Keys
            case ShellExits(id) => if id in s.live then {id} else {}
            case _ => {}
  {
  }

  /** A teardown begins for each session that goes and for a spawned start that does not come through, and one ends as it returns. */
  lemma EndingAfter(sys: System, step: Step)
    requires Inv(sys) && Enabled(sys, step) && sys.h.starting <= sys.h.requests.Keys
    ensures var s, s' := sys.reg, Apply(sys, step).reg;
            s'.ending == s.ending + |Going(s, step)|
                         + (if step.StartReturns? && step.spawned && !Comes(sys, step, step.id) then 1 else 0)
                         - (if step.TeardownReturns? then 1 else 0)
  {
    hide Inv, Refusal, Admits, PendingOf, Goes, Going, LiveOf, TakenByEnd;
    GoingOf(sys.reg, step);
    if step.TeardownReturns? {
      EndingNeverClips(sys, step.id);
      hide Apply;
    } else if step.StartReturns? {
      hide Take, TakeAll, EndProject, SelfExit, Reserve;
    } else {
      hide Comes, StartResult, Resolve, StartCancelled;
    }
  }

  /** The rest of the registry: the next token, the flag and the page. */
  lemma RestAfter(sys: System, step: Step)
    requires Enabled(sys, step) && sys.h.starting <= sys.h.requests.Keys
    ensures var s, s' := sys.reg, Apply(sys, step).reg;
            && s'.page == s.page + (if step == NewPage then 1 else 0)
            && s'.quitting == (s.quitting || step == QuitFlag)
            && s'.nextToken == s.nextToken +
                               (if step.AskStart? && Admits(s, step.page, step.project, step.root) then 1 else 0)
  {
    FlagStep(sys, step);
    if step.AskStart? {
      AnswerIff(sys.reg, step.page, step.project, step.root);
      hide Refusal, Admits;
    } else {
      NextTokenStep(sys, step);
      hide *;
    }
  }

  /** Held exits: one is added for a session that is not live, and clears the others if 64 are held; one goes with its own start. */
  lemma HeldAfter(sys: System, step: Step, id: SessionId)
    requires Enabled(sys, step) && sys.h.starting <= sys.h.requests.Keys
    ensures var s, s' := sys.reg, Apply(sys, step).reg;
            id in s'.earlyExits <==>
              if step.ShellExits? && step.id !in s.live then id == step.id || (id in s.earlyExits && |s.earlyExits| < 64)
              else id in s.earlyExits && !(step.StartReturns? && step.id == id && step.spawned)
  {
    if !step.ShellExits? && !step.StartReturns? {
      OtherReports(sys, step);
      hide Apply;
    } else {
      hide StartCancelled, LiveOf, PendingOf, Refusal;
    }
  }
}
