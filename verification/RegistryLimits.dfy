/**
  A run of the registry that shows what clearing the held exit reports can cost: a
  session that stays live although its shell has reported its exit.
 */
module RegistryLimits {
  import opened Registry
  import opened RegistryRuns
  import opened RegistryLaws

  const PROJECT: Name := "project"
  const ROOT: Name := "root"

  function FirstIds(n: nat): (ids: set<nat>)
    ensures |ids| == n && forall i: nat :: i in ids <==> i < n
  {
    if n == 0 then {} else FirstIds(n - 1) + {n - 1}
  }

  /**
    Only the first `asked` starts were asked for and only the first `drawn` ids drawn,
    each for the start of its number; `torn` is the one session being torn down, if any.
   */
  ghost predicate Shape(sys: System, asked: nat, drawn: nat, live: set<nat>, starting: set<nat>, torn: set<nat>, held: set<nat>)
  {
    && sys.reg == State(sys.reg.live, sys.reg.pending, asked, |torn|, false, held, 0)
    && sys.reg.live.Keys == live && (forall id | id in sys.reg.live :: sys.reg.live[id] == Live(PROJECT, ROOT))
    && sys.reg.pending.Keys == starting && (forall t | t in sys.reg.pending :: sys.reg.pending[t] == Pending(PROJECT, ROOT, false))
    && sys.h.starting == starting <= FirstIds(asked)
    && sys.h.requests.Keys == FirstIds(asked) && (forall t | t in sys.h.requests :: sys.h.requests[t] == Request(0, PROJECT, ROOT))
    && sys.h.drawn.Keys == FirstIds(drawn) && (forall id | id in sys.h.drawn :: sys.h.drawn[id] == id)
    && sys.h.begun == sys.h.finished + multiset(torn)
  }

  lemma Empty()
    ensures Shape(INITIAL, 0, 0, {}, {}, {}, {})
  {
  }

  lemma Admitted(sys: System, n: nat, held: set<nat>)
    requires Shape(sys, n, n, {}, {}, {}, held)
    ensures Refusal(sys.reg, 0, PROJECT, ROOT) == Reserved(n)
    ensures sys.reg.live == map[] && sys.reg.pending == map[]
  {
    assert sys.reg.live == map[] && sys.reg.pending == map[];
    assert LiveOf(sys.reg.live, PROJECT) == {} && PendingOf(sys.reg.pending, PROJECT) == {};
  }

  lemma Ask(sys: System, n: nat, held: set<nat>)
    requires Shape(sys, n, n, {}, {}, {}, held)
    ensures Shape(Apply(sys, AskStart(0, PROJECT, ROOT)), n + 1, n, {}, {n}, {}, held)
  {
    hide Apply, Refusal, FirstIds;
    Admitted(sys, n, held);
    AdmitResult(sys, 0, PROJECT, ROOT);
    var sys' := Apply(sys, AskStart(0, PROJECT, ROOT));
    assert sys'.h.begun == sys.h.begun && sys'.h.finished == sys.h.finished && sys'.h.drawn == sys.h.drawn;
    assert sys'.h.requests == sys.h.requests[n := Request(0, PROJECT, ROOT)];
    assert sys'.reg.pending == map[n := Pending(PROJECT, ROOT, false)];
    assert sys'.h.starting == {n};
    FirstIdsGrow(n);
    assert sys'.h.requests.Keys == FirstIds(n + 1);
  }

  lemma FirstIdsGrow(n: nat)
    ensures FirstIds(n + 1) == FirstIds(n) + {n}
  {
  }

  lemma Draw(sys: System, n: nat, held: set<nat>)
    requires Shape(sys, n + 1, n, {}, {n}, {}, held)
    ensures Enabled(sys, DrawId(n, n))
    ensures Shape(Apply(sys, DrawId(n, n)), n + 1, n + 1, {}, {n}, {}, held)
  {
    assert FirstIds(n + 1) == FirstIds(n) + {n};
  }

  lemma Start(sys: System, n: nat, held: set<nat>)
    requires Shape(sys, n + 1, n + 1, {}, {n}, {}, held) && n !in held
    ensures Enabled(sys, StartReturns(n, n, true))
    ensures Shape(Apply(sys, StartReturns(n, n, true)), n + 1, n + 1, {n}, {}, {}, held)
  {
  }

  lemma End(sys: System, n: nat, held: set<nat>)
    requires Shape(sys, n + 1, n + 1, {n}, {}, {}, held)
    ensures Shape(Apply(sys, EndOne(PROJECT, n)), n + 1, n + 1, {}, {}, {n}, held)
  {
  }

  lemma Finish(sys: System, n: nat, held: set<nat>)
    requires Shape(sys, n + 1, n + 1, {}, {}, {n}, held)
    ensures Enabled(sys, TeardownReturns(n))
    ensures Shape(Apply(sys, TeardownReturns(n)), n + 1, n + 1, {}, {}, {}, held)
  {
  }

  /** A watcher that saw its shell exit just before the session was ended reports it all the same. */
  lemma Report(sys: System, asked: nat, drawn: nat, starting: set<nat>, held: set<nat>, id: nat)
    requires Shape(sys, asked, drawn, {}, starting, {}, held) && id < drawn
    ensures Enabled(sys, ShellExits(id))
    ensures Shape(Apply(sys, ShellExits(id)), asked, drawn, {}, starting, {},
                  if |held| >= EARLY_EXIT_LIMIT then {id} else held + {id})
    ensures id in Apply(sys, ShellExits(id)).h.reported
    ensures sys.h.reported <= Apply(sys, ShellExits(id)).h.reported
  {
  }

  lemma Extend(states: seq<System>, steps: seq<Step>, step: Step) returns (states': seq<System>, steps': seq<Step>)
    requires Run(states, steps) && Enabled(states[|steps|], step)
    ensures states[|steps|].h.starting <= states[|steps|].h.requests.Keys
    ensures Run(states', steps') && states' == states + [Apply(states[|steps|], step)] && steps' == steps + [step]
    ensures |steps'| == |steps| + 1 && states'[|steps'|] == Apply(states[|steps|], step)
  {
    hide Apply, Inv, Enabled;
    RunIsRun(states, steps);
    Reachable(states, steps, |steps|);
    states', steps' := states + [Apply(states[|steps|], step)], steps + [step];
    assert Next(states[|steps|], step, states'[|steps'|]);
    forall i | 0 <= i < |steps'|
      ensures Next(states'[i], steps'[i], states'[i + 1])
    {
      if i < |steps| {
        assert Next(states[i], steps[i], states[i + 1]);
      }
    }
    hide Next;
  }

  /** One more session is started and ended. */
  lemma EndedSession(states: seq<System>, steps: seq<Step>, n: nat, held: set<nat>)
    returns (states': seq<System>, steps': seq<Step>)
    requires Run(states, steps) && Shape(states[|steps|], n, n, {}, {}, {}, held) && n !in held
    ensures Run(states', steps') && Shape(states'[|steps'|], n + 1, n + 1, {}, {}, {}, held)
  {
    hide Run, Shape, Apply, Enabled;
    RunIsRun(states, steps);
    Ask(states[|steps|], n, held);
    AskIsEnabled(states[|steps|]);
    states', steps' := Extend(states, steps, AskStart(0, PROJECT, ROOT));
    Draw(states'[|steps'|], n, held);
    states', steps' := Extend(states', steps', DrawId(n, n));
    Start(states'[|steps'|], n, held);
    states', steps' := Extend(states', steps', StartReturns(n, n, true));
    End(states'[|steps'|], n, held);
    AskIsEnabled(states'[|steps'|]);
    states', steps' := Extend(states', steps', EndOne(PROJECT, n));
    Finish(states'[|steps'|], n, held);
    states', steps' := Extend(states', steps', TeardownReturns(n));
  }

  lemma RunIsRun(states: seq<System>, steps: seq<Step>)
    requires Run(states, steps)
    ensures |states| == |steps| + 1
  {
  }

  lemma AskIsEnabled(sys: System)
    ensures Enabled(sys, AskStart(0, PROJECT, ROOT)) && forall n :: Enabled(sys, EndOne(PROJECT, n))
  {
  }

  /** After `n` sessions that ended and reported late, `n` reports are held. */
  lemma {:induction false} HeldReports(n: nat) returns (states: seq<System>, steps: seq<Step>)
    requires n <= EARLY_EXIT_LIMIT
    ensures Run(states, steps) && Shape(states[|steps|], n, n, {}, {}, {}, FirstIds(n))
  {
    hide Run, Shape, Apply, Enabled;
    if n == 0 {
      Empty();
      states, steps := [INITIAL], [];
      EmptyRun();
    } else {
      states, steps := HeldReports(n - 1);
      states, steps := EndedSession(states, steps, n - 1, FirstIds(n - 1));
      RunIsRun(states, steps);
      Report(states[|steps|], n, n, {}, FirstIds(n - 1), n - 1);
      assert FirstIds(n) == FirstIds(n - 1) + {n - 1};
      states, steps := Extend(states, steps, ShellExits(n - 1));
    }
  }

  lemma EmptyRun()
    ensures Run([INITIAL], [])
  {
  }

  /**
    A run at whose end a session is live although its exit was reported: 63 reports of
    ended sessions are held when its own comes, before its start returns; one more
    report clears them all.
   */
  lemma DeadSessionCanStayLive() returns (states: seq<System>, steps: seq<Step>, id: SessionId)
    ensures Run(states, steps)
    ensures id in states[|steps|].h.reported && id in states[|steps|].reg.live
  {
    hide Run, Shape, Apply, Enabled;
    var last := EARLY_EXIT_LIMIT - 1;
    states, steps := HeldReports(last);
    states, steps := EndedSession(states, steps, last, FirstIds(last));
    id := EARLY_EXIT_LIMIT;
    RunIsRun(states, steps);
    Ask(states[|steps|], id, FirstIds(last));
    AskIsEnabled(states[|steps|]);
    states, steps := Extend(states, steps, AskStart(0, PROJECT, ROOT));
    Draw(states[|steps|], id, FirstIds(last));
    states, steps := Extend(states, steps, DrawId(id, id));
    Report(states[|steps|], id + 1, id + 1, {id}, FirstIds(last), id);
    states, steps := Extend(states, steps, ShellExits(id));
    Report(states[|steps|], id + 1, id + 1, {id}, FirstIds(last) + {id}, last);
    states, steps := Extend(states, steps, ShellExits(last));
    Start(states[|steps|], id, {last});
    ghost var before := states[|steps|];
    states, steps := Extend(states, steps, StartReturns(id, id, true));
    StartedIsLive(before, states[|steps|], id);
  }

  lemma StartedIsLive(sys: System, sys': System, n: nat)
    requires Shape(sys, n + 1, n + 1, {}, {n}, {}, {EARLY_EXIT_LIMIT - 1}) && Enabled(sys, StartReturns(n, n, true))
    requires sys.h.starting <= sys.h.requests.Keys && sys' == Apply(sys, StartReturns(n, n, true))
    requires Shape(sys', n + 1, n + 1, {n}, {}, {}, {EARLY_EXIT_LIMIT - 1})
    ensures n in sys'.reg.live && sys'.h.reported == sys.h.reported
  {
    hide Refusal, SelfExit, EndProject, TakeAll, Take, LiveOf, FirstIds;
  }
}
