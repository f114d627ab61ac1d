/**
  The terminal session registry, one function for each section of
  src-tauri/src/terminal_session_manager.rs that holds the lock, and the class
  whose methods are those sections. Spawning and tearing down a session happen
  between sections; RegistryRuns.dfy lets them interleave in every way.
 */
module Registry {

  type SessionId = nat
  type Name = string

  const MAX_SESSIONS_PER_PROJECT: nat := 8
  const MAX_SESSIONS_TOTAL: nat := 24
  const EARLY_EXIT_LIMIT: nat := 64

  datatype Live = Live(project: Name, root: Name)

  datatype Pending = Pending(project: Name, root: Name, cancelled: bool)

  datatype State = State(
    live: map<SessionId, Live>,
    pending: map<nat, Pending>,
    nextToken: nat,
    ending: nat,
    quitting: bool,
    earlyExits: set<SessionId>,
    page: nat)

  const EMPTY: State := State(map[], map[], 0, 0, false, {}, 0)

  // ------------------------------------------------------------ what reserve checks

  function LiveOf(live: map<SessionId, Live>, project: Name): set<SessionId>
  {
    set id | id in live && live[id].project == project
  }

  function PendingOf(pending: map<nat, Pending>, project: Name): set<nat>
  {
    set t | t in pending && pending[t].project == project
  }

  /** A live session or a wanted start of the project runs in another folder. */
  predicate RunsElsewhere(live: map<SessionId, Live>, pending: map<nat, Pending>, project: Name, root: Name)
  {
    || (exists id | id in live :: live[id].project == project && live[id].root != root)
    || (exists t | t in pending ::
          pending[t].project == project && !pending[t].cancelled && pending[t].root != root)
  }

  /** One project, one folder: no live session and no wanted start has another of its project elsewhere. */
  predicate OneRoot(live: map<SessionId, Live>, pending: map<nat, Pending>)
  {
    && (forall id | id in live :: !RunsElsewhere(live, pending, live[id].project, live[id].root))
    && (forall t | t in pending && !pending[t].cancelled ::
          !RunsElsewhere(live, pending, pending[t].project, pending[t].root))
  }

  /** One entry stands for all of its project's. */
  lemma LiveEntryDecides(live: map<SessionId, Live>, pending: map<nat, Pending>, id: SessionId, root: Name)
    requires OneRoot(live, pending) && id in live
    ensures RunsElsewhere(live, pending, live[id].project, root) <==> live[id].root != root
  {
  }

  lemma StartEntryDecides(live: map<SessionId, Live>, pending: map<nat, Pending>, t: nat, root: Name)
    requires OneRoot(live, pending) && t in pending && !pending[t].cancelled
    ensures RunsElsewhere(live, pending, pending[t].project, root) <==> pending[t].root != root
  {
  }

  lemma NothingElsewhere(live: map<SessionId, Live>, pending: map<nat, Pending>, project: Name, root: Name)
    requires forall id | id in live :: live[id].project != project
    requires forall t | t in pending :: pending[t].project != project || pending[t].cancelled
    ensures !RunsElsewhere(live, pending, project, root)
  {
  }

  // --------------------------------------------------------------- locked sections

  datatype Reservation =
    | Reserved(token: nat)
    | ShuttingDown
    | PageReloaded
    | RootMismatch
    | ProjectLimit
    | TotalLimit

  /** Why a start is refused, in the order of the checks; None if it is admitted. */
  function Refusal(s: State, page: nat, project: Name, root: Name): Reservation
  {
    if s.quitting then ShuttingDown
    else if s.page != page then PageReloaded
    else if RunsElsewhere(s.live, s.pending, project, root) then RootMismatch
    else if |LiveOf(s.live, project)| + |PendingOf(s.pending, project)| >= MAX_SESSIONS_PER_PROJECT then ProjectLimit
    else if |s.live| + |s.pending| + s.ending >= MAX_SESSIONS_TOTAL then TotalLimit
    else Reserved(s.nextToken)
  }

  function Reserve(s: State, page: nat, project: Name, root: Name): State
  {
    if Refusal(s, page, project, root).Reserved? then
      s.(pending := s.pending[s.nextToken := Pending(project, root, false)], nextToken := s.nextToken + 1)
    else s
  }

  datatype StartOutcome = Started | Cancelled | ExitedEarly | SpawnFailed

  /** A start whose project closed, whose page reloaded, or that quit overtook. */
  predicate StartCancelled(s: State, token: nat, page: nat)
  {
    s.quitting || s.page != page || token !in s.pending || s.pending[token].cancelled
  }

  function StartResult(s: State, token: nat, id: SessionId, page: nat, spawned: bool): StartOutcome
  {
    if !spawned then SpawnFailed
    else if StartCancelled(s, token, page) then Cancelled
    else if id in s.earlyExits then ExitedEarly
    else Started
  }

  function Resolve(s: State, token: nat, id: SessionId, page: nat, project: Name, root: Name, spawned: bool): State
  {
    var released := s.(pending := s.pending - {token});
    match StartResult(s, token, id, page, spawned)
    case SpawnFailed => released
    case Started => released.(live := s.live[id := Live(project, root)])
    case _ => released.(earlyExits := s.earlyExits - {id}, ending := s.ending + 1)
  }

  function Release(s: State, token: nat): State
  {
    s.(pending := s.pending - {token})
  }

  /** Moves sessions from live to ending. */
  function Take(s: State, taken: set<SessionId>): State
  {
    s.(live := s.live - taken, ending := s.ending + |taken|)
  }

  function Cancel(s: State, tokens: set<nat>): State
  {
    s.(pending := map t | t in s.pending :: if t in tokens then s.pending[t].(cancelled := true) else s.pending[t])
  }

  function TakenByEnd(s: State, project: Name, id: SessionId): set<SessionId>
  {
    if id in s.live && s.live[id].project == project then {id} else {}
  }

  function EndProject(s: State, project: Name): State
  {
    Take(Cancel(s, PendingOf(s.pending, project)), LiveOf(s.live, project))
  }

  function TakeAll(s: State): State
  {
    Take(Cancel(s, s.pending.Keys), s.live.Keys)
  }

  function SelfExit(s: State, id: SessionId): State
  {
    if id in s.live then Take(s, {id})
    else s.(earlyExits := (if |s.earlyExits| >= EARLY_EXIT_LIMIT then {} else s.earlyExits) + {id})
  }

  function EndingFinished(s: State): State
  {
    s.(ending := if s.ending == 0 then 0 else s.ending - 1)
  }

  // ------------------------------------------------------------------------ the code

  class SessionRegistry {
    var live: map<SessionId, Live>
    var pending: map<nat, Pending>
    var nextToken: nat
    var ending: nat
    var quitting: bool
    var earlyExits: set<SessionId>
    var page: nat

    function Locked(): State
      reads this
    {
      State(live, pending, nextToken, ending, quitting, earlyExits, page)
    }

    constructor ()
      ensures Locked() == EMPTY
    {
      live, pending, nextToken, ending, quitting, earlyExits, page := map[], map[], 0, 0, false, {}, 0;
    }

    /** The code compares the folder with one entry only, whichever the maps list first. */
    method BoundElsewhere(project: Name, root: Name) returns (elsewhere: bool)
      requires OneRoot(live, pending)
      ensures elsewhere == RunsElsewhere(live, pending, project, root)
    {
      hide RunsElsewhere, OneRoot;
      var liveHere := set id | id in live && live[id].project == project;
      var wantedHere := set t | t in pending && pending[t].project == project && !pending[t].cancelled;
      if liveHere != {} {
        var id :| id in liveHere;
        LiveEntryDecides(live, pending, id, root);
        return live[id].root != root;
      }
      if wantedHere != {} {
        var t :| t in wantedHere;
        StartEntryDecides(live, pending, t, root);
        return pending[t].root != root;
      }
      assert forall id | id in live && live[id].project == project :: id in liveHere;
      assert forall t | t in pending && pending[t].project == project && !pending[t].cancelled :: t in wantedHere;
      NothingElsewhere(live, pending, project, root);
      return false;
    }

    method ReserveSlot(askedOn: nat, project: Name, root: Name) returns (answer: Reservation)
      requires OneRoot(live, pending)
      modifies this
      ensures answer == Refusal(old(Locked()), askedOn, project, root)
      ensures Locked() == Reserve(old(Locked()), askedOn, project, root)
    {
      hide RunsElsewhere, OneRoot;
      if quitting {
        return ShuttingDown;
      }
      if page != askedOn {
        return PageReloaded;
      }
      var elsewhere := BoundElsewhere(project, root);
      if elsewhere {
        return RootMismatch;
      }
      var liveHere := LiveOf(live, project);
      var startingHere := PendingOf(pending, project);
      hide LiveOf, PendingOf;
      if |liveHere| + |startingHere| >= MAX_SESSIONS_PER_PROJECT {
        return ProjectLimit;
      }
      if |live| + |pending| + ending >= MAX_SESSIONS_TOTAL {
        return TotalLimit;
      }
      var token := nextToken;
      nextToken := nextToken + 1;
      pending := pending[token := Pending(project, root, false)];
      return Reserved(token);
    }

    method ResolveStart(token: nat, id: SessionId, askedOn: nat, project: Name, root: Name, spawned: bool)
      returns (outcome: StartOutcome)
      modifies this
      ensures outcome == StartResult(old(Locked()), token, id, askedOn, spawned)
      ensures Locked() == Resolve(old(Locked()), token, id, askedOn, project, root, spawned)
    {
      var mine := if token in pending then [pending[token]] else [];
      pending := pending - {token};
      if !spawned {
        return SpawnFailed;
      }
      var cancelled := quitting || page != askedOn || mine == [] || mine[0].cancelled;
      var exited := id in earlyExits;
      earlyExits := earlyExits - {id};
      if cancelled || exited {
        ending := ending + 1;
        return if cancelled then Cancelled else ExitedEarly;
      }
      assert earlyExits == old(earlyExits);
      live := live[id := Live(project, root)];
      return Started;
    }

    /** A spawn that panics releases its reservation. */
    method ReleaseReservation(token: nat)
      modifies this
      ensures Locked() == Release(old(Locked()), token)
    {
      pending := pending - {token};
    }

    method End(project: Name, id: SessionId) returns (mismatch: bool, taken: set<SessionId>)
      modifies this
      ensures mismatch == (id in old(live) && old(live)[id].project != project)
      ensures taken == TakenByEnd(old(Locked()), project, id)
      ensures Locked() == Take(old(Locked()), taken)
    {
      mismatch, taken := false, {};
      if id in live {
        if live[id].project != project {
          assert live - {} == live;
          return true, {};
        }
        live := live - {id};
        ending := ending + 1;
        taken := {id};
      } else {
        assert live - {} == live;
      }
    }

    method CancelStarts(tokens: set<nat>)
      requires tokens <= pending.Keys
      modifies this`pending
      ensures Locked() == Cancel(old(Locked()), tokens)
    {
      var todo := tokens;
      while todo != {}
        invariant todo <= tokens
        invariant Locked() == Cancel(old(Locked()), tokens - todo)
        decreases |todo|
      {
        var t :| t in todo;
        pending := pending[t := pending[t].(cancelled := true)];
        todo := todo - {t};
      }
    }

    method TakeSessions(ids: set<SessionId>) returns (taken: set<SessionId>)
      requires ids <= live.Keys
      modifies this`live, this`ending
      ensures taken == ids
      ensures Locked() == Take(old(Locked()), ids)
    {
      var todo := ids;
      taken := {};
      while todo != {}
        invariant todo <= ids && taken == ids - todo
        invariant live == old(live) - taken && ending == old(ending)
        decreases |todo|
      {
        var id :| id in todo;
        live := live - {id};
        taken := taken + {id};
        todo := todo - {id};
      }
      ending := ending + |taken|;
    }

    method EndProjectSection(project: Name) returns (taken: set<SessionId>)
      modifies this
      ensures taken == LiveOf(old(live), project)
      ensures Locked() == EndProject(old(Locked()), project)
    {
      CancelStarts(set t | t in pending && pending[t].project == project);
      taken := TakeSessions(set id | id in live && live[id].project == project);
    }

    method TakeAllSection() returns (taken: set<SessionId>)
      modifies this
      ensures taken == old(live).Keys
      ensures Locked() == TakeAll(old(Locked()))
    {
      CancelStarts(pending.Keys);
      taken := TakeSessions(live.Keys);
    }

    method BumpPage()
      modifies this`page
      ensures Locked() == old(Locked()).(page := old(page) + 1)
    {
      page := page + 1;
    }

    /** Only the first quit goes on. */
    method SetQuitting() returns (first: bool)
      modifies this`quitting
      ensures first == !old(quitting)
      ensures Locked() == old(Locked()).(quitting := true)
    {
      if quitting {
        return false;
      }
      quitting := true;
      return true;
    }

    method OnSelfExit(id: SessionId) returns (taken: set<SessionId>)
      modifies this
      ensures taken == if id in old(live) then {id} else {}
      ensures Locked() == SelfExit(old(Locked()), id)
    {
      if id in live {
        live := live - {id};
        ending := ending + 1;
        return {id};
      }
      if |earlyExits| >= EARLY_EXIT_LIMIT {
        earlyExits := {};
      }
      earlyExits := earlyExits + {id};
      return {};
    }

    method FinishEnding()
      modifies this`ending
      ensures Locked() == EndingFinished(old(Locked()))
    {
      ending := if ending == 0 then 0 else ending - 1;
    }
  }
}
