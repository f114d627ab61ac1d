/** The one-update filesystem sync of the groups (src/app/groupDomain.js, `applyFsSyncPlan`). */
module GroupSync {
  import opened Wrappers

  type Id = string
  type Piece = int

  /** "" stands for no folder, no parent. */
  datatype Group = Group(id: Id, name: string, folderPath: string, pieceIds: seq<Piece>, parentId: Id, look: Look)

  /** What no sync changes. */
  datatype Look = Look(isCollapsed: bool, themeId: string, color: string, seedBounds: Option<(int, int, int, int)>, gridTier: int)

  datatype PathUpdate = PathUpdate(groupId: Id, folderPath: string)
  datatype ParentUpdate = ParentUpdate(groupId: Id, parentId: Id)
  datatype Member = Member(groupId: Id, pieceId: Piece)

  /** `pieceIds` is `None` when it is not an array. */
  datatype Upsert = Upsert(groupId: Id, name: string, folderPath: string, pieceIds: Option<seq<Piece>>, parentId: Id,
                           seedBounds: Option<(int, int, int, int)>)

  datatype Plan = Plan(folderPathUpdates: seq<PathUpdate>, parentUpdates: seq<ParentUpdate>, removals: seq<Member>,
                       additions: seq<Member>, upserts: seq<Upsert>, groupDeletes: seq<Id>)

  // ---------------------------------------------------------------- one group

  /** The last update of each group counts. */
  function PathsByGroup(updates: seq<PathUpdate>): map<Id, string>
  {
    if updates == [] then map[]
    else
      var last := updates[|updates| - 1];
      PathsByGroup(updates[..|updates| - 1])[last.groupId := last.folderPath]
  }

  function ParentsByGroup(updates: seq<ParentUpdate>): map<Id, Id>
  {
    if updates == [] then map[]
    else
      var last := updates[|updates| - 1];
      ParentsByGroup(updates[..|updates| - 1])[last.groupId := last.parentId]
  }

  function PiecesOf(members: seq<Member>, id: Id): (ps: seq<Piece>)
    ensures forall p :: p in ps <==> Member(id, p) in members
  {
    if members == [] then []
    else
      var last := members[|members| - 1];
      PiecesOf(members[..|members| - 1], id) + if last.groupId == id then [last.pieceId] else []
  }

  function Repathed(g: Group, paths: map<Id, string>): Group
  {
    if g.id in paths && paths[g.id] != "" then g.(folderPath := paths[g.id]) else g
  }

  function Reparented(g: Group, parents: map<Id, Id>): Group
  {
    if g.id in parents then g.(parentId := parents[g.id]) else g
  }

  function Without(ps: seq<Piece>, drop: seq<Piece>): (rest: seq<Piece>)
    ensures forall p :: p in rest <==> p in ps && p !in drop
    ensures NoRepeats(ps) ==> NoRepeats(rest)
  {
    if ps == [] then []
    else
      var last := ps[|ps| - 1];
      var front := Without(ps[..|ps| - 1], drop);
      if last in drop then front else front + [last]
  }

  predicate NoRepeats(ps: seq<Piece>)
  {
    forall i, j | 0 <= i < j < |ps| :: ps[i] != ps[j]
  }

  /** `[...new Set(ps)]`: the first of each. */
  function Distinct(ps: seq<Piece>): (ds: seq<Piece>)
    ensures NoRepeats(ds) && forall p :: p in ds <==> p in ps
  {
    if ps == [] then []
    else
      var last := ps[|ps| - 1];
      var front := Distinct(ps[..|ps| - 1]);
      if last in front then front else front + [last]
  }

  function Dropped(g: Group, drop: seq<Piece>): Group
  {
    g.(pieceIds := Without(g.pieceIds, drop))
  }

  /** A union that is no longer than the group leaves the group as it is. */
  function Added(g: Group, add: seq<Piece>): Group
  {
    var merged := Distinct(g.pieceIds + add);
    if |merged| == |g.pieceIds| then g else g.(pieceIds := merged)
  }

  function Joined(g: Group, ps: seq<Piece>): Group
  {
    g.(pieceIds := Distinct(g.pieceIds + ps))
  }

  function DroppedBy(g: Group, removals: seq<Member>): Group
  {
    if PiecesOf(removals, g.id) == [] then g else Dropped(g, PiecesOf(removals, g.id))
  }

  function AddedBy(g: Group, additions: seq<Member>): Group
  {
    if PiecesOf(additions, g.id) == [] then g else Added(g, PiecesOf(additions, g.id))
  }

  function Edited(g: Group, plan: Plan): Group
  {
    var placed := Reparented(Repathed(g, PathsByGroup(plan.folderPathUpdates)), ParentsByGroup(plan.parentUpdates));
    AddedBy(DroppedBy(placed, plan.removals), plan.additions)
  }

  // ---------------------------------------------------------------- every group

  predicate Usable(u: Upsert)
  {
    u.groupId != "" && u.folderPath != "" && u.pieceIds.Some?
  }

  predicate HasId(groups: seq<Group>, id: Id)
  {
    exists i | 0 <= i < |groups| :: groups[i].id == id
  }

  function Fresh(u: Upsert): Group
    requires Usable(u)
  {
    Group(u.groupId, u.name, u.folderPath, u.pieceIds.value, u.parentId, Look(false, "", "", u.seedBounds, 0))
  }

  function UpsertOne(groups: seq<Group>, u: Upsert): seq<Group>
  {
    if !Usable(u) then groups
    else if HasId(groups, u.groupId) then
      seq(|groups|, i requires 0 <= i < |groups| => if groups[i].id == u.groupId then Joined(groups[i], u.pieceIds.value) else groups[i])
    else groups + [Fresh(u)]
  }

  function UpsertAll(groups: seq<Group>, upserts: seq<Upsert>): seq<Group>
  {
    if upserts == [] then groups
    else UpsertOne(UpsertAll(groups, upserts[..|upserts| - 1]), upserts[|upserts| - 1])
  }

  function Orphaned(g: Group, doomed: seq<Id>): Group
  {
    if g.parentId != "" && g.parentId in doomed then g.(parentId := "") else g
  }

  function Deleted(groups: seq<Group>, doomed: seq<Id>): seq<Group>
  {
    if groups == [] then []
    else
      var last := groups[|groups| - 1];
      Deleted(groups[..|groups| - 1], doomed) + if last.id in doomed then [] else [Orphaned(last, doomed)]
  }

  function EditedAll(groups: seq<Group>, plan: Plan): (edited: seq<Group>)
    ensures |edited| == |groups|
  {
    seq(|groups|, i requires 0 <= i < |groups| => Edited(groups[i], plan))
  }

  /** The groups after a plan. */
  function Synced(groups: seq<Group>, plan: Plan): seq<Group>
  {
    Deleted(UpsertAll(EditedAll(groups, plan), plan.upserts), plan.groupDeletes)
  }

  // -------------------------------------------------------------------- the code

  method GroupPaths(updates: seq<PathUpdate>) returns (paths: map<Id, string>)
    ensures paths == PathsByGroup(updates)
  {
    paths := map[];
    for i := 0 to |updates|
      invariant paths == PathsByGroup(updates[..i])
    {
      assert updates[..i + 1][..i] == updates[..i];
      paths := paths[updates[i].groupId := updates[i].folderPath];
    }
    assert updates[..|updates|] == updates;
  }

  method GroupParents(updates: seq<ParentUpdate>) returns (parents: map<Id, Id>)
    ensures parents == ParentsByGroup(updates)
  {
    parents := map[];
    for i := 0 to |updates|
      invariant parents == ParentsByGroup(updates[..i])
    {
      assert updates[..i + 1][..i] == updates[..i];
      parents := parents[updates[i].groupId := updates[i].parentId];
    }
    assert updates[..|updates|] == updates;
  }

  lemma PiecesOfOneMore(members: seq<Member>, i: nat, id: Id)
    requires i < |members|
    ensures PiecesOf(members[..i + 1], id) == PiecesOf(members[..i], id) + if members[i].groupId == id then [members[i].pieceId] else []
  {
    assert members[..i + 1][..i] == members[..i];
  }

  function PiecesIn(pieces: map<Id, seq<Piece>>, id: Id): seq<Piece>
  {
    if id in pieces then pieces[id] else []
  }

  /** The pieces named for each group, in order. */
  method GroupMembers(members: seq<Member>) returns (pieces: map<Id, seq<Piece>>)
    ensures forall id :: PiecesIn(pieces, id) == PiecesOf(members, id)
    ensures forall id | id in pieces :: pieces[id] != []
  {
    pieces := map[];
    for i := 0 to |members|
      invariant forall id :: PiecesIn(pieces, id) == PiecesOf(members[..i], id)
      invariant forall id | id in pieces :: pieces[id] != []
    {
      var m := members[i];
      ghost var previous := pieces;
      pieces := pieces[m.groupId := PiecesIn(pieces, m.groupId) + [m.pieceId]];
      forall id
        ensures PiecesIn(pieces, id) == PiecesOf(members[..i + 1], id)
      {
        assert PiecesIn(previous, id) == PiecesOf(members[..i], id);
        PiecesOfOneMore(members, i, id);
        assert PiecesIn(previous, id) + [] == PiecesIn(previous, id);
        hide PiecesOf;
      }
      hide PiecesOf;
    }
    assert members[..|members|] == members;
  }

  // The stages that change one group at a time; a stage with nothing to do is passed over.

  method RepathGroups(groups: seq<Group>, updates: seq<PathUpdate>) returns (next: seq<Group>)
    ensures |next| == |groups| && forall i | 0 <= i < |groups| :: next[i] == Repathed(groups[i], PathsByGroup(updates))
  {
    next := groups;
    if |updates| > 0 {
      var paths := GroupPaths(updates);
      next := seq(|groups|, i requires 0 <= i < |groups| => Repathed(groups[i], paths));
    }
  }

  method ReparentGroups(groups: seq<Group>, updates: seq<ParentUpdate>) returns (next: seq<Group>)
    ensures |next| == |groups| && forall i | 0 <= i < |groups| :: next[i] == Reparented(groups[i], ParentsByGroup(updates))
  {
    next := groups;
    if |updates| > 0 {
      var parents := GroupParents(updates);
      next := seq(|groups|, i requires 0 <= i < |groups| => Reparented(groups[i], parents));
    }
  }

  method DropPieces(groups: seq<Group>, removals: seq<Member>) returns (next: seq<Group>)
    ensures |next| == |groups| && forall i | 0 <= i < |groups| :: next[i] == DroppedBy(groups[i], removals)
  {
    next := groups;
    if |removals| > 0 {
      var drops := GroupMembers(removals);
      next := seq(|groups|, i requires 0 <= i < |groups| =>
        if groups[i].id in drops then Dropped(groups[i], drops[groups[i].id]) else groups[i]);
      assert forall i | 0 <= i < |groups| :: PiecesIn(drops, groups[i].id) == PiecesOf(removals, groups[i].id);
    } else {
      NoMembers(removals);
    }
    hide PiecesOf, Dropped;
  }

  method AddPieces(groups: seq<Group>, additions: seq<Member>) returns (next: seq<Group>)
    ensures |next| == |groups| && forall i | 0 <= i < |groups| :: next[i] == AddedBy(groups[i], additions)
  {
    next := groups;
    if |additions| > 0 {
      var adds := GroupMembers(additions);
      next := seq(|groups|, i requires 0 <= i < |groups| =>
        if groups[i].id in adds then Added(groups[i], adds[groups[i].id]) else groups[i]);
      assert forall i | 0 <= i < |groups| :: PiecesIn(adds, groups[i].id) == PiecesOf(additions, groups[i].id);
    } else {
      NoMembers(additions);
    }
    hide PiecesOf, Added;
  }

  method EditGroups(prev: seq<Group>, plan: Plan) returns (next: seq<Group>)
    ensures next == EditedAll(prev, plan)
  {
    hide Repathed, Reparented, DroppedBy, AddedBy;
    next := RepathGroups(prev, plan.folderPathUpdates);
    next := ReparentGroups(next, plan.parentUpdates);
    next := DropPieces(next, plan.removals);
    next := AddPieces(next, plan.additions);
  }

  lemma NoMembers(members: seq<Member>)
    requires members == []
    ensures forall id :: PiecesOf(members, id) == []
  {
  }

  method UpsertGroups(edited: seq<Group>, upserts: seq<Upsert>) returns (next: seq<Group>)
    ensures next == UpsertAll(edited, upserts)
  {
    hide UpsertOne;
    next := edited;
    for i := 0 to |upserts|
      invariant next == UpsertAll(edited, upserts[..i])
    {
      assert upserts[..i + 1][..i] == upserts[..i];
      next := UpsertGroup(next, upserts[i]);
    }
    assert upserts[..|upserts|] == upserts;
  }

  /** Creates a group when the id is absent, unites the pieces when it is present. */
  method UpsertGroup(groups: seq<Group>, u: Upsert) returns (next: seq<Group>)
    ensures next == UpsertOne(groups, u)
  {
    if !Usable(u) {
      return groups;
    }
    if HasId(groups, u.groupId) {
      next := seq(|groups|, i requires 0 <= i < |groups| =>
        if groups[i].id == u.groupId then Joined(groups[i], u.pieceIds.value) else groups[i]);
    } else {
      next := groups + [Fresh(u)];
    }
  }

  method DeleteGroups(groups: seq<Group>, doomed: seq<Id>) returns (left: seq<Group>)
    ensures left == Deleted(groups, doomed)
  {
    left := [];
    for i := 0 to |groups|
      invariant left == Deleted(groups[..i], doomed)
    {
      assert groups[..i + 1][..i] == groups[..i];
      if groups[i].id !in doomed {
        left := left + [Orphaned(groups[i], doomed)];
      }
    }
    assert groups[..|groups|] == groups;
  }

  method ApplyFsSyncPlan(prev: seq<Group>, plan: Plan) returns (next: seq<Group>)
    ensures next == Synced(prev, plan)
  {
    next := EditGroups(prev, plan);
    next := UpsertGroups(next, plan.upserts);
    next := DeleteGroups(next, plan.groupDeletes);
  }
}
