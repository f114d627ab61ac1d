/** What a sync plan does to the groups, once and twice. */
module GroupSyncLaws {
  import opened Wrappers
  import opened GroupSync

  // ----------------------------------------------------------------- one group's pieces

  lemma {:induction false} DistinctSame(ps: seq<Piece>)
    requires NoRepeats(ps)
    ensures Distinct(ps) == ps
  {
    if ps != [] {
      var front := ps[..|ps| - 1];
      DistinctSame(front);
      assert ps == front + [ps[|ps| - 1]];
      assert forall i | 0 <= i < |front| :: front[i] != ps[|ps| - 1];
    }
  }

  lemma {:induction false} DistinctExtends(ps: seq<Piece>, add: seq<Piece>)
    requires NoRepeats(ps)
    ensures ps <= Distinct(ps + add)
  {
    if add == [] {
      assert ps + add == ps;
      DistinctSame(ps);
    } else {
      DistinctExtends(ps, add[..|add| - 1]);
      assert (ps + add)[..|ps + add| - 1] == ps + add[..|add| - 1];
    }
  }

  lemma UnionMeans(ps: seq<Piece>, add: seq<Piece>)
    requires NoRepeats(ps) && |Distinct(ps + add)| == |ps|
    ensures forall p | p in add :: p in ps
  {
    DistinctExtends(ps, add);
    assert Distinct(ps + add) == ps;
    assert forall p | p in add :: p in Distinct(ps + add);
  }

  /** The pieces of a group that the plan does not remove. */
  function Left(g: Group, plan: Plan): seq<Piece>
  {
    Without(g.pieceIds, PiecesOf(plan.removals, g.id))
  }

  /**
    No addition to this group is taken for one that it already has. The code compares
    lengths only, and a group that has a piece twice can be as long as its union with a
    piece that it lacks.
   */
  predicate Arrives(g: Group, plan: Plan)
  {
    var add := PiecesOf(plan.additions, g.id);
    |Distinct(Left(g, plan) + add)| == |Left(g, plan)| ==> forall p | p in add :: p in Left(g, plan)
  }

  predicate Upserted(upserts: seq<Upsert>, id: Id, p: Piece)
  {
    exists u | u in upserts :: Usable(u) && u.groupId == id && p in u.pieceIds.value
  }

  predicate UpsertNames(upserts: seq<Upsert>, id: Id)
  {
    exists u | u in upserts :: Usable(u) && u.groupId == id
  }

  /** The upserts that name this group, in order. */
  function UpsertsOf(upserts: seq<Upsert>, id: Id): (us: seq<Upsert>)
    ensures forall i | 0 <= i < |us| :: Usable(us[i]) && us[i].groupId == id
  {
    if upserts == [] then []
    else
      var last := upserts[|upserts| - 1];
      UpsertsOf(upserts[..|upserts| - 1], id) + if Usable(last) && last.groupId == id then [last] else []
  }

  lemma {:induction false} NamesIff(upserts: seq<Upsert>, id: Id)
    ensures UpsertNames(upserts, id) <==> UpsertsOf(upserts, id) != []
  {
    if upserts != [] {
      NamesIff(upserts[..|upserts| - 1], id);
      UpsertedStep(upserts, id, 0);
    }
  }

  /** Whether a group has a piece after the plan. */
  predicate HasAfter(g: Group, p: Piece, plan: Plan)
  {
    || (p in g.pieceIds && Member(g.id, p) !in plan.removals)
    || (Member(g.id, p) in plan.additions && Arrives(g, plan))
    || Upserted(plan.upserts, g.id, p)
  }

  function NewPath(g: Group, plan: Plan): string
  {
    var paths := PathsByGroup(plan.folderPathUpdates);
    if g.id in paths && paths[g.id] != "" then paths[g.id] else g.folderPath
  }

  /** A parent that the plan deletes is cleared. */
  function Cleared(parentId: Id, plan: Plan): Id
  {
    if parentId in plan.groupDeletes then "" else parentId
  }

  function NewParent(g: Group, plan: Plan): Id
  {
    var parents := ParentsByGroup(plan.parentUpdates);
    Cleared(if g.id in parents then parents[g.id] else g.parentId, plan)
  }

  /** `h` is what the plan makes of `g`; only an upsert takes out repeats that nothing else does. */
  ghost predicate SyncOf(g: Group, h: Group, plan: Plan)
  {
    && h.id == g.id && h.name == g.name && h.look == g.look
    && h.folderPath == NewPath(g, plan) && h.parentId == NewParent(g, plan)
    && (forall p :: p in h.pieceIds <==> HasAfter(g, p, plan))
    && if UpsertNames(plan.upserts, g.id) then NoRepeats(h.pieceIds) else h.pieceIds == Edited(g, plan).pieceIds
  }

  lemma LeftAfterEdits(g: Group, plan: Plan)
    ensures var e := Edited(g, plan);
            && e.id == g.id && e.name == g.name && e.look == g.look && e.folderPath == NewPath(g, plan)
            && Cleared(e.parentId, plan) == NewParent(g, plan)
            && var left, add := Left(g, plan), PiecesOf(plan.additions, g.id);
               e.pieceIds == if add == [] || |Distinct(left + add)| == |left| then left else Distinct(left + add)
  {
    if PiecesOf(plan.removals, g.id) == [] {
      NothingDropped(g.pieceIds);
    }
    hide Without, Distinct, NoRepeats, PiecesOf;
  }

  lemma {:induction false} NothingDropped(ps: seq<Piece>)
    ensures Without(ps, []) == ps
  {
    hide NoRepeats;
    if ps != [] {
      NothingDropped(ps[..|ps| - 1]);
      assert ps[..|ps| - 1] + [ps[|ps| - 1]] == ps;
    }
  }

  /** An addition is there afterwards exactly when it is not taken for one that the group has. */
  lemma AdditionsArriveIff(g: Group, plan: Plan)
    ensures Arrives(g, plan) <==> forall p | Member(g.id, p) in plan.additions :: p in Edited(g, plan).pieceIds
  {
    LeftAfterEdits(g, plan);
    var left, add := Left(g, plan), PiecesOf(plan.additions, g.id);
    var e := Edited(g, plan);
    assert forall p | p in add :: p in Distinct(left + add);
    assert forall p :: p in add <==> Member(g.id, p) in plan.additions;
    assert e.pieceIds == if add == [] || |Distinct(left + add)| == |left| then left else Distinct(left + add);
    ArrivesByLength(left, add, e.pieceIds);
    assert Arrives(g, plan) <==> forall p | p in add :: p in e.pieceIds;
    hide Left, Distinct, PiecesOf, Edited, Arrives;
  }

  lemma ArrivesByLength(left: seq<Piece>, add: seq<Piece>, after: seq<Piece>)
    requires after == if add == [] || |Distinct(left + add)| == |left| then left else Distinct(left + add)
    ensures (|Distinct(left + add)| == |left| ==> forall p | p in add :: p in left) <==> forall p | p in add :: p in after
  {
    assert forall p | p in add :: p in Distinct(left + add);
    hide Distinct;
  }

  lemma EditedMeans(g: Group, plan: Plan)
    ensures var e := Edited(g, plan);
            && e.id == g.id && e.name == g.name && e.look == g.look && e.folderPath == NewPath(g, plan)
            && Cleared(e.parentId, plan) == NewParent(g, plan)
            && forall p :: p in e.pieceIds <==>
                 || (p in g.pieceIds && Member(g.id, p) !in plan.removals)
                 || (Member(g.id, p) in plan.additions && Arrives(g, plan))
  {
    LeftAfterEdits(g, plan);
    var left, add := Left(g, plan), PiecesOf(plan.additions, g.id);
    assert forall p :: p in left <==> p in g.pieceIds && Member(g.id, p) !in plan.removals;
    assert forall p :: p in add <==> Member(g.id, p) in plan.additions;
    UnionOrLeft(left, add, Edited(g, plan).pieceIds);
    hide Left, Distinct, PiecesOf, Edited;
  }

  lemma UnionOrLeft(left: seq<Piece>, add: seq<Piece>, after: seq<Piece>)
    requires after == if add == [] || |Distinct(left + add)| == |left| then left else Distinct(left + add)
    ensures var arrives := |Distinct(left + add)| == |left| ==> forall p | p in add :: p in left;
            forall p :: p in after <==> p in left || (p in add && arrives)
  {
    assert forall p :: p in Distinct(left + add) <==> p in left || p in add;
    hide Distinct;
  }

  // ------------------------------------------------------------------- the upserts

  /** The same group, with the pieces that upserts name for it. */
  ghost predicate JoinOf(g: Group, h: Group, upserts: seq<Upsert>)
  {
    && h.(pieceIds := g.pieceIds) == g
    && (forall p :: p in h.pieceIds <==> p in g.pieceIds || Upserted(upserts, g.id, p))
    && if UpsertNames(upserts, g.id) then NoRepeats(h.pieceIds) else h.pieceIds == g.pieceIds
  }

  lemma UpsertedStep(upserts: seq<Upsert>, id: Id, p: Piece)
    requires upserts != []
    ensures var front, last := upserts[..|upserts| - 1], upserts[|upserts| - 1];
            && (Upserted(upserts, id, p) <==>
                 Upserted(front, id, p) || (Usable(last) && last.groupId == id && p in last.pieceIds.value))
            && (UpsertNames(upserts, id) <==> UpsertNames(front, id) || (Usable(last) && last.groupId == id))
  {
    var front, last := upserts[..|upserts| - 1], upserts[|upserts| - 1];
    assert upserts == front + [last];
    assert forall u :: u in upserts <==> u in front || u == last;
  }

  /** Upserts keep every group in its place, and unite their pieces into it. */
  lemma {:induction false} UpsertsKeep(groups: seq<Group>, upserts: seq<Upsert>, i: nat)
    requires i < |groups|
    ensures var all := UpsertAll(groups, upserts); i < |all| && JoinOf(groups[i], all[i], upserts)
  {
    if upserts != [] {
      var front, last := upserts[..|upserts| - 1], upserts[|upserts| - 1];
      UpsertsKeep(groups, front, i);
      var before := UpsertAll(groups, front);
      forall p
        ensures Upserted(upserts, groups[i].id, p) <==>
                Upserted(front, groups[i].id, p) || (Usable(last) && last.groupId == groups[i].id && p in last.pieceIds.value)
      {
        UpsertedStep(upserts, groups[i].id, p);
      }
      UpsertedStep(upserts, groups[i].id, 0);
      hide Upserted, UpsertNames;
      if Usable(last) && last.groupId == groups[i].id {
        assert HasId(before, last.groupId);
      }
    }
  }

  /** A group as these upserts make it: the first one's, with the pieces of all of them, repeats taken out from the second on. */
  ghost predicate MadeBy(h: Group, us: seq<Upsert>)
    requires forall i | 0 <= i < |us| :: Usable(us[i])
  {
    && us != [] && h == Fresh(us[0]).(pieceIds := h.pieceIds)
    && if |us| == 1 then h.pieceIds == us[0].pieceIds.value else NoRepeats(h.pieceIds)
  }

  /** What upserts append is new, and as those of them make it that name it. */
  lemma {:induction false} UpsertsAppend(groups: seq<Group>, upserts: seq<Upsert>, i: nat)
    requires |groups| <= i < |UpsertAll(groups, upserts)|
    ensures var h := UpsertAll(groups, upserts)[i];
            && !HasId(groups, h.id) && UpsertNames(upserts, h.id) && MadeBy(h, UpsertsOf(upserts, h.id))
            && (forall p :: p in h.pieceIds <==> Upserted(upserts, h.id, p))
  {
    if upserts != [] {
      var front, last := upserts[..|upserts| - 1], upserts[|upserts| - 1];
      var before := UpsertAll(groups, front);
      var id := UpsertAll(groups, upserts)[i].id;
      forall p
        ensures Upserted(upserts, id, p) <==> Upserted(front, id, p) || (Usable(last) && last.groupId == id && p in last.pieceIds.value)
      {
        UpsertedStep(upserts, id, p);
      }
      UpsertedStep(upserts, id, 0);
      NamesIff(front, id);
      if i < |before| {
        UpsertsAppend(groups, front, i);
        if Usable(last) && last.groupId == id {
          assert HasId(before, last.groupId);
        }
      } else {
        NewIdIsNew(groups, front, id);
      }
      hide Upserted, UpsertNames, HasId, UpsertAll, NoRepeats;
    }
  }

  /** An id that the groups do not have after some upserts was not theirs, and none of these upserts names it. */
  lemma {:induction false} NewIdIsNew(groups: seq<Group>, upserts: seq<Upsert>, id: Id)
    ensures HasId(UpsertAll(groups, upserts), id) <==> HasId(groups, id) || UpsertNames(upserts, id)
    ensures forall p | Upserted(upserts, id, p) :: UpsertNames(upserts, id)
  {
    if upserts != [] {
      var front, last := upserts[..|upserts| - 1], upserts[|upserts| - 1];
      NewIdIsNew(groups, front, id);
      UpsertedStep(upserts, id, 0);
      var before := UpsertAll(groups, front);
      OneMoreId(before, last, id);
      hide HasId, UpsertNames;
    }
  }

  lemma OneMoreId(groups: seq<Group>, u: Upsert, id: Id)
    ensures HasId(UpsertOne(groups, u), id) <==> HasId(groups, id) || (Usable(u) && u.groupId == id)
  {
    var next := UpsertOne(groups, u);
    forall i | 0 <= i < |groups|
      ensures i < |next| && next[i].id == groups[i].id
    {
    }
    if HasId(groups, id) {
      var i :| 0 <= i < |groups| && groups[i].id == id;
      assert next[i].id == id;
    }
    if Usable(u) && u.groupId == id && !HasId(groups, id) {
      assert next[|groups|].id == id;
    }
  }

  // -------------------------------------------------------------------- the deletes

  lemma {:induction false} DeletedAppend(groups: seq<Group>, more: seq<Group>, doomed: seq<Id>)
    ensures Deleted(groups + more, doomed) == Deleted(groups, doomed) + Deleted(more, doomed)
  {
    if more == [] {
      assert groups + more == groups;
    } else {
      DeletedAppend(groups, more[..|more| - 1], doomed);
      assert (groups + more)[..|groups + more| - 1] == groups + more[..|more| - 1];
    }
  }

  lemma {:induction false} DeletedNone(groups: seq<Group>, doomed: seq<Id>)
    requires forall i | 0 <= i < |groups| :: groups[i].id in doomed
    ensures Deleted(groups, doomed) == []
  {
    if groups != [] {
      DeletedNone(groups[..|groups| - 1], doomed);
    }
  }

  lemma {:induction false} DeletedAll(groups: seq<Group>, doomed: seq<Id>)
    requires forall i | 0 <= i < |groups| :: groups[i].id !in doomed
    ensures var left := Deleted(groups, doomed);
            |left| == |groups| && forall i | 0 <= i < |groups| :: left[i] == Orphaned(groups[i], doomed)
  {
    if groups != [] {
      DeletedAll(groups[..|groups| - 1], doomed);
    }
  }

  /** What is left was there, and is not doomed. */
  lemma {:induction false} DeletedFrom(groups: seq<Group>, doomed: seq<Id>, i: nat) returns (k: nat)
    requires i < |Deleted(groups, doomed)|
    ensures k < |groups| && groups[k].id !in doomed && Deleted(groups, doomed)[i] == Orphaned(groups[k], doomed)
  {
    var front := groups[..|groups| - 1];
    if i < |Deleted(front, doomed)| {
      k := DeletedFrom(front, doomed, i);
    } else {
      k := |groups| - 1;
    }
  }

  lemma {:induction false} DeletedKeeps(groups: seq<Group>, doomed: seq<Id>, id: Id)
    ensures HasId(Deleted(groups, doomed), id) <==> HasId(groups, id) && id !in doomed
  {
    if groups != [] {
      var front, last := groups[..|groups| - 1], groups[|groups| - 1];
      DeletedKeeps(front, doomed, id);
      HasIdAppend(front, [last], id);
      assert groups == front + [last];
      var kept := if last.id in doomed then [] else [Orphaned(last, doomed)];
      HasIdAppend(Deleted(front, doomed), kept, id);
      assert HasId([last], id) <==> last.id == id by {
        if last.id == id { assert [last][0].id == id; }
      }
      assert HasId(kept, id) <==> last.id == id && id !in doomed by {
        if last.id == id && id !in doomed { assert kept[0].id == id; }
      }
    }
  }

  lemma HasIdAppend(groups: seq<Group>, more: seq<Group>, id: Id)
    ensures HasId(groups + more, id) <==> HasId(groups, id) || HasId(more, id)
  {
    if HasId(groups, id) {
      var i :| 0 <= i < |groups| && groups[i].id == id;
      assert (groups + more)[i].id == id;
    }
    if HasId(more, id) {
      var i :| 0 <= i < |more| && more[i].id == id;
      assert (groups + more)[|groups| + i].id == id;
    }
    if HasId(groups + more, id) {
      var i :| 0 <= i < |groups + more| && (groups + more)[i].id == id;
      assert i < |groups| ==> groups[i].id == id;
      assert i >= |groups| ==> more[i - |groups|].id == id;
    }
  }

  // ------------------------------------------------------------------- the theorems

  predicate IdsDistinct(groups: seq<Group>)
  {
    forall i, j | 0 <= i < j < |groups| :: groups[i].id != groups[j].id
  }

  /** The ids after a plan: those that were there or are upserted, without the deleted ones. */
  lemma IdsAfter(groups: seq<Group>, plan: Plan, id: Id)
    ensures HasId(Synced(groups, plan), id) <==>
            (HasId(groups, id) || UpsertNames(plan.upserts, id)) && id !in plan.groupDeletes
  {
    var edited := EditedAll(groups, plan);
    NewIdIsNew(edited, plan.upserts, id);
    DeletedKeeps(UpsertAll(edited, plan.upserts), plan.groupDeletes, id);
    assert forall i | 0 <= i < |groups| :: edited[i].id == groups[i].id;
    if HasId(groups, id) {
      var i :| 0 <= i < |groups| && groups[i].id == id;
      assert edited[i].id == id;
    }
    hide Edited, UpsertAll, Deleted, UpsertNames;
  }

  lemma {:induction false} UpsertsKeepDistinct(groups: seq<Group>, upserts: seq<Upsert>)
    requires IdsDistinct(groups)
    ensures IdsDistinct(UpsertAll(groups, upserts))
  {
    if upserts != [] {
      UpsertsKeepDistinct(groups, upserts[..|upserts| - 1]);
    }
  }

  lemma {:induction false} DeletesKeepDistinct(groups: seq<Group>, doomed: seq<Id>)
    requires IdsDistinct(groups)
    ensures IdsDistinct(Deleted(groups, doomed))
  {
    if groups != [] {
      var front := groups[..|groups| - 1];
      DeletesKeepDistinct(front, doomed);
      forall i | 0 <= i < |Deleted(front, doomed)|
        ensures Deleted(front, doomed)[i].id != groups[|groups| - 1].id
      {
        var k := DeletedFrom(front, doomed, i);
      }
    }
  }

  /** Group ids stay distinct. */
  lemma IdsStayDistinct(groups: seq<Group>, plan: Plan)
    requires IdsDistinct(groups)
    ensures IdsDistinct(Synced(groups, plan))
  {
    var edited := EditedAll(groups, plan);
    assert forall i | 0 <= i < |groups| :: edited[i].id == groups[i].id;
    UpsertsKeepDistinct(edited, plan.upserts);
    DeletesKeepDistinct(UpsertAll(edited, plan.upserts), plan.groupDeletes);
    hide Edited, UpsertAll, Deleted;
  }

  /** No group keeps a parent that the plan deleted, nor is one of the deleted itself. */
  lemma NoDeletedParent(groups: seq<Group>, plan: Plan, i: nat)
    requires i < |Synced(groups, plan)|
    ensures var h := Synced(groups, plan)[i];
            h.id !in plan.groupDeletes && (h.parentId == "" || h.parentId !in plan.groupDeletes)
  {
    var k := DeletedFrom(UpsertAll(EditedAll(groups, plan), plan.upserts), plan.groupDeletes, i);
    hide UpsertAll;
  }

  /** A group the plan made: new, and as the upserts that name it make it, its parent cleared if the plan deletes that. */
  ghost predicate Made(groups: seq<Group>, h: Group, plan: Plan)
  {
    var us := UpsertsOf(plan.upserts, h.id);
    && !HasId(groups, h.id) && us != []
    && h.name == us[0].name && h.folderPath == us[0].folderPath && h.look == Fresh(us[0]).look
    && h.parentId == Cleared(us[0].parentId, plan)
    && (forall p :: p in h.pieceIds <==> Upserted(plan.upserts, h.id, p))
    && if |us| == 1 then h.pieceIds == us[0].pieceIds.value else NoRepeats(h.pieceIds)
  }

  lemma KeptIsSynced(g: Group, e: Group, all: Group, plan: Plan)
    requires e == Edited(g, plan) && JoinOf(e, all, plan.upserts)
    ensures SyncOf(g, Orphaned(all, plan.groupDeletes), plan)
  {
    hide Edited, Upserted, UpsertNames, Arrives, NewPath, NewParent, NoRepeats;
    EditedMeans(g, plan);
    assert NewParent(g, plan) == Cleared(e.parentId, plan);
  }

  /** Every group after a plan is one of those before, synced, or one that the plan made. */
  lemma EachGroup(groups: seq<Group>, plan: Plan, i: nat)
    requires i < |Synced(groups, plan)|
    ensures var h := Synced(groups, plan)[i];
            Made(groups, h, plan) || exists g | g in groups :: SyncOf(g, h, plan)
  {
    var edited := EditedAll(groups, plan);
    var all := UpsertAll(edited, plan.upserts);
    var k := DeletedFrom(all, plan.groupDeletes, i);
    var h := Synced(groups, plan)[i];
    if k < |groups| {
      UpsertsKeep(edited, plan.upserts, k);
      KeptIsSynced(groups[k], edited[k], all[k], plan);
      assert groups[k] in groups;
    } else {
      UpsertsAppend(edited, plan.upserts, k);
      SameIds(groups, plan, h.id);
    }
    hide SyncOf, JoinOf, UpsertAll, Deleted, Edited, Upserted, UpsertNames, NoRepeats, UpsertsOf, HasId;
  }

  /** And every group that is not deleted is there afterwards, synced. */
  lemma GroupStays(groups: seq<Group>, plan: Plan, k: nat) returns (i: nat)
    requires k < |groups| && groups[k].id !in plan.groupDeletes
    ensures i < |Synced(groups, plan)| && SyncOf(groups[k], Synced(groups, plan)[i], plan)
  {
    var edited := EditedAll(groups, plan);
    var all := UpsertAll(edited, plan.upserts);
    UpsertsKeep(edited, plan.upserts, k);
    KeptIsSynced(groups[k], edited[k], all[k], plan);
    i := DeletedIndex(all, plan.groupDeletes, k);
    hide SyncOf, UpsertAll, Deleted, Edited;
  }

  lemma {:induction false} DeletedIndex(groups: seq<Group>, doomed: seq<Id>, k: nat) returns (i: nat)
    requires k < |groups| && groups[k].id !in doomed
    ensures i < |Deleted(groups, doomed)| && Deleted(groups, doomed)[i] == Orphaned(groups[k], doomed)
  {
    var front := groups[..|groups| - 1];
    if k < |front| {
      i := DeletedIndex(front, doomed, k);
    } else {
      i := |Deleted(front, doomed)|;
    }
  }

  lemma SameIds(groups: seq<Group>, plan: Plan, id: Id)
    ensures HasId(EditedAll(groups, plan), id) <==> HasId(groups, id)
  {
    var edited := EditedAll(groups, plan);
    assert forall i | 0 <= i < |groups| :: edited[i].id == groups[i].id;
    if HasId(groups, id) {
      var i :| 0 <= i < |groups| && groups[i].id == id;
      assert edited[i].id == id;
    }
    hide Edited;
  }

  /** The same group, but for the order of its pieces. */
  ghost predicate Alike(g: Group, h: Group)
  {
    h.(pieceIds := g.pieceIds) == g && multiset(h.pieceIds) == multiset(g.pieceIds)
  }

  predicate SamePieces(ps: seq<Piece>, qs: seq<Piece>)
  {
    (forall p | p in ps :: p in qs) && forall p | p in qs :: p in ps
  }

  lemma {:induction false} EachOnce(ps: seq<Piece>)
    requires NoRepeats(ps)
    ensures forall p :: multiset(ps)[p] == if p in ps then 1 else 0
  {
    if ps != [] {
      var front, last := ps[..|ps| - 1], ps[|ps| - 1];
      assert ps == front + [last];
      EachOnce(front);
      assert last !in front;
    }
  }

  /** Two lists without repeats are permutations of each other exactly if they have the same pieces. */
  lemma OnceEachIsAlikeIff(ps: seq<Piece>, qs: seq<Piece>)
    requires NoRepeats(ps) && NoRepeats(qs)
    ensures multiset(ps) == multiset(qs) <==> SamePieces(ps, qs)
  {
    EachOnce(ps);
    EachOnce(qs);
    AlikeHasSame(ps, qs);
    hide NoRepeats;
  }

  lemma AlikeHasSame(ps: seq<Piece>, qs: seq<Piece>)
    ensures multiset(ps) == multiset(qs) ==> SamePieces(ps, qs)
  {
    if multiset(ps) == multiset(qs) {
      forall p
        ensures p in ps <==> p in qs
      {
        assert p in ps <==> p in multiset(ps);
        assert p in qs <==> p in multiset(qs);
      }
    }
  }

  lemma RepeatCounts(ps: seq<Piece>, i: nat, j: nat)
    requires i < j < |ps| && ps[i] == ps[j]
    ensures multiset(ps)[ps[i]] >= 2
  {
    assert ps == ps[..j] + ps[j..] && ps[..j][i] == ps[i] && ps[j..][0] == ps[j];
    assert multiset(ps) == multiset(ps[..j]) + multiset(ps[j..]);
    assert ps[i] in multiset(ps[..j]) && ps[i] in multiset(ps[j..]);
  }

  /** A list with a repeat is no permutation of one without. */
  lemma RepeatsShow(ps: seq<Piece>, qs: seq<Piece>)
    requires NoRepeats(qs) && multiset(ps) == multiset(qs)
    ensures NoRepeats(ps)
  {
    EachOnce(qs);
    forall i, j | 0 <= i < j < |ps| && ps[i] == ps[j]
      ensures multiset(ps)[ps[i]] >= 2
    {
      RepeatCounts(ps, i, j);
    }
  }

  /** The plan makes this group, and keeps it. */
  predicate Creates(groups: seq<Group>, plan: Plan, id: Id)
  {
    !HasId(groups, id) && UpsertNames(plan.upserts, id) && id !in plan.groupDeletes
  }

  /** No path update, parent update or addition names a group that the plan creates. */
  predicate LeavesNewAlone(groups: seq<Group>, plan: Plan)
  {
    && (forall u | u in plan.folderPathUpdates :: !Creates(groups, plan, u.groupId))
    && (forall u | u in plan.parentUpdates :: !Creates(groups, plan, u.groupId))
    && (forall u | u in plan.additions :: !Creates(groups, plan, u.groupId))
  }

  lemma {:induction false} PathsNamed(updates: seq<PathUpdate>, id: Id)
    requires id in PathsByGroup(updates)
    ensures exists u | u in updates :: u.groupId == id
  {
    var last := updates[|updates| - 1];
    if last.groupId != id {
      PathsNamed(updates[..|updates| - 1], id);
      var u :| u in updates[..|updates| - 1] && u.groupId == id;
      assert u in updates;
    } else {
      assert last in updates;
    }
  }

  lemma {:induction false} ParentsNamed(updates: seq<ParentUpdate>, id: Id)
    requires id in ParentsByGroup(updates)
    ensures exists u | u in updates :: u.groupId == id
  {
    var last := updates[|updates| - 1];
    if last.groupId != id {
      ParentsNamed(updates[..|updates| - 1], id);
      var u :| u in updates[..|updates| - 1] && u.groupId == id;
      assert u in updates;
    } else {
      assert last in updates;
    }
  }

  lemma {:induction false} PiecesNamed(members: seq<Member>, id: Id)
    requires PiecesOf(members, id) != []
    ensures exists u | u in members :: u.groupId == id
  {
    var last := members[|members| - 1];
    if last.groupId != id {
      PiecesNamed(members[..|members| - 1], id);
      var u :| u in members[..|members| - 1] && u.groupId == id;
      assert u in members;
    } else {
      assert last in members;
    }
  }

  /**
    Replay does no harm to this group: its additions arrive, or no upsert takes out the
    repeats that swallow them, or all that is swallowed is upserted anyway.
   */
  predicate Replays(g: Group, plan: Plan)
  {
    || Arrives(g, plan)
    || !UpsertNames(plan.upserts, g.id)
    || forall p | p in PiecesOf(plan.additions, g.id) :: p in Left(g, plan) || Upserted(plan.upserts, g.id, p)
  }

  lemma {:induction false} NothingMoreDropped(ps: seq<Piece>, drop: seq<Piece>)
    requires forall p | p in ps :: p !in drop
    ensures Without(ps, drop) == ps
  {
    hide NoRepeats;
    if ps != [] {
      var front := ps[..|ps| - 1];
      assert ps == front + [ps[|ps| - 1]];
      NothingMoreDropped(front, drop);
    }
  }

  /** Whether additions arrive the second time: they do, unless the same repeats are still there to swallow them. */
  lemma ArrivesAgainIff(g: Group, h: Group, plan: Plan)
    requires SyncOf(g, h, plan)
    ensures Arrives(h, plan) <==> Arrives(g, plan) || UpsertNames(plan.upserts, g.id)
  {
    var left, add := Left(g, plan), PiecesOf(plan.additions, g.id);
    LeftAfterEdits(g, plan);
    if NoRepeats(h.pieceIds) {
      NoRepeatsArrives(h, plan);
      if !UpsertNames(plan.upserts, g.id) && !Arrives(g, plan) {
        assert h.pieceIds == left;
        NothingMoreDropped(left, PiecesOf(plan.removals, g.id));
      }
    } else {
      assert h.pieceIds == left by {
        assert NoRepeats(Distinct(left + add));
      }
      NothingMoreDropped(left, PiecesOf(plan.removals, g.id));
      assert Left(h, plan) == left;
    }
    hide Distinct, Without, NoRepeats, Upserted, UpsertNames, PiecesOf, HasAfter;
  }

  lemma NoRepeatsArrives(h: Group, plan: Plan)
    requires NoRepeats(h.pieceIds)
    ensures Arrives(h, plan)
  {
    var left, add := Left(h, plan), PiecesOf(plan.additions, h.id);
    if |Distinct(left + add)| == |left| {
      UnionMeans(left, add);
    }
    hide Distinct, Without, NoRepeats;
  }

  /** The same plan leaves a group that it synced as it is, but for order, exactly if replay does no harm to it. */
  lemma SyncTwiceIff(g: Group, h: Group, h': Group, plan: Plan)
    requires SyncOf(g, h, plan) && SyncOf(h, h', plan)
    requires h.parentId == "" || h.parentId !in plan.groupDeletes
    ensures Alike(h, h') <==> Replays(g, plan)
  {
    hide Replays, HasAfter, Edited, Arrives, NewPath, NewParent, UpsertNames, NoRepeats;
    ArrivesAgainIff(g, h, plan);
    FieldsTwice(g, h, h', plan);
    PiecesTwiceIff(g, h, h', plan);
    PermutedIff(g, h, h', plan);
  }

  /** Where a group was before, the second sync permutes its pieces if it keeps them at all. */
  lemma PermutedIff(g: Group, h: Group, h': Group, plan: Plan)
    requires SyncOf(g, h, plan) && SyncOf(h, h', plan)
    ensures multiset(h'.pieceIds) == multiset(h.pieceIds) <==> forall p :: p in h'.pieceIds <==> p in h.pieceIds
  {
    hide HasAfter, UpsertNames, Distinct, Edited, PiecesOf;
    if UpsertNames(plan.upserts, g.id) || NoRepeats(h.pieceIds) {
      if !UpsertNames(plan.upserts, g.id) {
        EditsKeepNoRepeats(h, plan);
      }
      OnceEachIsAlikeIff(h'.pieceIds, h.pieceIds);
    } else {
      EditedTwice(g, h, plan);
    }
    hide NoRepeats;
  }

  lemma EditsKeepNoRepeats(h: Group, plan: Plan)
    requires NoRepeats(h.pieceIds)
    ensures NoRepeats(Edited(h, plan).pieceIds)
  {
    LeftAfterEdits(h, plan);
    assert NoRepeats(Distinct(Left(h, plan) + PiecesOf(plan.additions, h.id)));
    hide Edited, Distinct, Without, NoRepeats;
  }

  /** Repeats that the first edits left are left by the second, with all the rest. */
  lemma EditedTwice(g: Group, h: Group, plan: Plan)
    requires h.id == g.id && h.pieceIds == Edited(g, plan).pieceIds && !NoRepeats(h.pieceIds)
    ensures Edited(h, plan).pieceIds == h.pieceIds
  {
    var left, add := Left(g, plan), PiecesOf(plan.additions, g.id);
    LeftAfterEdits(g, plan);
    LeftAfterEdits(h, plan);
    assert NoRepeats(Distinct(left + add));
    assert h.pieceIds == left;
    NothingMoreDropped(left, PiecesOf(plan.removals, g.id));
    hide Edited, Distinct, Without, NoRepeats, PiecesOf;
  }

  lemma FieldsTwice(g: Group, h: Group, h': Group, plan: Plan)
    requires SyncOf(g, h, plan) && SyncOf(h, h', plan)
    requires h.parentId == "" || h.parentId !in plan.groupDeletes
    ensures h'.(pieceIds := h.pieceIds) == h
  {
    hide HasAfter, Edited, UpsertNames, NoRepeats, PathsByGroup, ParentsByGroup;
  }

  lemma PiecesTwiceIff(g: Group, h: Group, h': Group, plan: Plan)
    requires h.id == g.id && (forall p :: p in h.pieceIds <==> HasAfter(g, p, plan))
    requires forall p :: p in h'.pieceIds <==> HasAfter(h, p, plan)
    requires Arrives(h, plan) <==> Arrives(g, plan) || UpsertNames(plan.upserts, g.id)
    ensures (forall p :: p in h'.pieceIds <==> p in h.pieceIds) <==> Replays(g, plan)
  {
    hide Arrives, Upserted, UpsertNames;
    assert forall p :: p in Left(g, plan) <==> p in g.pieceIds && Member(g.id, p) !in plan.removals;
    assert forall p :: p in PiecesOf(plan.additions, g.id) <==> Member(g.id, p) in plan.additions;
    hide Left, PiecesOf;
    if !Replays(g, plan) {
      var p :| p in PiecesOf(plan.additions, g.id) && !(p in Left(g, plan) || Upserted(plan.upserts, g.id, p));
      assert HasAfter(h, p, plan) && !HasAfter(g, p, plan);
      assert p in h'.pieceIds && p !in h.pieceIds;
    }
  }

  /** Syncing once more gives the same groups in the same order, alike but for the order of their pieces. */
  ghost predicate ReplayIsAlike(groups: seq<Group>, plan: Plan)
  {
    var once, twice := Synced(groups, plan), Synced(Synced(groups, plan), plan);
    |twice| == |once| && forall i | 0 <= i < |once| :: Alike(once[i], twice[i])
  }

  /** The second time, each group is synced from what it was after the first. */
  lemma TwiceAt(groups: seq<Group>, plan: Plan)
    ensures var once, twice := Synced(groups, plan), Synced(Synced(groups, plan), plan);
            |twice| == |once| && forall i | 0 <= i < |once| :: SyncOf(once[i], twice[i], plan)
  {
    var once := Synced(groups, plan);
    var edited := EditedAll(once, plan);
    var all := UpsertAll(edited, plan.upserts);
    var doomed := plan.groupDeletes;
    ReplayAddsNothing(groups, plan);
    var kept := all[..|once|];
    forall i | 0 <= i < |once|
      ensures kept[i].id !in doomed && SyncOf(once[i], Orphaned(kept[i], doomed), plan)
    {
      NoDeletedParent(groups, plan, i);
      UpsertsKeep(edited, plan.upserts, i);
      KeptIsSynced(once[i], edited[i], all[i], plan);
      assert kept[i].id == once[i].id;
    }
    DeletedAll(kept, doomed);
    assert Synced(once, plan) == Deleted(kept, doomed);
    hide Synced, SyncOf, Edited, UpsertAll, Deleted, JoinOf;
  }

  /**
    Replay does no harm to a group that the plan creates: it has no piece twice, so either
    its upsert has none or there are more of them, and no update or addition changes it.
   */
  predicate CreatedReplays(plan: Plan, id: Id)
  {
    var us := UpsertsOf(plan.upserts, id);
    us != [] ==>
      && (|us| == 1 ==> NoRepeats(us[0].pieceIds.value))
      && NewPath(Fresh(us[0]), plan) == us[0].folderPath
      && NewParent(Fresh(us[0]), plan) == Cleared(us[0].parentId, plan)
      && forall p | p in PiecesOf(plan.additions, id) :: Upserted(plan.upserts, id, p)
  }

  /** The same plan leaves a group that it made as it is, but for order, exactly if replay does no harm to it. */
  lemma MadeTwiceIff(groups: seq<Group>, h: Group, h': Group, plan: Plan)
    requires Made(groups, h, plan) && SyncOf(h, h', plan)
    ensures Alike(h, h') <==> CreatedReplays(plan, h.id)
  {
    hide UpsertsOf, HasAfter, Edited, Upserted, NoRepeats, PathsByGroup, ParentsByGroup, PiecesOf, UpsertNames;
    var made := Fresh(UpsertsOf(plan.upserts, h.id)[0]);
    NamesIff(plan.upserts, h.id);
    assert NewPath(h, plan) == NewPath(made, plan) && NewParent(h, plan) == NewParent(made, plan);
    MadePiecesIff(groups, h, h', plan);
  }

  lemma MadePiecesIff(groups: seq<Group>, h: Group, h': Group, plan: Plan)
    requires Made(groups, h, plan) && SyncOf(h, h', plan) && UpsertNames(plan.upserts, h.id)
    ensures multiset(h'.pieceIds) == multiset(h.pieceIds) <==>
            NoRepeats(h.pieceIds) && forall p | p in PiecesOf(plan.additions, h.id) :: Upserted(plan.upserts, h.id, p)
  {
    hide UpsertsOf, Edited, Upserted, NoRepeats, UpsertNames, Arrives, NewPath, NewParent;
    if NoRepeats(h.pieceIds) {
      NoRepeatsArrives(h, plan);
      OnceEachIsAlikeIff(h'.pieceIds, h.pieceIds);
      assert forall p :: p in PiecesOf(plan.additions, h.id) <==> Member(h.id, p) in plan.additions;
      hide PiecesOf;
    } else if multiset(h'.pieceIds) == multiset(h.pieceIds) {
      RepeatsShow(h.pieceIds, h'.pieceIds);
    }
  }

  /**
    Replay is safe exactly if it does no harm to any group, neither to one that was there
    and is not deleted nor to one that the plan creates.
   */
  lemma ReplayIsSafeIff(groups: seq<Group>, plan: Plan)
    ensures ReplayIsAlike(groups, plan) <==>
            && (forall g | g in groups && g.id !in plan.groupDeletes :: Replays(g, plan))
            && forall id | Creates(groups, plan, id) :: CreatedReplays(plan, id)
  {
    hide Synced, SyncOf, Made, Alike, Replays, CreatedReplays, Creates;
    var once, twice := Synced(groups, plan), Synced(Synced(groups, plan), plan);
    TwiceAt(groups, plan);
    if (forall g | g in groups && g.id !in plan.groupDeletes :: Replays(g, plan))
       && forall id | Creates(groups, plan, id) :: CreatedReplays(plan, id) {
      forall i | 0 <= i < |once|
        ensures Alike(once[i], twice[i])
      {
        AlikeAt(groups, plan, i, twice[i]);
      }
    }
    if ReplayIsAlike(groups, plan) {
      forall g | g in groups && g.id !in plan.groupDeletes
        ensures Replays(g, plan)
      {
        var k :| 0 <= k < |groups| && groups[k] == g;
        var i := GroupStays(groups, plan, k);
        NoDeletedParent(groups, plan, i);
        SyncTwiceIff(g, once[i], twice[i], plan);
      }
      forall id | Creates(groups, plan, id)
        ensures CreatedReplays(plan, id)
      {
        var i := CreatedIsThere(groups, plan, id);
        MadeTwiceIff(groups, once[i], twice[i], plan);
      }
    }
  }

  /** Where a group is that the plan creates. */
  lemma CreatedIsThere(groups: seq<Group>, plan: Plan, id: Id) returns (i: nat)
    requires Creates(groups, plan, id)
    ensures i < |Synced(groups, plan)| && Synced(groups, plan)[i].id == id && Made(groups, Synced(groups, plan)[i], plan)
  {
    IdsAfter(groups, plan, id);
    i :| 0 <= i < |Synced(groups, plan)| && Synced(groups, plan)[i].id == id;
    EachGroup(groups, plan, i);
    AllHaveIds(groups);
    hide Synced, Made, UpsertNames;
  }

  lemma AllHaveIds(groups: seq<Group>)
    ensures forall g | g in groups :: HasId(groups, g.id)
  {
    forall g | g in groups
      ensures HasId(groups, g.id)
    {
      var k :| 0 <= k < |groups| && groups[k] == g;
    }
  }

  lemma AlikeAt(groups: seq<Group>, plan: Plan, i: nat, h': Group)
    requires i < |Synced(groups, plan)|
    requires forall g | g in groups && g.id !in plan.groupDeletes :: Replays(g, plan)
    requires forall id | Creates(groups, plan, id) :: CreatedReplays(plan, id)
    requires SyncOf(Synced(groups, plan)[i], h', plan)
    ensures Alike(Synced(groups, plan)[i], h')
  {
    hide Synced, Alike, Replays, CreatedReplays;
    var h := Synced(groups, plan)[i];
    EachGroup(groups, plan, i);
    NoDeletedParent(groups, plan, i);
    if Made(groups, h, plan) {
      NamesIff(plan.upserts, h.id);
      assert Creates(groups, plan, h.id);
      MadeTwiceIff(groups, h, h', plan);
    } else {
      var g :| g in groups && SyncOf(g, h, plan);
      assert g.id == h.id;
      SyncTwiceIff(g, h, h', plan);
    }
    hide Made, UpsertsOf, UpsertNames;
  }

  /** The groups that were there and the plan keeps do no harm whenever none of them has a piece twice. */
  lemma NoRepeatsReplay(g: Group, plan: Plan)
    requires NoRepeats(g.pieceIds)
    ensures Replays(g, plan)
  {
    NoRepeatsArrives(g, plan);
  }

  /**
    When no path update, parent update or addition names a group that the plan creates,
    the condition on those is only that the sole upsert of one lists no piece twice.
   */
  lemma ReplayIsSafe(groups: seq<Group>, plan: Plan)
    requires LeavesNewAlone(groups, plan)
    ensures ReplayIsAlike(groups, plan) <==>
            && (forall g | g in groups && g.id !in plan.groupDeletes :: Replays(g, plan))
            && forall id | Creates(groups, plan, id) :: OnlyUpsertIsOnceEach(plan, id)
  {
    hide ReplayIsAlike, Replays, CreatedReplays, OnlyUpsertIsOnceEach, Creates, LeavesNewAlone;
    ReplayIsSafeIff(groups, plan);
    forall id | Creates(groups, plan, id)
      ensures CreatedReplays(plan, id) <==> OnlyUpsertIsOnceEach(plan, id)
    {
      LeftAloneReplays(groups, plan, id);
    }
  }

  predicate OnlyUpsertIsOnceEach(plan: Plan, id: Id)
  {
    var us := UpsertsOf(plan.upserts, id);
    |us| == 1 ==> NoRepeats(us[0].pieceIds.value)
  }

  lemma LeftAloneReplays(groups: seq<Group>, plan: Plan, id: Id)
    requires LeavesNewAlone(groups, plan) && Creates(groups, plan, id)
    ensures CreatedReplays(plan, id) <==> OnlyUpsertIsOnceEach(plan, id)
  {
    if id in PathsByGroup(plan.folderPathUpdates) {
      PathsNamed(plan.folderPathUpdates, id);
    }
    if id in ParentsByGroup(plan.parentUpdates) {
      ParentsNamed(plan.parentUpdates, id);
    }
    if PiecesOf(plan.additions, id) != [] {
      PiecesNamed(plan.additions, id);
    }
    hide Creates, Upserted, NoRepeats;
  }

  /** The second time, all that upserts append is deleted again. */
  lemma ReplayAddsNothing(groups: seq<Group>, plan: Plan)
    ensures var once := Synced(groups, plan);
            var all := UpsertAll(EditedAll(once, plan), plan.upserts);
            |all| >= |once| && Synced(once, plan) == Deleted(all[..|once|], plan.groupDeletes)
  {
    var once := Synced(groups, plan);
    var edited := EditedAll(once, plan);
    var all := UpsertAll(edited, plan.upserts);
    UpsertsGrow(edited, plan.upserts);
    var tail := all[|once|..];
    forall i | 0 <= i < |tail|
      ensures tail[i].id in plan.groupDeletes
    {
      UpsertsAppend(edited, plan.upserts, |once| + i);
      SameIds(once, plan, tail[i].id);
      IdsAfter(groups, plan, tail[i].id);
    }
    DeletedNone(tail, plan.groupDeletes);
    DeletedAppend(all[..|once|], tail, plan.groupDeletes);
    assert all == all[..|once|] + tail;
    assert Deleted(all[..|once|], plan.groupDeletes) + [] == Deleted(all[..|once|], plan.groupDeletes);
    hide UpsertAll, Deleted, EditedAll;
  }

  lemma {:induction false} UpsertsGrow(groups: seq<Group>, upserts: seq<Upsert>)
    ensures |UpsertAll(groups, upserts)| >= |groups|
  {
    if upserts != [] {
      UpsertsGrow(groups, upserts[..|upserts| - 1]);
    }
  }

  /** It need not be safe: an addition that a repeat swallows arrives the second time. */
  lemma ReplayCanDiffer(look: Look)
    ensures var groups := [Group("g", "g", "g", [1, 1], "", look)];
            var plan := Plan([], [], [], [Member("g", 2)], [Upsert("g", "g", "g", Some([1]), "", None)], []);
            var once, twice := Synced(groups, plan), Synced(Synced(groups, plan), plan);
            |once| == |twice| == 1 && 2 !in once[0].pieceIds && 2 in twice[0].pieceIds
  {
    hide Synced, Distinct, Without, Edited, Repathed, Reparented;
    var g := Group("g", "g", "g", [1, 1], "", look);
    var h := g.(pieceIds := [1]);
    var u := Upsert("g", "g", "g", Some([1]), "", None);
    var plan := Plan([], [], [], [Member("g", 2)], [u], []);
    DistinctOfFew();
    OnlyAdding(g, plan);
    OnlyAdding(h, plan);
    OneGroup(g, plan, u);
    OneGroup(h, plan, u);
    hide PiecesOf;
  }

  /** A plan that only adds one piece to the one group there is. */
  lemma OnlyAdding(g: Group, plan: Plan)
    requires g.id == "g" && plan.folderPathUpdates == [] && plan.parentUpdates == [] && plan.removals == []
    requires plan.additions == [Member("g", 2)]
    ensures var union := Distinct(g.pieceIds + [2]);
            Edited(g, plan) == if |union| == |g.pieceIds| then g else g.(pieceIds := union)
  {
    assert [Member("g", 2)][..0] == [];
    assert PiecesOf([], "g") == [] && PiecesOf([Member("g", 2)], "g") == [2];
    hide Distinct, Without, PiecesOf;
  }

  lemma OneMore(ps: seq<Piece>, last: Piece)
    ensures Distinct(ps + [last]) == if last in ps then Distinct(ps) else Distinct(ps) + [last]
  {
    assert (ps + [last])[..|ps|] == ps;
  }

  lemma DistinctOfTwo()
    ensures Distinct([1]) == [1] && Distinct([1, 1]) == [1] && Distinct([1, 2]) == [1, 2]
  {
    OneMore([1], 1);
    OneMore([1], 2);
    assert [1] + [1] == [1, 1] && [1] + [2] == [1, 2];
    assert [1][..0] == [];
  }

  lemma DistinctOfFew()
    ensures |Distinct([1, 1] + [2])| == 2 && Distinct([1, 1] + [1]) == [1]
    ensures Distinct([1] + [2]) == [1, 2] && Distinct([1, 2] + [1]) == [1, 2]
  {
    hide Distinct, NoRepeats;
    DistinctOfTwo();
    OneMore([1], 2);
    OneMore([1, 1], 2);
    OneMore([1, 1], 1);
    OneMore([1, 2], 1);
  }

  /** A plan that only edits and upserts the one group there is. */
  lemma OneGroup(g: Group, plan: Plan, u: Upsert)
    requires plan.upserts == [u] && Usable(u) && u.groupId == g.id && plan.groupDeletes == []
    ensures Synced([g], plan) == [Joined(Edited(g, plan), u.pieceIds.value)]
  {
    var e := Edited(g, plan);
    assert EditedAll([g], plan) == [e];
    assert [u][..0] == [] && UpsertAll([e], []) == [e];
    assert [e][0].id == u.groupId;
    assert UpsertOne([e], u) == [Joined(e, u.pieceIds.value)];
    var all := [Joined(e, u.pieceIds.value)];
    assert all[..0] == [] && Deleted([], []) == [];
    assert Deleted(all, []) == [] + [Orphaned(all[0], [])];
    hide Edited, Distinct;
  }

  /** Nor is it for a group that the plan creates from a list with a repeat: the second time the repeat is taken out. */
  lemma CreatedCanDiffer()
    ensures var plan := Plan([], [], [], [], [Upsert("g", "g", "g", Some([1, 1]), "", None)], []);
            var once, twice := Synced([], plan), Synced(Synced([], plan), plan);
            && LeavesNewAlone([], plan)
            && |once| == |twice| == 1 && once[0].pieceIds == [1, 1] && twice[0].pieceIds == [1]
  {
    hide Synced, Distinct, Without, Edited;
    var u := Upsert("g", "g", "g", Some([1, 1]), "", None);
    var plan := Plan([], [], [], [], [u], []);
    var g := Fresh(u);
    NewGroup(plan, u);
    OneGroup(g, plan, u);
    LeftAfterEdits(g, plan);
    NothingDropped([1, 1]);
    assert Edited(g, plan).pieceIds == [1, 1];
    DistinctOfFour();
  }

  lemma NewGroup(plan: Plan, u: Upsert)
    requires plan.upserts == [u] && Usable(u) && plan.groupDeletes == []
    ensures Synced([], plan) == [Fresh(u)]
  {
    hide Edited, Joined, Distinct;
    assert EditedAll([], plan) == [];
    assert [u][..0] == [] && [u][|[u]| - 1] == u;
    assert UpsertAll([], [u][..0]) == [];
    OneFresh(u);
    OneLeft(Fresh(u));
  }

  lemma OneFresh(u: Upsert)
    requires Usable(u)
    ensures UpsertOne([], u) == [Fresh(u)]
  {
    assert !HasId([], u.groupId);
    assert [] + [Fresh(u)] == [Fresh(u)];
    hide Joined;
  }

  lemma OneLeft(g: Group)
    ensures Deleted([g], []) == [g]
  {
    assert [g][..0] == [] && Deleted([], []) == [];
    assert Deleted([g], []) == [] + [Orphaned(g, [])];
  }

  lemma DistinctOfFour()
    ensures Distinct([1, 1] + [1, 1]) == [1]
  {
    hide Distinct, NoRepeats;
    DistinctOfTwo();
    OneMore([1, 1], 1);
    OneMore([1, 1, 1], 1);
    assert [1, 1] + [1] == [1, 1, 1] && [1, 1, 1] + [1] == [1, 1] + [1, 1];
  }
}
