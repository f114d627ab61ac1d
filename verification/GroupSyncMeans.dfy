/** What a sync plan does, told by its entries: which update counts, which upsert, and in which order things stand. */
module GroupSyncMeans {
  import opened Wrappers
  import opened GroupSync
  import opened GroupSyncLaws

  // ------------------------------------------------------------------ paths and parents

  /** The last path update that names this group. */
  predicate LastPath(updates: seq<PathUpdate>, id: Id, i: nat)
  {
    i < |updates| && updates[i].groupId == id && forall j | i < j < |updates| :: updates[j].groupId != id
  }

  predicate LastParent(updates: seq<ParentUpdate>, id: Id, i: nat)
  {
    i < |updates| && updates[i].groupId == id && forall j | i < j < |updates| :: updates[j].groupId != id
  }

  lemma {:induction false} PathsHoldLast(updates: seq<PathUpdate>, id: Id)
    ensures id in PathsByGroup(updates) <==> exists i: nat :: LastPath(updates, id, i)
    ensures forall i: nat | LastPath(updates, id, i) :: id in PathsByGroup(updates) && PathsByGroup(updates)[id] == updates[i].folderPath
  {
    if updates != [] {
      var n := |updates| - 1;
      PathsHoldLast(updates[..n], id);
      if updates[n].groupId == id {
        assert LastPath(updates, id, n);
      } else {
        assert forall i: nat :: LastPath(updates, id, i) <==> LastPath(updates[..n], id, i);
      }
    }
  }

  lemma {:induction false} ParentsHoldLast(updates: seq<ParentUpdate>, id: Id)
    ensures id in ParentsByGroup(updates) <==> exists i: nat :: LastParent(updates, id, i)
    ensures forall i: nat | LastParent(updates, id, i) :: id in ParentsByGroup(updates) && ParentsByGroup(updates)[id] == updates[i].parentId
  {
    if updates != [] {
      var n := |updates| - 1;
      ParentsHoldLast(updates[..n], id);
      if updates[n].groupId == id {
        assert LastParent(updates, id, n);
      } else {
        assert forall i: nat :: LastParent(updates, id, i) <==> LastParent(updates[..n], id, i);
      }
    }
  }

  /** A group that was there keeps its path, unless the last update of it gives another one; an empty one counts for nothing. */
  lemma PathIs(g: Group, h: Group, plan: Plan)
    requires SyncOf(g, h, plan)
    ensures (forall i: nat :: !LastPath(plan.folderPathUpdates, g.id, i)) ==> h.folderPath == g.folderPath
    ensures forall i: nat | LastPath(plan.folderPathUpdates, g.id, i) ::
              h.folderPath == if plan.folderPathUpdates[i].folderPath == "" then g.folderPath else plan.folderPathUpdates[i].folderPath
  {
    PathsHoldLast(plan.folderPathUpdates, g.id);
    hide PathsByGroup, LastPath, HasAfter, NewParent, UpsertNames;
  }

  /** And its parent, unless the last update of it gives another one or the plan deletes that. */
  lemma ParentIs(g: Group, h: Group, plan: Plan)
    requires SyncOf(g, h, plan)
    ensures (forall i: nat :: !LastParent(plan.parentUpdates, g.id, i)) ==>
              h.parentId == if g.parentId in plan.groupDeletes then "" else g.parentId
    ensures forall i: nat | LastParent(plan.parentUpdates, g.id, i) ::
              var p := plan.parentUpdates[i].parentId; h.parentId == if p in plan.groupDeletes then "" else p
  {
    ParentsHoldLast(plan.parentUpdates, g.id);
    hide ParentsByGroup, LastParent, HasAfter, NewPath, UpsertNames;
  }

  // ----------------------------------------------------------------------------- pieces

  /** One piece stands somewhere before another. */
  predicate Before(ps: seq<Piece>, a: Piece, b: Piece)
  {
    exists i, j | 0 <= i < j < |ps| :: ps[i] == a && ps[j] == b
  }

  /** At some point the list has the one and not yet the other. */
  predicate FirstBefore(ps: seq<Piece>, a: Piece, b: Piece)
  {
    exists n | 0 <= n <= |ps| :: a in ps[..n] && b !in ps[..n]
  }

  predicate InFirstOrder(ds: seq<Piece>, ps: seq<Piece>)
  {
    forall i, j | 0 <= i < j < |ds| :: FirstBefore(ps, ds[i], ds[j])
  }

  /** A union keeps the order in which pieces first come. */
  lemma {:induction false} UnionKeepsOrder(ps: seq<Piece>)
    ensures InFirstOrder(Distinct(ps), ps)
  {
    if ps != [] {
      var n := |ps| - 1;
      var front, ds := Distinct(ps[..n]), Distinct(ps);
      UnionKeepsOrder(ps[..n]);
      forall i, j | 0 <= i < j < |ds|
        ensures FirstBefore(ps, ds[i], ds[j])
      {
        if j < |front| {
          assert FirstBefore(ps[..n], front[i], front[j]);
          var k :| 0 <= k <= n && front[i] in ps[..n][..k] && front[j] !in ps[..n][..k];
          assert ps[..n][..k] == ps[..k];
        } else {
          assert front[i] in front && ds[i] in ps[..n] && ds[j] !in ps[..n];
        }
      }
    }
  }

  /** Removals take out every copy of what they name, and leave the others in their order. */
  lemma {:induction false} RemovalKeepsOrder(ps: seq<Piece>, drop: seq<Piece>)
    ensures var rest := Without(ps, drop);
            && (forall i, j | 0 <= i < j < |rest| :: Before(ps, rest[i], rest[j]))
            && forall p :: multiset(rest)[p] == if p in drop then 0 else multiset(ps)[p]
  {
    if ps != [] {
      var n := |ps| - 1;
      var front, last := ps[..n], ps[n];
      assert ps == front + [last];
      RemovalKeepsOrder(front, drop);
      var kept, rest := Without(front, drop), Without(ps, drop);
      forall i, j | 0 <= i < j < |rest|
        ensures Before(ps, rest[i], rest[j])
      {
        if j < |kept| {
          assert Before(front, kept[i], kept[j]);
          var k, l :| 0 <= k < l < |front| && front[k] == kept[i] && front[l] == kept[j];
          assert ps[k] == rest[i] && ps[l] == rest[j];
        } else {
          assert kept[i] in kept;
          var k :| 0 <= k < |front| && front[k] == kept[i];
          assert ps[k] == rest[i] && ps[n] == rest[j];
        }
      }
    }
  }

  /** How long a union is: as many as there are different pieces. */
  lemma {:induction false} UnionCounts(ps: seq<Piece>)
    ensures |Distinct(ps)| == |set p | p in ps|
  {
    if ps != [] {
      var n := |ps| - 1;
      UnionCounts(ps[..n]);
      var front, all := set p | p in ps[..n], set p | p in ps;
      assert ps == ps[..n] + [ps[n]];
      assert ps[n] in Distinct(ps[..n]) <==> ps[n] in ps[..n];
      if ps[n] in ps[..n] {
        assert all == front;
      } else {
        assert all == front + {ps[n]} && ps[n] !in front;
      }
      hide NoRepeats;
    }
  }

  /** The pieces of a group that no upsert names, in order: what no removal takes, and then what was added and arrived. */
  lemma PiecesAre(g: Group, h: Group, plan: Plan)
    requires SyncOf(g, h, plan) && !UpsertNames(plan.upserts, g.id)
    ensures var left, add := Without(g.pieceIds, PiecesOf(plan.removals, g.id)), PiecesOf(plan.additions, g.id);
            h.pieceIds == if add == [] || |set p | p in left + add| == |left| then left else Distinct(left + add)
  {
    LeftAfterEdits(g, plan);
    UnionCounts(Without(g.pieceIds, PiecesOf(plan.removals, g.id)) + PiecesOf(plan.additions, g.id));
    hide Edited, Distinct, Without, PiecesOf, HasAfter, NewPath, NewParent;
  }

  predicate NamedBefore(members: seq<Member>, a: Member, b: Member)
  {
    exists i, j | 0 <= i < j < |members| :: members[i] == a && members[j] == b
  }

  lemma NamedGrows(members: seq<Member>, last: Member, a: Member, b: Member)
    ensures NamedBefore(members, a, b) ==> NamedBefore(members + [last], a, b)
    ensures a in members ==> NamedBefore(members + [last], a, last)
  {
    var more := members + [last];
    if NamedBefore(members, a, b) {
      var i, j :| 0 <= i < j < |members| && members[i] == a && members[j] == b;
      assert more[i] == a && more[j] == b;
    }
    if a in members {
      var i :| 0 <= i < |members| && members[i] == a;
      assert more[i] == a && more[|members|] == last;
    }
  }

  /** The pieces that removals or additions name for a group: each as often as they do, in their order. */
  lemma {:induction false} NamedOftenEnough(members: seq<Member>, id: Id)
    ensures forall p :: multiset(PiecesOf(members, id))[p] == multiset(members)[Member(id, p)]
  {
    if members != [] {
      var n := |members| - 1;
      assert members == members[..n] + [members[n]];
      NamedOftenEnough(members[..n], id);
    }
  }

  predicate InOrderNamed(ps: seq<Piece>, members: seq<Member>, id: Id)
  {
    forall i, j | 0 <= i < j < |ps| :: NamedBefore(members, Member(id, ps[i]), Member(id, ps[j]))
  }

  lemma {:induction false} NamedInOrder(members: seq<Member>, id: Id)
    ensures InOrderNamed(PiecesOf(members, id), members, id)
  {
    if members != [] {
      var n := |members| - 1;
      var front, last := members[..n], members[n];
      assert members == front + [last];
      NamedInOrder(front, id);
      var before, ps := PiecesOf(front, id), PiecesOf(members, id);
      hide NamedBefore;
      forall i, j | 0 <= i < j < |ps|
        ensures NamedBefore(members, Member(id, ps[i]), Member(id, ps[j]))
      {
        assert before[i] in before;
        NamedGrows(front, last, Member(id, ps[i]), Member(id, ps[j]));
        assert j < |before| ==> NamedBefore(front, Member(id, before[i]), Member(id, before[j]));
      }
    }
  }

  // ---------------------------------------------------------------------------- upserts

  /** An upsert that counts has an id, a folder and a list of pieces; the ids afterwards are those and the old ones, without the deleted. */
  lemma IdsAre(groups: seq<Group>, plan: Plan, id: Id)
    ensures (exists i | 0 <= i < |Synced(groups, plan)| :: Synced(groups, plan)[i].id == id) <==>
            && id !in plan.groupDeletes
            && ((exists i | 0 <= i < |groups| :: groups[i].id == id) ||
                exists u | u in plan.upserts :: u.groupId == id && id != "" && u.folderPath != "" && u.pieceIds.Some?)
  {
    IdsAfter(groups, plan, id);
    hide Synced;
  }

  /** What all upserts that count list for this id, one after the other. */
  function ListedFor(upserts: seq<Upsert>, id: Id): seq<Piece>
  {
    if upserts == [] then []
    else
      var last := upserts[|upserts| - 1];
      ListedFor(upserts[..|upserts| - 1], id) +
      if last.groupId == id && id != "" && last.folderPath != "" && last.pieceIds.Some? then last.pieceIds.value else []
  }

  lemma UnionStep(ps: seq<Piece>, x: Piece)
    ensures Distinct(ps + [x]) == if x in ps then Distinct(ps) else Distinct(ps) + [x]
  {
    assert (ps + [x])[..|ps|] == ps;
    hide NoRepeats;
  }

  lemma {:induction false} UnionInParts(ps: seq<Piece>, more: seq<Piece>)
    ensures Distinct(Distinct(ps) + more) == Distinct(ps + more)
  {
    hide Distinct, NoRepeats;
    if more == [] {
      assert Distinct(ps) + more == Distinct(ps) && ps + more == ps;
      DistinctSame(Distinct(ps));
    } else {
      var front, x := more[..|more| - 1], more[|more| - 1];
      UnionInParts(ps, front);
      UnionStep(ps + front, x);
      UnionStep(Distinct(ps) + front, x);
      assert more == front + [x];
      assert ps + more == (ps + front) + [x] && Distinct(ps) + more == (Distinct(ps) + front) + [x];
      assert x in ps + front <==> x in Distinct(ps) + front;
    }
  }

  lemma OneUpsertsPieces(groups: seq<Group>, u: Upsert, k: nat)
    requires k < |groups|
    ensures var next := UpsertOne(groups, u);
            && k < |next| && next[k].id == groups[k].id
            && next[k].pieceIds == if Usable(u) && u.groupId == groups[k].id then Distinct(groups[k].pieceIds + u.pieceIds.value)
                                   else groups[k].pieceIds
  {
    assert groups[k].id == u.groupId ==> HasId(groups, u.groupId);
    hide Distinct, Usable;
  }

  /** The same, as upserts come one by one. */
  function Unite(own: seq<Piece>, listed: seq<Piece>, named: bool): seq<Piece>
  {
    if named then Distinct(own + listed) else own
  }

  lemma UniteMore(own: seq<Piece>, listed: seq<Piece>, named: bool, more: seq<Piece>)
    requires !named ==> listed == []
    ensures Distinct(Unite(own, listed, named) + more) == Distinct(own + (listed + more))
  {
    assert own + (listed + more) == own + listed + more;
    if named {
      UnionInParts(own + listed, more);
    } else {
      assert own + listed == own;
    }
    hide Distinct;
  }

  /** A group that upserts name has, in this order and each once, its own pieces and then what they list. */
  lemma {:induction false} UpsertedPiecesAre(groups: seq<Group>, upserts: seq<Upsert>, k: nat)
    requires k < |groups|
    ensures var all, id := UpsertAll(groups, upserts), groups[k].id;
            && k < |all| && all[k].id == id
            && all[k].pieceIds == Unite(groups[k].pieceIds, ListedFor(upserts, id), UpsertNames(upserts, id))
    ensures !UpsertNames(upserts, groups[k].id) ==> ListedFor(upserts, groups[k].id) == []
  {
    hide UpsertNames, Unite, UpsertOne;
    if upserts == [] {
      NoneUnited(groups[k].pieceIds, groups[k].id);
    } else {
      var front, last := upserts[..|upserts| - 1], upserts[|upserts| - 1];
      var id := groups[k].id;
      UpsertedPiecesAre(groups, front, k);
      UpsertedStep(upserts, id, 0);
      OneUpsertsPieces(UpsertAll(groups, front), last, k);
      if Usable(last) && last.groupId == id {
        UniteMore(groups[k].pieceIds, ListedFor(front, id), UpsertNames(front, id), last.pieceIds.value);
        UnitedIs(groups[k].pieceIds, ListedFor(upserts, id));
      } else {
        assert ListedFor(upserts, id) == ListedFor(front, id);
      }
    }
  }

  lemma NoneUnited(own: seq<Piece>, id: Id)
    ensures !UpsertNames([], id) && Unite(own, [], UpsertNames([], id)) == own
  {
  }

  lemma UnitedIs(own: seq<Piece>, listed: seq<Piece>)
    ensures Unite(own, listed, true) == Distinct(own + listed)
  {
  }

  // ------------------------------------------------------------------------------ order

  /** Which of these groups the `i`th that is left was. */
  ghost function Source(groups: seq<Group>, doomed: seq<Id>, i: nat): (k: nat)
    requires i < |Deleted(groups, doomed)|
    ensures k < |groups| && groups[k].id !in doomed && Deleted(groups, doomed)[i] == Orphaned(groups[k], doomed)
  {
    var front := groups[..|groups| - 1];
    if i < |Deleted(front, doomed)| then Source(front, doomed, i) else |groups| - 1
  }

  lemma {:induction false} SourcesGoUp(groups: seq<Group>, doomed: seq<Id>, i: nat, j: nat)
    requires i < j < |Deleted(groups, doomed)|
    ensures Source(groups, doomed, i) < Source(groups, doomed, j)
  {
    var front := groups[..|groups| - 1];
    if j < |Deleted(front, doomed)| {
      SourcesGoUp(front, doomed, i, j);
    }
  }

  /** The first upsert that counts and names this id. */
  predicate FirstUpsert(upserts: seq<Upsert>, id: Id, n: nat)
  {
    && n < |upserts| && Usable(upserts[n]) && upserts[n].groupId == id
    && forall m | 0 <= m < n :: !(Usable(upserts[m]) && upserts[m].groupId == id)
  }

  /** New groups come in the order of their first upserts. */
  lemma {:induction false} NewInOrder(groups: seq<Group>, upserts: seq<Upsert>, k: nat) returns (n: nat)
    requires |groups| <= k < |UpsertAll(groups, upserts)|
    ensures FirstUpsert(upserts, UpsertAll(groups, upserts)[k].id, n)
    ensures forall l, m: nat | |groups| <= l < k && FirstUpsert(upserts, UpsertAll(groups, upserts)[l].id, m) :: m < n
  {
    var front, last := upserts[..|upserts| - 1], upserts[|upserts| - 1];
    var before, after := UpsertAll(groups, front), UpsertAll(groups, upserts);
    assert forall l | 0 <= l < |before| :: before[l].id == after[l].id;
    assert forall id, m: nat | m < |front| :: FirstUpsert(upserts, id, m) <==> FirstUpsert(front, id, m);
    if k < |before| {
      n := NewInOrder(groups, front, k);
      forall l, m: nat | |groups| <= l < k && FirstUpsert(upserts, after[l].id, m)
        ensures m < n
      {
        var m' := NewInOrder(groups, front, l);
        assert FirstUpsert(upserts, after[l].id, m');
      }
    } else {
      n := |front|;
      NewIdIsNew(groups, front, last.groupId);
      forall l, m: nat | |groups| <= l < k && FirstUpsert(upserts, after[l].id, m)
        ensures m < n
      {
        var m' := NewInOrder(groups, front, l);
        assert FirstUpsert(upserts, after[l].id, m');
      }
    }
  }

  /** Some upsert from the `n`th on counts and names this id. */
  predicate NamedFrom(upserts: seq<Upsert>, id: Id, n: nat)
  {
    exists m | n <= m < |upserts| :: Usable(upserts[m]) && upserts[m].groupId == id
  }

  /** What upserts make of an id that no group had: the first one's group, expanded and without a theme, with what all of them list. */
  predicate CreatedBy(h: Group, upserts: seq<Upsert>, n: nat)
  {
    && FirstUpsert(upserts, h.id, n)
    && h.name == upserts[n].name && h.folderPath == upserts[n].folderPath && h.parentId == upserts[n].parentId
    && h.look == Look(false, "", "", upserts[n].seedBounds, 0)
    && h.pieceIds == if NamedFrom(upserts, h.id, n + 1) then Distinct(ListedFor(upserts, h.id)) else ListedFor(upserts, h.id)
  }

  lemma StillFirst(upserts: seq<Upsert>, last: Upsert, id: Id, n: nat)
    requires FirstUpsert(upserts, id, n)
    ensures var more := upserts + [last];
            && FirstUpsert(more, id, n)
            && (NamedFrom(more, id, n + 1) <==> NamedFrom(upserts, id, n + 1) || (Usable(last) && last.groupId == id))
            && ListedFor(more, id) == if Usable(last) && last.groupId == id then ListedFor(upserts, id) + last.pieceIds.value else ListedFor(upserts, id)
  {
    var more := upserts + [last];
    assert more[..|more| - 1] == upserts && more[|upserts|] == last;
    if NamedFrom(more, id, n + 1) && !(Usable(last) && last.groupId == id) {
      var m :| n + 1 <= m < |more| && Usable(more[m]) && more[m].groupId == id;
      assert upserts[m] == more[m];
    }
    if NamedFrom(upserts, id, n + 1) {
      var m :| n + 1 <= m < |upserts| && Usable(upserts[m]) && upserts[m].groupId == id;
      assert upserts[m] == more[m];
    }
  }

  lemma CreatedStep(h: Group, upserts: seq<Upsert>, last: Upsert, n: nat)
    requires CreatedBy(h, upserts, n)
    ensures CreatedBy(if Usable(last) && last.groupId == h.id then Joined(h, last.pieceIds.value) else h, upserts + [last], n)
  {
    hide FirstUpsert, NamedFrom, ListedFor, Distinct;
    StillFirst(upserts, last, h.id, n);
    assert n < |upserts| by {
      FirstIsThere(upserts, h.id, n);
    }
    assert (upserts + [last])[n] == upserts[n];
    if Usable(last) && last.groupId == h.id {
      UnionInParts(ListedFor(upserts, h.id), last.pieceIds.value);
    }
  }

  lemma FirstIsThere(upserts: seq<Upsert>, id: Id, n: nat)
    requires FirstUpsert(upserts, id, n)
    ensures n < |upserts|
  {
  }

  lemma CreatedFirst(upserts: seq<Upsert>, last: Upsert)
    requires Usable(last) && !UpsertNames(upserts, last.groupId)
    ensures CreatedBy(Fresh(last), upserts + [last], |upserts|)
  {
    var more := upserts + [last];
    assert more[..|more| - 1] == upserts;
    NoneListed(upserts, last.groupId);
    assert !NamedFrom(more, last.groupId, |upserts| + 1);
    hide Distinct, UpsertNames;
  }

  lemma {:induction false} AppendedIs(groups: seq<Group>, upserts: seq<Upsert>, k: nat) returns (n: nat)
    requires |groups| <= k < |UpsertAll(groups, upserts)|
    ensures CreatedBy(UpsertAll(groups, upserts)[k], upserts, n)
  {
    var front, last := upserts[..|upserts| - 1], upserts[|upserts| - 1];
    assert upserts == front + [last];
    var before := UpsertAll(groups, front);
    hide Distinct, Usable, CreatedBy;
    if k < |before| {
      n := AppendedIs(groups, front, k);
      CreatedStep(before[k], front, last, n);
      assert before[k].id == last.groupId ==> HasId(before, last.groupId);
    } else {
      n := |front|;
      NewIdIsNew(groups, front, last.groupId);
      CreatedFirst(front, last);
    }
  }

  lemma {:induction false} NoneListed(upserts: seq<Upsert>, id: Id)
    requires !UpsertNames(upserts, id)
    ensures ListedFor(upserts, id) == []
    ensures forall m | 0 <= m < |upserts| :: !(Usable(upserts[m]) && upserts[m].groupId == id)
  {
    if upserts != [] {
      UpsertedStep(upserts, id, 0);
      NoneListed(upserts[..|upserts| - 1], id);
      hide UpsertNames;
    }
  }

  /** The same of a group that a plan made, its parent cleared if the plan deletes that. */
  lemma CreatedIs(groups: seq<Group>, plan: Plan, i: nat) returns (n: nat)
    requires i < |Synced(groups, plan)| && !HasId(groups, Synced(groups, plan)[i].id)
    ensures var h := Synced(groups, plan)[i];
            && FirstUpsert(plan.upserts, h.id, n)
            && var u := plan.upserts[n];
               h == Group(u.groupId, u.name, u.folderPath,
                          if NamedFrom(plan.upserts, h.id, n + 1) then Distinct(ListedFor(plan.upserts, h.id)) else ListedFor(plan.upserts, h.id),
                          if u.parentId in plan.groupDeletes then "" else u.parentId, Look(false, "", "", u.seedBounds, 0))
  {
    hide Distinct, ListedFor, NamedFrom, Deleted, UpsertAll, Edited, HasId, JoinOf;
    var edited := EditedAll(groups, plan);
    var all := UpsertAll(edited, plan.upserts);
    var k := DeletedFrom(all, plan.groupDeletes, i);
    if k < |groups| {
      OldIsOld(groups, plan, k);
      assert false;
    } else {
      n := AppendedIs(edited, plan.upserts, k);
    }
  }

  lemma OldIsOld(groups: seq<Group>, plan: Plan, k: nat)
    requires k < |groups|
    ensures var all := UpsertAll(EditedAll(groups, plan), plan.upserts);
            k < |all| && HasId(groups, all[k].id)
  {
    var edited := EditedAll(groups, plan);
    UpsertsKeep(edited, plan.upserts, k);
    assert HasId(edited, edited[k].id);
    SameIds(groups, plan, edited[k].id);
    hide UpsertAll, Edited;
  }

  /** Groups stay in their order, new ones after them: the groups afterwards come from ever later places. */
  lemma OrderAfter(groups: seq<Group>, plan: Plan, i: nat)
    requires i < |Synced(groups, plan)|
    ensures var k, h := Source(UpsertAll(EditedAll(groups, plan), plan.upserts), plan.groupDeletes, i), Synced(groups, plan)[i];
            && (k < |groups| ==> SyncOf(groups[k], h, plan))
            && (k >= |groups| ==> !HasId(groups, h.id))
            && forall j | i < j < |Synced(groups, plan)| ::
                 k < Source(UpsertAll(EditedAll(groups, plan), plan.upserts), plan.groupDeletes, j)
  {
    hide SyncOf, JoinOf, UpsertAll, Deleted, Edited, UpsertNames, HasId, Source, UpsertsOf;
    var edited := EditedAll(groups, plan);
    var all := UpsertAll(edited, plan.upserts);
    var k := Source(all, plan.groupDeletes, i);
    if k < |groups| {
      UpsertsKeep(edited, plan.upserts, k);
      KeptIsSynced(groups[k], edited[k], all[k], plan);
    } else {
      UpsertsAppend(edited, plan.upserts, k);
      SameIds(groups, plan, all[k].id);
    }
    forall j | i < j < |Synced(groups, plan)|
      ensures k < Source(all, plan.groupDeletes, j)
    {
      SourcesGoUp(all, plan.groupDeletes, i, j);
    }
  }
}
