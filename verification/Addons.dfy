/** Add-ons in execution order (src-tauri/src/scaffold_recipes.rs, `order_addons`). */
module Addons {
  type Id = string

  /** What each known add-on requires, and the order they run in. */
  datatype Registry = Registry(needs: map<Id, seq<Id>>, addonOrder: seq<Id>)

  /** No add-on requires itself, however indirectly: `rank` is smaller for what is required. */
  ghost predicate Acyclic(reg: Registry, rank: Id -> nat)
  {
    forall id, dep | id in reg.needs && dep in reg.needs[id] :: rank(dep) < rank(id)
  }

  /** Known add-ons, with every known prerequisite of each. */
  predicate Closed(reg: Registry, ids: set<Id>)
  {
    forall id | id in ids :: id in reg.needs && forall dep | dep in reg.needs[id] :: dep in reg.needs ==> dep in ids
  }

  predicate HasKnown(reg: Registry, selected: seq<Id>, ids: set<Id>)
  {
    forall id | id in selected :: id in reg.needs ==> id in ids
  }

  /** The least closed set with the known part of the selection. */
  ghost predicate Least(reg: Registry, selected: seq<Id>, ids: set<Id>)
  {
    && Closed(reg, ids) && HasKnown(reg, selected, ids)
    && forall other: set<Id> | Closed(reg, other) && HasKnown(reg, selected, other) :: ids <= other
  }

  function Picked(order: seq<Id>, ids: set<Id>): (picked: seq<Id>)
    ensures forall id :: id in picked <==> id in order && id in ids
  {
    if order == [] then []
    else
      var last := order[|order| - 1];
      Picked(order[..|order| - 1], ids) + if last in ids then [last] else []
  }

  function IdsOf(s: seq<Id>): set<Id>
  {
    set id | id in s
  }

  /** `visit`: what it adds is needed by every closed set that has the add-on and what was wanted before. */
  method Visit(reg: Registry, id: Id, sofar: seq<Id>, ghost rank: Id -> nat) returns (wanted: seq<Id>)
    requires Acyclic(reg, rank) && Closed(reg, IdsOf(sofar))
    ensures sofar <= wanted && Closed(reg, IdsOf(wanted))
    ensures id in reg.needs ==> id in wanted
    ensures forall other: set<Id> | Closed(reg, other) && IdsOf(sofar) <= other && (id in reg.needs ==> id in other) ::
              IdsOf(wanted) <= other
    decreases rank(id)
  {
    wanted := sofar;
    if id !in reg.needs || id in wanted {
      return;
    }
    var deps := reg.needs[id];
    for i := 0 to |deps|
      invariant sofar <= wanted && Closed(reg, IdsOf(wanted))
      invariant forall k | 0 <= k < i :: deps[k] in reg.needs ==> deps[k] in wanted
      invariant forall other: set<Id> | Closed(reg, other) && IdsOf(sofar) <= other && id in other :: IdsOf(wanted) <= other
    {
      assert deps[i] in deps;
      wanted := Visit(reg, deps[i], wanted, rank);
    }
    assert IdsOf(wanted + [id]) == IdsOf(wanted) + {id};
    wanted := wanted + [id];
  }

  /** The visits of a whole selection. */
  method VisitAll(reg: Registry, selected: seq<Id>, ghost rank: Id -> nat) returns (list: seq<Id>)
    requires Acyclic(reg, rank)
    ensures Least(reg, selected, IdsOf(list))
  {
    list := [];
    assert IdsOf([]) == {};
    for i := 0 to |selected|
      invariant Closed(reg, IdsOf(list))
      invariant forall k | 0 <= k < i :: selected[k] in reg.needs ==> selected[k] in list
      invariant forall other: set<Id> | Closed(reg, other) && HasKnown(reg, selected, other) :: IdsOf(list) <= other
    {
      assert selected[i] in selected;
      list := Visit(reg, selected[i], list, rank);
      hide Closed, Acyclic;
    }
  }

  /** `order_addons`: the known add-ons of the least closed set, in the registry's order. */
  method OrderAddons(reg: Registry, selected: seq<Id>, ghost rank: Id -> nat)
    returns (ordered: seq<Id>)
    requires Acyclic(reg, rank)
    ensures exists wanted: set<Id> :: Least(reg, selected, wanted) && ordered == Picked(reg.addonOrder, wanted)
  {
    hide Least;
    var list := VisitAll(reg, selected, rank);
    ghost var wanted := IdsOf(list);
    ordered := [];
    var order := reg.addonOrder;
    for j := 0 to |order|
      invariant ordered == Picked(order[..j], wanted)
    {
      assert order[..j + 1][..j] == order[..j];
      if order[j] in list {
        ordered := ordered + [order[j]];
      }
    }
    assert order[..|order|] == order;
  }

  // ------------------------------------------------------------------- the theorems

  /** Each add-on of a chain is known, and requires the next. */
  predicate Chain(reg: Registry, chain: seq<Id>)
  {
    && chain != [] && (forall i | 0 <= i < |chain| :: chain[i] in reg.needs)
    && forall i | 0 <= i < |chain| - 1 :: chain[i + 1] in reg.needs[chain[i]]
  }

  /** The selection needs an add-on: it is selected, or required by one that is, however indirectly. */
  ghost predicate Needed(reg: Registry, selected: seq<Id>, id: Id)
  {
    exists chain :: Chain(reg, chain) && chain[0] in selected && chain[|chain| - 1] == id
  }

  lemma {:induction false} ChainStaysIn(reg: Registry, chain: seq<Id>, ids: set<Id>)
    requires Closed(reg, ids) && Chain(reg, chain) && chain[0] in ids
    ensures chain[|chain| - 1] in ids
  {
    if |chain| > 1 {
      assert chain[1] in reg.needs[chain[0]];
      ChainStaysIn(reg, chain[1..], ids);
    }
  }

  lemma NeededGrows(reg: Registry, selected: seq<Id>, id: Id, dep: Id)
    requires Needed(reg, selected, id) && id in reg.needs && dep in reg.needs[id] && dep in reg.needs
    ensures Needed(reg, selected, dep)
  {
    var chain :| Chain(reg, chain) && chain[0] in selected && chain[|chain| - 1] == id;
    var longer := chain + [dep];
    assert Chain(reg, longer) && longer[0] in selected && longer[|longer| - 1] == dep;
  }

  /** The least closed set is exactly what the selection needs. */
  lemma LeastIsNeeded(reg: Registry, selected: seq<Id>, wanted: set<Id>)
    requires Least(reg, selected, wanted)
    ensures forall id :: id in wanted <==> Needed(reg, selected, id)
  {
    forall id | Needed(reg, selected, id)
      ensures id in wanted
    {
      var chain :| Chain(reg, chain) && chain[0] in selected && chain[|chain| - 1] == id;
      ChainStaysIn(reg, chain, wanted);
    }
    var needed := set id | id in wanted && Needed(reg, selected, id);
    forall id, dep | id in needed && dep in reg.needs[id] && dep in reg.needs
      ensures dep in needed
    {
      NeededGrows(reg, selected, id, dep);
    }
    forall id | id in selected && id in reg.needs
      ensures id in needed
    {
      assert Chain(reg, [id]) && [id][0] in selected;
    }
    assert Closed(reg, needed) && HasKnown(reg, selected, needed);
  }

  /** In an order, one add-on stands somewhere before another. */
  predicate Before(order: seq<Id>, a: Id, b: Id)
  {
    exists i, j | 0 <= i < j < |order| :: order[i] == a && order[j] == b
  }

  lemma BeforeGrows(order: seq<Id>, last: Id, a: Id, b: Id)
    ensures Before(order, a, b) ==> Before(order + [last], a, b)
    ensures a in order ==> Before(order + [last], a, last)
  {
    var more := order + [last];
    if Before(order, a, b) {
      var i, j :| 0 <= i < j < |order| && order[i] == a && order[j] == b;
      assert more[i] == a && more[j] == b;
    }
    if a in order {
      var i :| 0 <= i < |order| && order[i] == a;
      assert more[i] == a && more[|order|] == last;
    }
  }

  /** What is picked is in the registry's order, and each add-on as often as it is there. */
  lemma {:induction false} PickedInOrder(order: seq<Id>, ids: set<Id>)
    ensures var picked := Picked(order, ids);
            && (forall i, j | 0 <= i < j < |picked| :: Before(order, picked[i], picked[j]))
            && forall id :: multiset(picked)[id] == if id in ids then multiset(order)[id] else 0
  {
    if order != [] {
      var front, last := order[..|order| - 1], order[|order| - 1];
      assert order == front + [last];
      PickedInOrder(front, ids);
      var picked, all := Picked(front, ids), Picked(order, ids);
      forall i, j | 0 <= i < j < |all|
        ensures Before(order, all[i], all[j])
      {
        assert all[i] in picked;
        BeforeGrows(front, last, all[i], all[j]);
        assert j < |picked| ==> Before(front, picked[i], picked[j]);
      }
    }
  }

  /** The result depends only on which add-ons are selected, not on their order or repeats. */
  lemma OnlyTheSetCounts(reg: Registry, selected: seq<Id>, selected': seq<Id>, wanted: set<Id>, wanted': set<Id>)
    requires Least(reg, selected, wanted) && Least(reg, selected', wanted')
    requires IdsOf(selected) == IdsOf(selected')
    ensures wanted == wanted'
  {
    assert forall id :: id in selected <==> id in IdsOf(selected);
    assert forall id :: id in selected' <==> id in IdsOf(selected');
    assert HasKnown(reg, selected, wanted') && HasKnown(reg, selected', wanted);
  }

  /** Ordering the result again gives the result. */
  lemma OrderingAgain(reg: Registry, selected: seq<Id>, wanted: set<Id>, wanted': set<Id>)
    requires Least(reg, selected, wanted) && Least(reg, Picked(reg.addonOrder, wanted), wanted')
    ensures Picked(reg.addonOrder, wanted') == Picked(reg.addonOrder, wanted)
  {
    var result := Picked(reg.addonOrder, wanted);
    assert HasKnown(reg, result, wanted);
    assert wanted' <= wanted;
    SamePick(reg.addonOrder, wanted, wanted');
  }

  lemma {:induction false} SamePick(order: seq<Id>, ids: set<Id>, ids': set<Id>)
    requires forall id | id in order :: id in ids <==> id in ids'
    ensures Picked(order, ids) == Picked(order, ids')
  {
    if order != [] {
      assert order[|order| - 1] in order;
      SamePick(order[..|order| - 1], ids, ids');
    }
  }

  /** No add-on comes before one that it requires. */
  predicate PrerequisitesFirst(reg: Registry, order: seq<Id>)
  {
    forall i, j | 0 <= i <= j < |order| && order[i] in reg.needs :: order[j] !in reg.needs[order[i]]
  }

  /** Prerequisites come first whenever the registry's order has them first. */
  lemma {:induction false} PickedKeepsOrder(reg: Registry, order: seq<Id>, ids: set<Id>)
    requires PrerequisitesFirst(reg, order)
    ensures PrerequisitesFirst(reg, Picked(order, ids))
  {
    if order != [] {
      var front, last := order[..|order| - 1], order[|order| - 1];
      PickedKeepsOrder(reg, front, ids);
      var picked := Picked(front, ids);
      if last in ids {
        var all := picked + [last];
        forall i, j | 0 <= i <= j < |all| && all[i] in reg.needs
          ensures all[j] !in reg.needs[all[i]]
        {
          if i < |picked| <= j {
            assert picked[i] in picked;
            var k :| 0 <= k < |front| && front[k] == picked[i];
            assert order[|order| - 1] !in reg.needs[order[k]];
          }
        }
      }
    }
  }

  /** Every known prerequisite of a result is in it, if the registry's order has it at all. */
  lemma PrerequisitesArePulledIn(reg: Registry, selected: seq<Id>, wanted: set<Id>, id: Id, dep: Id)
    requires Least(reg, selected, wanted) && id in Picked(reg.addonOrder, wanted)
    requires id in reg.needs && dep in reg.needs[id] && dep in reg.needs && dep in reg.addonOrder
    ensures dep in Picked(reg.addonOrder, wanted)
  {
    assert Closed(reg, wanted);
  }
}
