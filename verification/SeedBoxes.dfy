/**
  The boxes drawn for the seeds of empty folders: a folder's box holds those of its subfolders
  (src/app/selectors/workspaceSelectors.js, `buildGroupBoundsWithDescendants`), padded and tabbed
  as WorkspaceStage.jsx draws it.
 */
module SeedBoxes {
  import opened Wrappers
  import opened SeedColumns
  import opened SeedLayout

  const NESTED_BOUNDS_CLEARANCE := 14.0
  const NESTED_TOP_CLEARANCE := 34.0

  // ------------------------------------------------------------------------ bounds

  /** `buildSeedBounds`. */
  function SeedBounds(r: Rect): Bounds
  {
    Bounds(r.x, r.y, r.x + r.width, r.y + r.height)
  }

  function Min(a: real, b: real): real
  {
    if b < a then b else a
  }

  function Max(a: real, b: real): real
  {
    if b > a then b else a
  }

  function Join(a: Bounds, b: Bounds): Bounds
  {
    Bounds(Min(a.minX, b.minX), Min(a.minY, b.minY), Max(a.maxX, b.maxX), Max(a.maxY, b.maxY))
  }

  /** Grown by the clearance of `levels` nestings. */
  function Inflated(b: Bounds, levels: int): Bounds
  {
    Bounds(b.minX - levels as real * NESTED_BOUNDS_CLEARANCE, b.minY - levels as real * NESTED_TOP_CLEARANCE,
           b.maxX + levels as real * NESTED_BOUNDS_CLEARANCE, b.maxY + levels as real * NESTED_BOUNDS_CLEARANCE)
  }

  predicate Encloses(a: Bounds, b: Bounds)
  {
    a.minX <= b.minX && a.minY <= b.minY && b.maxX <= a.maxX && b.maxY <= a.maxY
  }

  // ------------------------------------------------------------------------- depth

  /** How many empty folders of the pass a folder nests under. */
  ghost function Depth(folders: map<Path, Creation>, rank: Path -> nat, c: Creation): nat
    requires Acyclic(folders, rank)
    decreases rank(c.path)
  {
    if Found(folders, c) && Over(folders, c).Some? then Depth(folders, rank, Over(folders, c).value) + 1 else 0
  }

  ghost function Level(c: Creation, pass: Pass): nat
    requires Ready(pass)
  {
    Depth(pass.folders, pass.rank, c)
  }

  // ----------------------------------------------------------------------- the box

  /** A folder's seed, grown for every level between it and a folder at depth `base`. */
  ghost function Grown(d: Creation, base: int, seeds: map<Id, Rect>, pass: Pass): Bounds
    requires Ready(pass) && d.id in seeds
  {
    Inflated(SeedBounds(seeds[d.id]), Level(d, pass) - base)
  }

  /** The smallest bounds that hold the grown seeds of these folders. */
  ghost predicate Tight(b: Bounds, ds: set<Creation>, base: int, seeds: map<Id, Rect>, pass: Pass)
    requires Ready(pass) && forall d | d in ds :: d.id in seeds
  {
    && (forall d | d in ds :: Encloses(b, Grown(d, base, seeds, pass)))
    && (exists d | d in ds :: b.minX == Grown(d, base, seeds, pass).minX)
    && (exists d | d in ds :: b.minY == Grown(d, base, seeds, pass).minY)
    && (exists d | d in ds :: b.maxX == Grown(d, base, seeds, pass).maxX)
    && (exists d | d in ds :: b.maxY == Grown(d, base, seeds, pass).maxY)
  }

  /** A folder and all that nests under it. */
  ghost function Tree(c: Creation, pass: Pass): (ds: set<Creation>)
    requires Ready(pass)
    ensures forall d :: d in ds <==> d in pass.empties && Under(pass.folders, pass.rank, d, c)
  {
    set d | d in pass.empties && Under(pass.folders, pass.rank, d, c)
  }

  /** The bounds of a folder with all its subfolders: every seed below it, grown level by level, and nothing more. */
  ghost predicate IsBox(b: Bounds, c: Creation, seeds: map<Id, Rect>, pass: Pass)
    requires Ready(pass) && Seeded(seeds, pass)
  {
    Tight(b, Tree(c, pass), Level(c, pass), seeds, pass)
  }

  lemma OneIsTight(c: Creation, seeds: map<Id, Rect>, pass: Pass)
    requires Ready(pass) && c.id in seeds
    ensures Tight(SeedBounds(seeds[c.id]), {c}, Level(c, pass), seeds, pass)
  {
    assert c in {c} && Grown(c, Level(c, pass), seeds, pass) == SeedBounds(seeds[c.id]);
    hide Ready, Depth;
  }

  lemma JoinIsTight(a: Bounds, ds: set<Creation>, b: Bounds, es: set<Creation>, base: int, seeds: map<Id, Rect>, pass: Pass)
    requires Ready(pass) && forall d | d in ds + es :: d.id in seeds
    requires Tight(a, ds, base, seeds, pass) && Tight(b, es, base, seeds, pass)
    ensures Tight(Join(a, b), ds + es, base, seeds, pass)
  {
    hide Ready, Grown;
    var b' := Join(a, b);
    var d0 :| d0 in ds && a.minX == Grown(d0, base, seeds, pass).minX;
    var d1 :| d1 in ds && a.minY == Grown(d1, base, seeds, pass).minY;
    var d2 :| d2 in ds && a.maxX == Grown(d2, base, seeds, pass).maxX;
    var d3 :| d3 in ds && a.maxY == Grown(d3, base, seeds, pass).maxY;
    var e0 :| e0 in es && b.minX == Grown(e0, base, seeds, pass).minX;
    var e1 :| e1 in es && b.minY == Grown(e1, base, seeds, pass).minY;
    var e2 :| e2 in es && b.maxX == Grown(e2, base, seeds, pass).maxX;
    var e3 :| e3 in es && b.maxY == Grown(e3, base, seeds, pass).maxY;
    assert (d0 in ds + es && e0 in ds + es) && (d1 in ds + es && e1 in ds + es);
    assert (d2 in ds + es && e2 in ds + es) && (d3 in ds + es && e3 in ds + es);
  }

  lemma OneLevelUp(d: Creation, base: int, seeds: map<Id, Rect>, pass: Pass)
    requires Ready(pass) && d.id in seeds
    ensures Grown(d, base, seeds, pass) == Inflated(Grown(d, base + 1, seeds, pass), 1)
  {
    hide Ready, Depth;
  }

  lemma InflatedIsTight(b: Bounds, ds: set<Creation>, base: int, seeds: map<Id, Rect>, pass: Pass)
    requires Ready(pass) && (forall d | d in ds :: d.id in seeds) && Tight(b, ds, base + 1, seeds, pass)
    ensures Tight(Inflated(b, 1), ds, base, seeds, pass)
  {
    hide Ready, Grown;
    forall d | d in ds
      ensures Grown(d, base, seeds, pass) == Inflated(Grown(d, base + 1, seeds, pass), 1)
    {
      OneLevelUp(d, base, seeds, pass);
    }
    var d0 :| d0 in ds && b.minX == Grown(d0, base + 1, seeds, pass).minX;
    var d1 :| d1 in ds && b.minY == Grown(d1, base + 1, seeds, pass).minY;
    var d2 :| d2 in ds && b.maxX == Grown(d2, base + 1, seeds, pass).maxX;
    var d3 :| d3 in ds && b.maxY == Grown(d3, base + 1, seeds, pass).maxY;
    assert Inflated(b, 1).minX == Grown(d0, base, seeds, pass).minX;
    assert Inflated(b, 1).minY == Grown(d1, base, seeds, pass).minY;
    assert Inflated(b, 1).maxX == Grown(d2, base, seeds, pass).maxX;
    assert Inflated(b, 1).maxY == Grown(d3, base, seeds, pass).maxY;
  }

  // ---------------------------------------------------------------------- the walk

  /** What the walk of a group has reached once the first `k` groups were looked at. */
  ghost predicate Reached(ds: set<Creation>, c: Creation, groups: seq<Creation>, k: nat, pass: Pass)
    requires Ready(pass) && k <= |groups|
  {
    forall d :: d in ds <==> d == c || (d in pass.empties && exists m | 0 <= m < k ::
                  RightBelow(pass.folders, groups[m], c) && Under(pass.folders, pass.rank, d, groups[m]))
  }

  /** The groups of the pass, in any order. */
  ghost predicate Groups(groups: seq<Creation>, pass: Pass)
  {
    NoRepeats(groups) && forall c: Creation :: c in groups <==> c in pass.empties
  }

  lemma ReachedAll(ds: set<Creation>, c: Creation, groups: seq<Creation>, pass: Pass)
    requires Ready(pass) && Groups(groups, pass) && c in pass.empties && Reached(ds, c, groups, |groups|, pass)
    ensures ds == Tree(c, pass)
  {
    forall d
      ensures d in ds <==> d in Tree(c, pass)
    {
      ReachedIffUnder(ds, c, d, groups, pass);
    }
  }

  lemma ReachedIffUnder(ds: set<Creation>, c: Creation, d: Creation, groups: seq<Creation>, pass: Pass)
    requires Ready(pass) && Groups(groups, pass) && c in pass.empties && Reached(ds, c, groups, |groups|, pass)
    ensures d in ds <==> d in Tree(c, pass)
  {
    var folders, rank := pass.folders, pass.rank;
    if d in pass.empties && d != c && Under(folders, rank, d, c) {
      UnderSplits(folders, rank, d, c);
      var child :| RightBelow(folders, child, c) && Under(folders, rank, d, child) && Found(folders, child);
      assert child in groups;
      var m :| 0 <= m < |groups| && groups[m] == child;
    }
    if d in ds && d != c {
      var m :| 0 <= m < |groups| && RightBelow(folders, groups[m], c) && Under(folders, rank, d, groups[m]);
      assert groups[m] in groups;
      UnderThrough(folders, rank, d, groups[m], c);
    }
  }

  lemma ReachMore(ds: set<Creation>, c: Creation, groups: seq<Creation>, k: nat, pass: Pass)
    requires Ready(pass) && k < |groups| && Reached(ds, c, groups, k, pass)
    ensures RightBelow(pass.folders, groups[k], c) ==> Reached(ds + Tree(groups[k], pass), c, groups, k + 1, pass)
    ensures !RightBelow(pass.folders, groups[k], c) ==> Reached(ds, c, groups, k + 1, pass)
  {
    hide Ready, Under, RightBelow;
  }

  /** No walk has been at what nests under the next child. */
  lemma NotReached(ds: set<Creation>, c: Creation, groups: seq<Creation>, k: nat, d: Creation, pass: Pass)
    requires Ready(pass) && Groups(groups, pass) && k < |groups| && RightBelow(pass.folders, groups[k], c)
    requires Reached(ds, c, groups, k, pass) && Under(pass.folders, pass.rank, d, groups[k])
    ensures d !in ds && Under(pass.folders, pass.rank, d, c)
  {
    var folders, rank := pass.folders, pass.rank;
    assert groups[k] in groups;
    UnderThrough(folders, rank, d, groups[k], c);
    if d == c {
      UnderHasRank(folders, rank, c, groups[k]);
      assert false;
    } else if d in ds {
      var m :| 0 <= m < k && RightBelow(folders, groups[m], c) && Under(folders, rank, d, groups[m]);
      UnderIsUnique(folders, rank, d, groups[m], groups[k]);
      assert false;
    }
  }

  /** The cycle guard has met nothing of a folder's tree. */
  ghost predicate Clear(seen: set<Id>, c: Creation, pass: Pass)
    requires Ready(pass)
  {
    forall d | d in Tree(c, pass) :: d.id !in seen
  }

  ghost function Ids(ds: set<Creation>): (ids: set<Id>)
    ensures forall d | d in ds :: d.id in ids
    ensures forall id | id in ids :: exists d | d in ds :: d.id == id
  {
    set d | d in ds :: d.id
  }

  lemma IdsJoin(ds: set<Creation>, es: set<Creation>)
    ensures Ids(ds + es) == Ids(ds) + Ids(es)
  {
  }

  /** The guard is still clear of the next child's tree. */
  lemma StillClear(seen: set<Id>, ds: set<Creation>, c: Creation, groups: seq<Creation>, k: nat, pass: Pass)
    requires Ready(pass) && Groups(groups, pass) && k < |groups| && RightBelow(pass.folders, groups[k], c)
    requires c in pass.empties && Reached(ds, c, groups, k, pass) && Clear(seen, c, pass)
    ensures Clear(seen + Ids(ds), groups[k], pass)
  {
    forall d | d in Tree(groups[k], pass)
      ensures d.id !in seen + Ids(ds)
    {
      NotReached(ds, c, groups, k, d, pass);
      forall e | e in ds
        ensures e.id != d.id
      {
        assert e in pass.empties && e != d;
      }
    }
  }

  /**
    `buildGroupBoundsWithDescendants` for a group without pieces: its own seed, joined with the
    inflated bounds of each child group. Where the cycle guard is clear, which it is at the first
    call, the bounds are the box of the whole tree, and the guard has then met exactly that tree.
   */
  method BoundsWithDescendants(group: Creation, groups: seq<Creation>, seeds: map<Id, Rect>, seen: set<Id>,
                               folders: map<Path, Creation>, ghost pass: Pass)
    returns (bounds: Bounds, seen': set<Id>)
    requires Ready(pass) && folders == pass.folders && Seeded(seeds, pass) && Groups(groups, pass) && group in pass.empties
    ensures group.id in seen ==> bounds == SeedBounds(seeds[group.id]) && seen' == seen
    ensures Clear(seen, group, pass) ==> IsBox(bounds, group, seeds, pass) && seen' == seen + Ids(Tree(group, pass))
    decreases pass.bound - pass.rank(group.path)
  {
    hide Tight, Reached, Clear, Acyclic, Listing, Nested, IdsDiffer, Roomy, RightBelow, Over, Under, Tree, NoRepeats, Ids, Inflated, Join;
    var own := SeedBounds(seeds[group.id]);
    if group.id in seen {
      SeenIsNotClear(seen, group, pass);
      return own, seen;
    }
    bounds, seen' := own, seen + {group.id};
    ghost var ds := {group};
    ghost var base := Level(group, pass);
    OneIsTight(group, seeds, pass);
    ReachedOne(group, groups, pass);
    for k := 0 to |groups|
      invariant Reached(ds, group, groups, k, pass) && forall d | d in ds :: d.id in seeds
      invariant Clear(seen, group, pass) ==> Tight(bounds, ds, base, seeds, pass) && seen' == seen + Ids(ds)
    {
      var child := groups[k];
      ReachMore(ds, group, groups, k, pass);
      if Over(folders, child) == Some(group) {
        ChildIsBelow(child, group, groups, k, pass);
        var childBounds;
        ghost var before, es := seen', Tree(child, pass);
        childBounds, seen' := BoundsWithDescendants(child, groups, seeds, seen', folders, pass);
        TreeIsSeeded(child, seeds, pass);
        if Clear(seen, group, pass) {
          StillClear(seen, ds, group, groups, k, pass);
          InflatedIsTight(childBounds, es, base, seeds, pass);
          JoinIsTight(bounds, ds, Inflated(childBounds, 1), es, base, seeds, pass);
          IdsJoin(ds, es);
        }
        bounds := Join(bounds, Inflated(childBounds, 1));
        ds := ds + es;
      } else {
        NotBelow(child, group, pass);
      }
    }
    ReachedAll(ds, group, groups, pass);
  }

  lemma SeenIsNotClear(seen: set<Id>, c: Creation, pass: Pass)
    requires Ready(pass) && c in pass.empties && c.id in seen
    ensures !Clear(seen, c, pass)
  {
    assert c in Tree(c, pass);
  }

  lemma ReachedOne(c: Creation, groups: seq<Creation>, pass: Pass)
    requires Ready(pass)
    ensures Reached({c}, c, groups, 0, pass) && Ids({c}) == {c.id}
  {
    hide Ready, Under, RightBelow;
  }

  lemma ChildIsBelow(child: Creation, c: Creation, groups: seq<Creation>, k: nat, pass: Pass)
    requires Ready(pass) && Groups(groups, pass) && k < |groups| && child == groups[k] && Over(pass.folders, child) == Some(c)
    ensures RightBelow(pass.folders, child, c) && child in pass.empties
    ensures pass.rank(c.path) < pass.rank(child.path) <= pass.bound
    ensures Level(child, pass) == Level(c, pass) + 1
  {
    assert child in groups;
    RankGrows(pass.folders, pass.rank, child, c);
  }

  lemma NotBelow(child: Creation, c: Creation, pass: Pass)
    requires Over(pass.folders, child) != Some(c)
    ensures !RightBelow(pass.folders, child, c)
  {
  }

  lemma TreeIsSeeded(c: Creation, seeds: map<Id, Rect>, pass: Pass)
    requires Ready(pass) && Seeded(seeds, pass)
    ensures forall d | d in Tree(c, pass) :: d.id in seeds
  {
  }

  // -------------------------------------------------------------------- what is drawn

  /** Padding around a box: a group with a parent is drawn wider. */
  function BoxPad(hasParent: bool): real
  {
    if hasParent then OUTLINE_PAD + NEST_PAD else OUTLINE_PAD
  }

  /** The outline of a box. */
  function Outline(b: Bounds, hasParent: bool): Bounds
  {
    var pad := BoxPad(hasParent);
    Bounds(b.minX - pad, b.minY - pad, b.maxX + pad, b.maxY + pad)
  }

  /** The outline with its tab above, as the reconciliation measures drawn boxes. */
  function DrawnBox(b: Bounds, hasParent: bool): Bounds
  {
    var o := Outline(b, hasParent);
    o.(minY := o.minY - TAB_HEIGHT)
  }

  /** No interior point in common. */
  predicate BoxesApart(a: Bounds, b: Bounds)
  {
    a.maxX <= b.minX || b.maxX <= a.minX || a.maxY <= b.minY || b.maxY <= a.minY
  }

  // ------------------------------------------------------------------------- nesting

  /** A subfolder's tree, grown once more, lies in its parent's bounds. */
  lemma ParentBoundsEnclose(c: Creation, p: Creation, inner: Bounds, outer: Bounds, seeds: map<Id, Rect>, pass: Pass)
    requires Ready(pass) && Seeded(seeds, pass) && c in pass.empties && RightBelow(pass.folders, c, p)
    requires IsBox(inner, c, seeds, pass) && IsBox(outer, p, seeds, pass)
    ensures Encloses(outer, Inflated(inner, 1))
  {
    hide Ready, Tree, Grown, Over, Found, Level, Inflated, Seeded, IsBox, Under;
    TreeIsSeeded(c, seeds, pass);
    TreeIsSeeded(p, seeds, pass);
    SubtreeIsPart(c, p, pass);
    BoxIsTight(inner, c, seeds, pass);
    BoxIsTight(outer, p, seeds, pass);
    InflatedIsTight(inner, Tree(c, pass), Level(p, pass), seeds, pass);
    hide RightBelow;
  }

  lemma SubtreeIsPart(c: Creation, p: Creation, pass: Pass)
    requires Ready(pass) && c in pass.empties && RightBelow(pass.folders, c, p)
    ensures Tree(c, pass) <= Tree(p, pass) && Level(c, pass) == Level(p, pass) + 1
  {
    forall d | d in Tree(c, pass)
      ensures d in Tree(p, pass)
    {
      UnderThrough(pass.folders, pass.rank, d, c, p);
    }
  }

  lemma BoxIsTight(b: Bounds, c: Creation, seeds: map<Id, Rect>, pass: Pass)
    requires Ready(pass) && Seeded(seeds, pass) && IsBox(b, c, seeds, pass)
    ensures (forall d | d in Tree(c, pass) :: d.id in seeds) && Tight(b, Tree(c, pass), Level(c, pass), seeds, pass)
  {
  }

  /**
    A parent's box encloses its children's, tabs included, with a gutter on every side, however
    deep they nest and whether or not the parent has a parent.
   */
  lemma ParentEncloses(c: Creation, p: Creation, inner: Bounds, outer: Bounds, hasParent: bool, seeds: map<Id, Rect>, pass: Pass)
    requires Ready(pass) && Seeded(seeds, pass) && c in pass.empties && RightBelow(pass.folders, c, p)
    requires IsBox(inner, c, seeds, pass) && IsBox(outer, p, seeds, pass)
    ensures var room, box := Outline(outer, hasParent), DrawnBox(inner, true);
            && room.minX + 6.0 <= box.minX && room.minY + 6.0 <= box.minY
            && box.maxX <= room.maxX - 6.0 && box.maxY <= room.maxY - 6.0
  {
    ParentBoundsEnclose(c, p, inner, outer, seeds, pass);
    hide Ready, IsBox, RightBelow;
  }

  // ---------------------------------------------------------------- columns of boxes

  lemma HeadRow(p: Placement, pass: Pass)
    requires Ready(pass) && ColumnDone(p, pass)
    ensures p.column.rows != [] && p.column.rows[0].dx == 0.0 && Level(p.column.rows[0].of, pass) == 0
  {
    HeadsAreFree(pass, p.column.rows[0].of);
  }

  lemma RowHangs(p: Placement, i: nat, pass: Pass) returns (j: nat)
    requires Ready(pass) && ColumnDone(p, pass) && 0 < i < |p.column.rows|
    ensures j < i && p.column.rows[i].dx == p.column.rows[j].dx + pass.m.spacing.indent
    ensures Level(p.column.rows[i].of, pass) == Level(p.column.rows[j].of, pass) + 1
  {
    var rows, folders := p.column.rows, pass.folders;
    assert ColumnFor(p.column, rows[0].of, folders, pass.empties, pass.rank, pass.m);
    RowsAreFound(p, i, folders, pass.empties, pass.rank);
    HangsBack(rows, i, folders, pass.m.spacing.indent);
    hide Ready, ColumnFor, ColumnDone, Depth, RightBelow;
    j :| 0 <= j < i && RightBelow(folders, rows[i].of, rows[j].of) && rows[i].dx == rows[j].dx + pass.m.spacing.indent;
    DepthBelow(rows[i].of, rows[j].of, pass);
  }

  /** A row's offset is its folder's depth below the head, and it has at least that many rows above. */
  lemma {:induction false} RowDepth(p: Placement, i: nat, pass: Pass)
    requires Ready(pass) && ColumnDone(p, pass) && i < |p.column.rows|
    ensures var depth := Level(p.column.rows[i].of, pass);
            depth <= i && p.column.rows[i].dx == depth as real * pass.m.spacing.indent
    decreases i
  {
    hide Ready, ColumnDone, Depth;
    if i == 0 {
      HeadRow(p, pass);
    } else {
      var j := RowHangs(p, i, pass);
      RowDepth(p, j, pass);
      Deeper(Level(p.column.rows[j].of, pass), pass.m.spacing.indent);
    }
  }

  lemma DepthBelow(c: Creation, p: Creation, pass: Pass)
    requires Ready(pass) && c in pass.empties && RightBelow(pass.folders, c, p)
    ensures Level(c, pass) == Level(p, pass) + 1
  {
  }

  /** The deepest nesting in a column. */
  ghost predicate IsDeepest(levels: nat, p: Placement, pass: Pass)
    requires Ready(pass)
  {
    && (forall i | 0 <= i < |p.column.rows| :: Level(p.column.rows[i].of, pass) <= levels)
    && exists i | 0 <= i < |p.column.rows| :: Level(p.column.rows[i].of, pass) == levels
  }

  /** What the grown seed of a row covers, from the column's corner. */
  lemma RowGrown(p: Placement, i: nat, seeds: map<Id, Rect>, pass: Pass)
    requires Ready(pass) && ColumnDone(p, pass) && Shown(seeds, p, pass.m) && i < |p.column.rows|
    ensures p.column.rows[i].of.id in seeds && Level(p.column.rows[0].of, pass) == 0
    ensures var row := p.column.rows[i];
            var levels := Level(row.of, pass) as real;
            var g := Grown(row.of, 0, seeds, pass);
            && g.minX == p.x + row.dx - levels * NESTED_BOUNDS_CLEARANCE && g.minY == p.y + row.dy - levels * NESTED_TOP_CLEARANCE
            && g.maxX == p.x + row.dx + pass.m.width + levels * NESTED_BOUNDS_CLEARANCE
            && g.maxY == p.y + row.dy + pass.m.height + levels * NESTED_BOUNDS_CLEARANCE
  {
    HeadRow(p, pass);
    hide Ready, ColumnDone, Depth;
  }

  /** The rows of a column are the tree of its head. */
  lemma ColumnIsTree(p: Placement, pass: Pass)
    requires Ready(pass) && ColumnDone(p, pass)
    ensures forall d :: d in Tree(p.column.rows[0].of, pass) <==> Lists(p.column.rows, 0, d)
  {
    HeadsAreFree(pass, p.column.rows[0].of);
    hide Indented, Pitched, Acyclic, Listing, Nested, Covers, Snug, RowsDiffer, Found, Over, Under, Lists;
  }

  lemma RowInColumn(p: Placement, i: nat, pass: Pass)
    requires Ready(pass) && ColumnDone(p, pass) && i < |p.column.rows|
    ensures Roomy(pass.m) && p.column.rows[i].dy == i as real * pass.m.spacing.pitch
    ensures p.column.rows[i].dx <= p.column.width - pass.m.width && p.column.rows[i].dy <= p.column.height - pass.m.height
  {
    HeadsAreFree(pass, p.column.rows[0].of);
    hide Indented, Walked, Acyclic, Listing, Nested, Snug;
  }

  lemma TimesAtLeast(a: nat, b: nat, small: real, large: real)
    requires a <= b && 0.0 <= small <= large
    ensures a as real * small <= b as real * large
  {
    MulMono(a as real, b as real, large);
    MulMono(small, large, a as real);
  }

  /** Indent and pitch make up for the clearances. */
  lemma CornersHold(levels: nat, i: nat, spacing: Spacing)
    requires levels <= i && spacing.indent >= NESTED_BOUNDS_CLEARANCE && spacing.pitch >= NESTED_TOP_CLEARANCE
    ensures levels as real * spacing.indent >= levels as real * NESTED_BOUNDS_CLEARANCE
    ensures i as real * spacing.pitch >= levels as real * NESTED_TOP_CLEARANCE
  {
    TimesAtLeast(levels, levels, NESTED_BOUNDS_CLEARANCE, spacing.indent);
    TimesAtLeast(levels, i, NESTED_TOP_CLEARANCE, spacing.pitch);
  }

  /** Nothing of a head's box is left of its seed or above it. */
  lemma RowRightAndBelow(p: Placement, i: nat, seeds: map<Id, Rect>, pass: Pass)
    requires Ready(pass) && ColumnDone(p, pass) && Shown(seeds, p, pass.m) && i < |p.column.rows|
    ensures p.column.rows[i].of.id in seeds
    ensures var g := Grown(p.column.rows[i].of, 0, seeds, pass); g.minX >= p.x && g.minY >= p.y
  {
    hide Ready, ColumnDone, Level, Grown, Shown;
    RowGrown(p, i, seeds, pass);
    RowDepth(p, i, pass);
    RowInColumn(p, i, pass);
    CornersHold(Level(p.column.rows[i].of, pass), i, pass.m.spacing);
  }

  /** Right and down a row's grown seed exceeds the column by a clearance a level at most. */
  lemma RowWithin(p: Placement, i: nat, levels: nat, seeds: map<Id, Rect>, pass: Pass)
    requires Ready(pass) && ColumnDone(p, pass) && Shown(seeds, p, pass.m) && i < |p.column.rows|
    requires Level(p.column.rows[i].of, pass) <= levels
    ensures p.column.rows[i].of.id in seeds
    ensures var g := Grown(p.column.rows[i].of, 0, seeds, pass);
            && g.maxX <= p.x + p.column.width + levels as real * NESTED_BOUNDS_CLEARANCE
            && g.maxY <= p.y + p.column.height + levels as real * NESTED_BOUNDS_CLEARANCE
  {
    hide Ready, ColumnDone, Level, Grown, Shown;
    RowGrown(p, i, seeds, pass);
    RowInColumn(p, i, pass);
  }

  /** The deepest row is the rightmost, and ends where the column does. */
  lemma DeepestIsWidest(p: Placement, i: nat, levels: nat, pass: Pass)
    requires Ready(pass) && ColumnDone(p, pass) && IsDeepest(levels, p, pass) && i < |p.column.rows|
    requires Level(p.column.rows[i].of, pass) == levels
    ensures p.column.width == p.column.rows[i].dx + pass.m.width
  {
    hide Ready, ColumnDone, Level, Roomy;
    var k := WidestRow(p, pass);
    var deep, wide := Level(p.column.rows[i].of, pass), Level(p.column.rows[k].of, pass);
    assert wide <= deep;
    hide IsDeepest;
    RowInColumn(p, i, pass);
    RowDepth(p, i, pass);
    RowDepth(p, k, pass);
    WiderIfDeeper(wide, deep, pass.m);
  }

  lemma WiderIfDeeper(wide: nat, deep: nat, m: Measure)
    requires wide <= deep && Roomy(m)
    ensures wide as real * m.spacing.indent <= deep as real * m.spacing.indent
  {
    MulMono(wide as real, deep as real, m.spacing.indent);
  }

  lemma WidestRow(p: Placement, pass: Pass) returns (k: nat)
    requires Ready(pass) && ColumnDone(p, pass)
    ensures k < |p.column.rows| && p.column.width == p.column.rows[k].dx + pass.m.width
  {
    HeadsAreFree(pass, p.column.rows[0].of);
    assert Snug(p.column, pass.m);
    hide Ready, ColumnDone;
    k :| 0 <= k < |p.column.rows| && p.column.width == p.column.rows[k].dx + pass.m.width;
  }

  /** A head's box starts at its seed's corner; right and down it exceeds the column by a clearance a level at most. */
  lemma HeadBox(p: Placement, b: Bounds, levels: nat, seeds: map<Id, Rect>, pass: Pass)
    requires Ready(pass) && Seeded(seeds, pass) && ColumnDone(p, pass) && Shown(seeds, p, pass.m)
    requires IsBox(b, p.column.rows[0].of, seeds, pass) && IsDeepest(levels, p, pass)
    ensures b.minX == p.x && b.minY == p.y
    ensures b.maxX == p.x + p.column.width + levels as real * NESTED_BOUNDS_CLEARANCE
    ensures b.maxY <= p.y + p.column.height + levels as real * NESTED_BOUNDS_CLEARANCE
  {
    hide Ready, ColumnDone, Level, Grown, Shown, Tree, Seeded;
    var head := p.column.rows[0].of;
    HeadRow(p, pass);
    TreeIsSeeded(head, seeds, pass);
    forall d | d in Tree(head, pass)
      ensures GrownWithin(d, p, levels, seeds, pass)
    {
      TreeWithin(d, p, levels, seeds, pass);
    }
    var i := DeepestRow(p, levels, pass);
    RowInTree(p, 0, pass);
    RowInTree(p, i, pass);
    RowGrown(p, 0, seeds, pass);
    RowGrown(p, i, seeds, pass);
    RowInColumn(p, 0, pass);
    DeepestIsWidest(p, i, levels, pass);
  }

  /** A grown seed lies right of and below the column's corner, and past its far corner by so many levels at most. */
  ghost predicate GrownWithin(d: Creation, p: Placement, levels: nat, seeds: map<Id, Rect>, pass: Pass)
    requires Ready(pass) && d.id in seeds
  {
    var g := Grown(d, 0, seeds, pass);
    && g.minX >= p.x && g.minY >= p.y
    && g.maxX <= p.x + p.column.width + levels as real * NESTED_BOUNDS_CLEARANCE
    && g.maxY <= p.y + p.column.height + levels as real * NESTED_BOUNDS_CLEARANCE
  }

  lemma TreeWithin(d: Creation, p: Placement, levels: nat, seeds: map<Id, Rect>, pass: Pass)
    requires Ready(pass) && ColumnDone(p, pass) && Shown(seeds, p, pass.m) && IsDeepest(levels, p, pass)
    requires d in Tree(p.column.rows[0].of, pass)
    ensures d.id in seeds && GrownWithin(d, p, levels, seeds, pass)
  {
    hide Ready, ColumnDone, Level, Grown, Shown, Tree;
    ColumnIsTree(p, pass);
    assert Lists(p.column.rows, 0, d);
    var i :| 0 <= i < |p.column.rows| && p.column.rows[i].of == d;
    RowRightAndBelow(p, i, seeds, pass);
    RowWithin(p, i, levels, seeds, pass);
  }

  lemma RowInTree(p: Placement, i: nat, pass: Pass)
    requires Ready(pass) && ColumnDone(p, pass) && i < |p.column.rows|
    ensures p.column.rows[i].of in Tree(p.column.rows[0].of, pass)
  {
    hide Ready, ColumnDone, Tree;
    ColumnIsTree(p, pass);
    assert Lists(p.column.rows, 0, p.column.rows[i].of);
  }

  lemma DeepestRow(p: Placement, levels: nat, pass: Pass) returns (i: nat)
    requires Ready(pass) && IsDeepest(levels, p, pass)
    ensures i < |p.column.rows| && Level(p.column.rows[i].of, pass) == levels
  {
    hide Ready, Level;
    i :| 0 <= i < |p.column.rows| && Level(p.column.rows[i].of, pass) == levels;
  }

  /**
    The free-spot search keeps clear of a column's footprint. That covers the box drawn for the
    column's head, with all its subfolders, exactly if no folder nests deeper than one level
    below a head without a parent, and none nests at all below a head with one.
   */
  lemma FootprintCoversIff(p: Placement, b: Bounds, levels: nat, hasParent: bool, seeds: map<Id, Rect>, pass: Pass)
    requires Ready(pass) && Seeded(seeds, pass) && ColumnDone(p, pass) && Shown(seeds, p, pass.m)
    requires IsBox(b, p.column.rows[0].of, seeds, pass) && IsDeepest(levels, p, pass)
    ensures Encloses(SeedBounds(Footprint(p)), DrawnBox(b, hasParent)) <==> levels <= if hasParent then 0 else 1
  {
    HeadBox(p, b, levels, seeds, pass);
    hide Ready, ColumnDone, Seeded, IsBox, IsDeepest, Shown;
  }

  /** What the free-spot search and the stacks keep apart covers such boxes, so these never meet another column's. */
  lemma ColumnBoxesApart(cols: seq<Placement>, k: nat, l: nat, b: Bounds, b': Bounds, levels: nat, levels': nat,
                         hasParent: bool, hasParent': bool, seeds: map<Id, Rect>, pass: Pass)
    requires Ready(pass) && Seeded(seeds, pass) && Settled(cols, seeds, pass) && k < l < |cols|
    requires !DifferentAnchors(cols[k].anchor, cols[l].anchor)
    requires cols[k].column.rows != [] && IsBox(b, cols[k].column.rows[0].of, seeds, pass) && IsDeepest(levels, cols[k], pass)
    requires cols[l].column.rows != [] && IsBox(b', cols[l].column.rows[0].of, seeds, pass) && IsDeepest(levels', cols[l], pass)
    requires levels <= if hasParent then 0 else 1
    requires levels' <= if hasParent' then 0 else 1
    ensures BoxesApart(DrawnBox(b, hasParent), DrawnBox(b', hasParent'))
  {
    hide Ready, ColumnDone, Seeded, IsBox, IsDeepest, Shown, OnlyTheirs;
    assert KeptApart(cols[k], cols[l]);
    HeadBox(cols[k], b, levels, seeds, pass);
    HeadBox(cols[l], b', levels', seeds, pass);
  }

  // -------------------------------------------------------------- boxes below each other

  lemma {:induction false} UnderHangs(d: Creation, c: Creation, seeds: map<Id, Rect>, pass: Pass)
    requires Ready(pass) && Seeded(seeds, pass) && Hung(seeds, pass) && c in pass.empties
    requires d in Tree(c, pass)
    ensures var g := Grown(d, Level(c, pass), seeds, pass); g.minX >= seeds[c.id].x && g.minY >= seeds[c.id].y
    decreases pass.rank(d.path)
  {
    if d != c {
      var p := ParentInTree(d, c, pass);
      UnderHangs(p, c, seeds, pass);
      HangsBelow(d, p, Level(c, pass), seeds, pass);
    }
  }

  lemma ParentInTree(d: Creation, c: Creation, pass: Pass) returns (p: Creation)
    requires Ready(pass) && d in Tree(c, pass) && d != c && c in pass.empties
    ensures p in Tree(c, pass) && RightBelow(pass.folders, d, p) && pass.rank(p.path) < pass.rank(d.path)
  {
    p := Over(pass.folders, d).value;
    RankGrows(pass.folders, pass.rank, d, p);
  }

  lemma HangsBelow(d: Creation, p: Creation, base: int, seeds: map<Id, Rect>, pass: Pass)
    requires Ready(pass) && Seeded(seeds, pass) && Hung(seeds, pass)
    requires d in pass.empties && p in pass.empties && RightBelow(pass.folders, d, p)
    ensures Grown(d, base, seeds, pass).minX >= Grown(p, base, seeds, pass).minX
    ensures Grown(d, base, seeds, pass).minY >= Grown(p, base, seeds, pass).minY
  {
    DepthBelow(d, p, pass);
    assert Roomy(pass.m);
    hide Ready, Level, RightBelow;
  }

  /** Every box starts at its folder's seed. */
  lemma BoxCorner(b: Bounds, c: Creation, seeds: map<Id, Rect>, pass: Pass)
    requires Ready(pass) && Seeded(seeds, pass) && Hung(seeds, pass) && c in pass.empties && IsBox(b, c, seeds, pass)
    ensures b.minX == seeds[c.id].x && b.minY == seeds[c.id].y
    ensures b.maxX >= b.minX + pass.m.width && b.maxY >= b.minY + pass.m.height
  {
    assert c in Tree(c, pass) && Grown(c, Level(c, pass), seeds, pass) == SeedBounds(seeds[c.id]);
    forall d | d in Tree(c, pass)
      ensures Grown(d, Level(c, pass), seeds, pass).minX >= seeds[c.id].x && Grown(d, Level(c, pass), seeds, pass).minY >= seeds[c.id].y
    {
      UnderHangs(d, c, seeds, pass);
    }
    hide Ready, Tree, Level, Grown;
  }

  /** How far down a folder below `a` pushes the edge of `a`'s box. */
  ghost function EdgeFrom(d: Creation, a: Creation, seeds: map<Id, Rect>, pass: Pass): real
    requires Ready(pass) && d.id in seeds
  {
    seeds[d.id].y + pass.m.height + (Level(d, pass) - Level(a, pass)) as real * NESTED_BOUNDS_CLEARANCE
  }

  /**
    Two boxes one below the other with the same left edge, as those of siblings and of columns
    stacked under one box: they meet exactly if some folder below the upper one, grown for each
    level between, comes nearer to the lower one than padding and tab.
   */
  lemma BoxesBelowMeetIff(a: Creation, c: Creation, b: Bounds, b': Bounds, hasParent: bool, hasParent': bool,
                          seeds: map<Id, Rect>, pass: Pass)
    requires Ready(pass) && Seeded(seeds, pass) && Hung(seeds, pass)
    requires a in pass.empties && c in pass.empties && seeds[a.id].x == seeds[c.id].x && seeds[a.id].y < seeds[c.id].y
    requires IsBox(b, a, seeds, pass) && IsBox(b', c, seeds, pass)
    ensures !BoxesApart(DrawnBox(b, hasParent), DrawnBox(b', hasParent')) <==>
            exists d | d in Tree(a, pass) ::
              seeds[c.id].y < EdgeFrom(d, a, seeds, pass) + BoxPad(hasParent) + BoxPad(hasParent') + TAB_HEIGHT
  {
    hide Ready, Tree, Level, EdgeFrom, Grown, IsBox, Seeded, Hung, Roomy;
    BoxCorner(b, a, seeds, pass);
    BoxCorner(b', c, seeds, pass);
    LowerEdge(b, a, seeds, pass);
    SizesHold(pass);
  }

  lemma SizesHold(pass: Pass)
    requires Ready(pass)
    ensures pass.m.width >= 0.0 && pass.m.height >= 0.0
  {
  }

  /** A box's lower edge is the lowest that a folder in it makes. */
  lemma LowerEdge(b: Bounds, a: Creation, seeds: map<Id, Rect>, pass: Pass)
    requires Ready(pass) && Seeded(seeds, pass) && Hung(seeds, pass) && a in pass.empties && IsBox(b, a, seeds, pass)
    ensures forall d | d in Tree(a, pass) :: d.id in seeds && EdgeFrom(d, a, seeds, pass) <= b.maxY
    ensures exists d | d in Tree(a, pass) :: d.id in seeds && EdgeFrom(d, a, seeds, pass) == b.maxY
  {
    forall d | d in Tree(a, pass)
      ensures EdgeFrom(d, a, seeds, pass) == Grown(d, Level(a, pass), seeds, pass).maxY <= b.maxY
    {
    }
    hide Ready, Tree, Level, EdgeFrom, Grown;
    var d :| d in Tree(a, pass) && b.maxY == Grown(d, Level(a, pass), seeds, pass).maxY;
    assert b.maxY == EdgeFrom(d, a, seeds, pass);
  }

  // ------------------------------------------------------------- siblings in a column

  /** No row comes before that of a folder it nests under. */
  lemma {:induction false} UnderComesAfter(p: Placement, t: nat, l: nat, pass: Pass)
    requires Ready(pass) && ColumnDone(p, pass) && t < |p.column.rows| && l < |p.column.rows|
    requires Under(pass.folders, pass.rank, p.column.rows[l].of, p.column.rows[t].of)
    ensures t <= l
    decreases l
  {
    if l != t {
      var j := RowUnder(p, t, l, pass);
      UnderComesAfter(p, t, j, pass);
    }
  }

  lemma RowUnder(p: Placement, t: nat, l: nat, pass: Pass) returns (j: nat)
    requires Ready(pass) && ColumnDone(p, pass) && t < |p.column.rows| && l < |p.column.rows| && l != t
    requires Under(pass.folders, pass.rank, p.column.rows[l].of, p.column.rows[t].of)
    ensures j < l && RightBelow(pass.folders, p.column.rows[l].of, p.column.rows[j].of)
    ensures Under(pass.folders, pass.rank, p.column.rows[j].of, p.column.rows[t].of)
  {
    var rows, folders := p.column.rows, pass.folders;
    RowsDo(p, pass);
    HeadsAreFree(pass, rows[0].of);
    assert rows[l].of != rows[t].of;
    assert Indented(folders, rows, 0, pass.m.spacing.indent);
    hide Ready, ColumnDone, Indented;
    HangsBack(rows, l, folders, pass.m.spacing.indent);
    j :| 0 <= j < l && RightBelow(folders, rows[l].of, rows[j].of) && rows[l].dx == rows[j].dx + pass.m.spacing.indent;
  }
  predicate Siblings(folders: map<Path, Creation>, a: Creation, b: Creation)
  {
    Over(folders, a) == Over(folders, b)
  }

  /** Rows `i` and `j` are siblings, and no row between them is one. */
  predicate NextSibling(folders: map<Path, Creation>, rows: seq<Row>, i: nat, j: nat)
  {
    && 0 < i < j < |rows| && Siblings(folders, rows[i].of, rows[j].of)
    && forall l | i < l < j :: !Siblings(folders, rows[i].of, rows[l].of)
  }

  /** What of a column's order two siblings and a third row need. */
  lemma ColumnOrder(p: Placement, pass: Pass)
    requires Ready(pass) && ColumnDone(p, pass)
    ensures FolderOrder(pass.folders, pass.empties, pass.rank, p.column.rows, 0) && RowsDiffer(p.column.rows, 0)
    ensures forall i | 0 <= i < |p.column.rows| :: Found(pass.folders, p.column.rows[i].of)
  {
    HeadsAreFree(pass, p.column.rows[0].of);
    forall i | 0 <= i < |p.column.rows|
      ensures Found(pass.folders, p.column.rows[i].of)
    {
      RowsAreFound(p, i, pass.folders, pass.empties, pass.rank);
    }
  }

  /** The rows from a folder to its next sibling are exactly those of its tree. */
  lemma TreeIsBetween(p: Placement, i: nat, j: nat, l: nat, pass: Pass)
    requires Ready(pass) && ColumnDone(p, pass) && NextSibling(pass.folders, p.column.rows, i, j) && i <= l < |p.column.rows|
    ensures l < j <==> Under(pass.folders, pass.rank, p.column.rows[l].of, p.column.rows[i].of)
  {
    ColumnOrder(p, pass);
    if l >= j {
      NotPastSibling(p, i, j, l, pass);
    } else if l > i {
      BeforeSibling(p, i, j, l, pass);
    }
  }

  lemma ReadyIsAcyclic(pass: Pass)
    requires Ready(pass)
    ensures Acyclic(pass.folders, pass.rank)
  {
  }

  lemma ParentOf(p: Placement, i: nat, pass: Pass) returns (r: nat)
    requires Ready(pass) && ColumnDone(p, pass) && 0 < i < |p.column.rows|
    ensures r < i && RightBelow(pass.folders, p.column.rows[i].of, p.column.rows[r].of)
  {
    var rows, folders := p.column.rows, pass.folders;
    assert Indented(folders, rows, 0, pass.m.spacing.indent);
    hide Ready, ColumnDone, Indented;
    HangsBack(rows, i, folders, pass.m.spacing.indent);
    r :| 0 <= r < i && RightBelow(folders, rows[i].of, rows[r].of) && rows[i].dx == rows[r].dx + pass.m.spacing.indent;
  }

  lemma NotPastSibling(p: Placement, i: nat, j: nat, l: nat, pass: Pass)
    requires Ready(pass) && ColumnDone(p, pass) && NextSibling(pass.folders, p.column.rows, i, j) && j <= l < |p.column.rows|
    ensures !Under(pass.folders, pass.rank, p.column.rows[l].of, p.column.rows[i].of)
  {
    hide Ready, ColumnDone, Under, Found;
    var rows, folders, rank := p.column.rows, pass.folders, pass.rank;
    ColumnOrder(p, pass);
    ReadyIsAcyclic(pass);
    var r := ParentOf(p, i, pass);
    if Under(folders, rank, rows[l].of, rows[i].of) {
      if j < l {
        assert Unbroken(folders, rank, rows, i, j, l);
      }
      AloneAtTheTop(folders, rank, rows[j].of, rows[i].of, rows[r].of);
    }
  }

  lemma BeforeSibling(p: Placement, i: nat, j: nat, l: nat, pass: Pass)
    requires Ready(pass) && ColumnDone(p, pass) && NextSibling(pass.folders, p.column.rows, i, j) && i < l < j
    ensures Under(pass.folders, pass.rank, p.column.rows[l].of, p.column.rows[i].of)
  {
    hide Ready, ColumnDone, Under, Found;
    var rows, folders, rank := p.column.rows, pass.folders, pass.rank;
    ColumnOrder(p, pass);
    ReadyIsAcyclic(pass);
    var r := ParentOf(p, i, pass);
    var k := ChildAbove(p, r, j, l, pass);
    assert Siblings(folders, rows[i].of, rows[k].of);
    if k < i {
      assert Unbroken(folders, rank, rows, k, i, l);
      AloneAtTheTop(folders, rank, rows[i].of, rows[k].of, rows[r].of);
    }
  }

  /** A row between a folder and one of its children is under a child of it, whose row comes no later. */
  lemma ChildAbove(p: Placement, r: nat, j: nat, l: nat, pass: Pass) returns (k: nat)
    requires Ready(pass) && ColumnDone(p, pass) && r < l < j < |p.column.rows|
    requires RightBelow(pass.folders, p.column.rows[j].of, p.column.rows[r].of)
    ensures k <= l && RightBelow(pass.folders, p.column.rows[k].of, p.column.rows[r].of)
    ensures Under(pass.folders, pass.rank, p.column.rows[l].of, p.column.rows[k].of)
  {
    var rows, folders, rank := p.column.rows, pass.folders, pass.rank;
    ColumnOrder(p, pass);
    assert Unbroken(folders, rank, rows, r, l, j);
    assert Under(folders, rank, rows[r].of, rows[r].of);
    assert rows[l].of != rows[r].of;
    UnderSplits(folders, rank, rows[l].of, rows[r].of);
    var child: Creation :| RightBelow(folders, child, rows[r].of) && Under(folders, rank, rows[l].of, child) && Found(folders, child);
    k := RowOf(p, r, child, pass);
    UnderComesAfter(p, k, l, pass);
  }

  lemma RowOf(p: Placement, r: nat, child: Creation, pass: Pass) returns (k: nat)
    requires Ready(pass) && ColumnDone(p, pass) && r < |p.column.rows|
    requires RightBelow(pass.folders, child, p.column.rows[r].of) && Found(pass.folders, child)
    ensures k < |p.column.rows| && p.column.rows[k].of == child
  {
    var rows := p.column.rows;
    RowInTree(p, r, pass);
    UnderUnder(pass.folders, pass.rank, child, rows[r].of, rows[0].of);
    ColumnIsTree(p, pass);
    assert child in Tree(rows[0].of, pass);
    hide Ready, ColumnDone;
    k :| 0 <= k < |rows| && rows[k].of == child;
  }
  /** Row `l`, so many levels below row `i`, comes nearer to row `j` than padding and tab. */
  ghost predicate Presses(p: Placement, i: nat, j: nat, l: nat, pass: Pass)
    requires Ready(pass) && i < |p.column.rows| && l < |p.column.rows|
  {
    (j - l) as real * pass.m.spacing.pitch <
    pass.m.height + (Level(p.column.rows[l].of, pass) - Level(p.column.rows[i].of, pass)) as real * NESTED_BOUNDS_CLEARANCE
      + 2.0 * PAD + TAB_HEIGHT
  }

  lemma PressesIff(p: Placement, i: nat, j: nat, l: nat, seeds: map<Id, Rect>, pass: Pass)
    requires Ready(pass) && ColumnDone(p, pass) && Shown(seeds, p, pass.m)
    requires i < |p.column.rows| && l < j < |p.column.rows|
    ensures p.column.rows[l].of.id in seeds && p.column.rows[j].of.id in seeds
    ensures Presses(p, i, j, l, pass) <==>
            seeds[p.column.rows[j].of.id].y < EdgeFrom(p.column.rows[l].of, p.column.rows[i].of, seeds, pass) + 2.0 * PAD + TAB_HEIGHT
  {
    hide Ready, ColumnDone, Level;
    RowInColumn(p, l, pass);
    RowInColumn(p, j, pass);
    TimesDifference(j, l, pass.m.spacing.pitch);
  }

  lemma TimesDifference(j: nat, l: nat, pitch: real)
    ensures (j - l) as real * pitch == j as real * pitch - l as real * pitch
  {
  }

  /**
    The boxes of a folder and its next sibling in a column, both with all their subfolders, meet
    exactly if a row of the folder's tree presses on the sibling's row.
   */
  lemma SiblingsMeetIff(p: Placement, i: nat, j: nat, b: Bounds, b': Bounds, seeds: map<Id, Rect>, pass: Pass)
    requires Ready(pass) && Seeded(seeds, pass) && Hung(seeds, pass) && ColumnDone(p, pass) && Shown(seeds, p, pass.m)
    requires NextSibling(pass.folders, p.column.rows, i, j)
    requires IsBox(b, p.column.rows[i].of, seeds, pass) && IsBox(b', p.column.rows[j].of, seeds, pass)
    ensures !BoxesApart(DrawnBox(b, true), DrawnBox(b', true)) <==> exists l | i <= l < j :: Presses(p, i, j, l, pass)
  {
    hide Ready, ColumnDone, Level, Tree, IsBox, Hung, Seeded, EdgeFrom, Presses, BoxesApart, DrawnBox;
    var a, c := p.column.rows[i].of, p.column.rows[j].of;
    SiblingSeeds(p, i, j, seeds, pass);
    BoxesBelowMeetIff(a, c, b, b', true, true, seeds, pass);
    TreeIsSeeded(a, seeds, pass);
    forall d | d in Tree(a, pass)
      ensures exists l | i <= l < j :: p.column.rows[l].of == d
    {
      var l := RowOfTree(p, i, j, d, pass);
    }
    forall l | i <= l < j
      ensures p.column.rows[l].of in Tree(a, pass)
      ensures Presses(p, i, j, l, pass) <==> seeds[c.id].y < EdgeFrom(p.column.rows[l].of, a, seeds, pass) + 2.0 * PAD + TAB_HEIGHT
    {
      BetweenIsTree(p, i, j, l, pass);
      PressesIff(p, i, j, l, seeds, pass);
    }
  }

  lemma SiblingSeeds(p: Placement, i: nat, j: nat, seeds: map<Id, Rect>, pass: Pass)
    requires Ready(pass) && ColumnDone(p, pass) && Shown(seeds, p, pass.m) && NextSibling(pass.folders, p.column.rows, i, j)
    ensures p.column.rows[i].of in pass.empties && p.column.rows[j].of in pass.empties
    ensures p.column.rows[i].of.id in seeds && p.column.rows[j].of.id in seeds
    ensures seeds[p.column.rows[i].of.id].x == seeds[p.column.rows[j].of.id].x
    ensures seeds[p.column.rows[i].of.id].y < seeds[p.column.rows[j].of.id].y
  {
    hide Ready, ColumnDone, Level, FolderOrder, RowsDiffer, Found, Siblings;
    SiblingRows(p, i, j, pass);
    hide NextSibling;
  }

  lemma SiblingRows(p: Placement, i: nat, j: nat, pass: Pass)
    requires Ready(pass) && ColumnDone(p, pass) && NextSibling(pass.folders, p.column.rows, i, j)
    ensures p.column.rows[i].of in pass.empties && p.column.rows[j].of in pass.empties
    ensures p.column.rows[i].dx == p.column.rows[j].dx && p.column.rows[i].dy < p.column.rows[j].dy
  {
    hide Ready, ColumnDone, Level, FolderOrder, RowsDiffer, Found, Siblings;
    ColumnOrder(p, pass);
    LevelOfSiblings(p.column.rows[i].of, p.column.rows[j].of, pass);
    FoundIsEmpty(p.column.rows[i].of, pass);
    FoundIsEmpty(p.column.rows[j].of, pass);
    RowDepth(p, i, pass);
    RowDepth(p, j, pass);
    RowInColumn(p, i, pass);
    RowInColumn(p, j, pass);
    PitchApart(i, j, pass.m.spacing.pitch, p.column.rows[i].dy, p.column.rows[j].dy);
  }

  lemma FoundIsEmpty(c: Creation, pass: Pass)
    requires Ready(pass) && Found(pass.folders, c)
    ensures c in pass.empties
  {
  }

  lemma LevelOfSiblings(a: Creation, b: Creation, pass: Pass)
    requires Ready(pass) && Found(pass.folders, a) && Found(pass.folders, b) && Siblings(pass.folders, a, b)
    ensures Level(a, pass) == Level(b, pass)
  {
  }

  lemma RowOfTree(p: Placement, i: nat, j: nat, d: Creation, pass: Pass) returns (l: nat)
    requires Ready(pass) && ColumnDone(p, pass) && NextSibling(pass.folders, p.column.rows, i, j)
    requires d in Tree(p.column.rows[i].of, pass)
    ensures i <= l < j && p.column.rows[l].of == d
  {
    var rows := p.column.rows;
    RowInTree(p, i, pass);
    UnderUnder(pass.folders, pass.rank, d, rows[i].of, rows[0].of);
    assert d in Tree(rows[0].of, pass);
    hide Ready, ColumnDone, Tree;
    ColumnIsTree(p, pass);
    l :| 0 <= l < |rows| && rows[l].of == d;
    UnderComesAfter(p, i, l, pass);
    TreeIsBetween(p, i, j, l, pass);
  }

  lemma BetweenIsTree(p: Placement, i: nat, j: nat, l: nat, pass: Pass)
    requires Ready(pass) && ColumnDone(p, pass) && NextSibling(pass.folders, p.column.rows, i, j) && i <= l < j
    ensures p.column.rows[l].of in Tree(p.column.rows[i].of, pass)
  {
    TreeIsBetween(p, i, j, l, pass);
    ColumnOrder(p, pass);
    FoundIsEmpty(p.column.rows[l].of, pass);
    hide Ready, ColumnDone;
  }

  /**
    So siblings without subfolders never meet, and on a fine grid others do: the last row of a
    tree, so many levels down, presses on the next sibling's if the row lattice is at most 14 a
    level minus 8. On the default grid, whose lattice is 20, two levels are enough.
   */
  lemma NextSiblingMeets(p: Placement, i: nat, j: nat, b: Bounds, b': Bounds, minorX: real, minorY: real,
                         seeds: map<Id, Rect>, pass: Pass)
    requires Ready(pass) && Seeded(seeds, pass) && Hung(seeds, pass) && ColumnDone(p, pass) && Shown(seeds, p, pass.m)
    requires NextSibling(pass.folders, p.column.rows, i, j)
    requires IsBox(b, p.column.rows[i].of, seeds, pass) && IsBox(b', p.column.rows[j].of, seeds, pass)
    requires minorX > 0.0 && minorY > 0.0 && pass.m.spacing == SeedColumnSpacing(minorX, minorY, pass.m.height)
    ensures j == i + 1 ==> BoxesApart(DrawnBox(b, true), DrawnBox(b', true))
    ensures var levels := Level(p.column.rows[j - 1].of, pass) - Level(p.column.rows[i].of, pass);
            minorY <= levels as real * NESTED_BOUNDS_CLEARANCE - CLEARANCE ==> !BoxesApart(DrawnBox(b, true), DrawnBox(b', true))
  {
    hide Ready, Hung, IsBox, Seeded, ColumnDone, Level, SeedColumnSpacing, BoxesApart, DrawnBox, Presses;
    SiblingsMeetIff(p, i, j, b, b', seeds, pass);
    if j == i + 1 {
      AloneNeverPresses(p, i, pass);
    }
    LastRowPresses(p, i, j, minorX, minorY, pass);
  }

  lemma AloneNeverPresses(p: Placement, i: nat, pass: Pass)
    requires Ready(pass) && i < |p.column.rows|
    ensures !Presses(p, i, i + 1, i, pass)
  {
    assert Roomy(pass.m);
    hide Ready, Level;
  }

  lemma LastRowPresses(p: Placement, i: nat, j: nat, minorX: real, minorY: real, pass: Pass)
    requires Ready(pass) && 0 < j <= |p.column.rows| && i < |p.column.rows|
    requires minorX > 0.0 && minorY > 0.0 && pass.m.spacing == SeedColumnSpacing(minorX, minorY, pass.m.height)
    ensures var levels := Level(p.column.rows[j - 1].of, pass) - Level(p.column.rows[i].of, pass);
            minorY <= levels as real * NESTED_BOUNDS_CLEARANCE - CLEARANCE ==> Presses(p, i, j, j - 1, pass)
  {
    assert pass.m.spacing.pitch < pass.m.height + 2.0 * PAD + TAB_HEIGHT + CLEARANCE + minorY;
    hide Ready, Level, SeedColumnSpacing;
  }
}
