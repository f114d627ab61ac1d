/** The layout of empty folders in plain numbers: distances, sizes and points. */
module SeedMeans {
  import opened Wrappers
  import opened SeedColumns
  import opened SeedLayout
  import opened SeedBoxes

  // -------------------------------------------------------------------- rectangles

  /** Strictly inside a rectangle. */
  predicate Inside(r: Rect, x: real, y: real)
  {
    r.x < x < r.x + r.width && r.y < y < r.y + r.height
  }

  /** Two rectangles are apart exactly if no point is inside both. */
  lemma ApartIff(a: Rect, b: Rect)
    requires a.width > 0.0 && a.height > 0.0 && b.width > 0.0 && b.height > 0.0
    ensures Apart(a, b) <==> forall x, y :: !(Inside(a, x, y) && Inside(b, x, y))
  {
    if !Apart(a, b) {
      var x := Between(a.x, a.x + a.width, b.x, b.x + b.width);
      var y := Between(a.y, a.y + a.height, b.y, b.y + b.height);
      assert Inside(a, x, y) && Inside(b, x, y);
    }
  }

  /** A point in two stretches that meet. */
  lemma Between(a: real, a': real, b: real, b': real) returns (x: real)
    requires a < a' && b < b' && a < b' && b < a'
    ensures a < x < a' && b < x < b'
  {
    x := ((if a < b then b else a) + (if a' < b' then a' else b')) / 2.0;
  }

  /** A seed is drawn with 20 around it and a tab of 20 above. */
  lemma DrawnIs(r: Rect)
    ensures Drawn(r) == Rect(r.x - 20.0, r.y - 40.0, r.width + 40.0, r.height + 60.0)
  {
  }

  /** The stretch of a column at some corner, with 28 around it and 20 more above, does not reach into this rectangle. */
  predicate ClearThere(c: Point, column: Column, o: Rect)
  {
    || c.x - 28.0 >= o.x + o.width - 0.000001
    || o.x + 0.000001 >= c.x + column.width + 28.0
    || c.y - 48.0 >= o.y + o.height - 0.000001
    || o.y + 0.000001 >= c.y + column.height + 28.0
  }

  /** A candidate is free exactly if the column there is clear of every obstacle and of all that was placed. */
  lemma FreeIff(c: Point, column: Column, obstacles: seq<Rect>, placed: seq<Rect>)
    ensures FreeAt(c, column, obstacles, placed) <==>
            (forall o | o in obstacles :: ClearThere(c, column, o)) && forall o | o in placed :: ClearThere(c, column, o)
  {
    var rect := DrawnFootprint(c.x, c.y, column.width, column.height);
    forall o
      ensures RectsOverlap(rect, o) <==> !ClearThere(c, column, o)
    {
    }
  }

  /** What was placed: each column with 28 around it and 20 more above. */
  lemma PlacedIs(cols: seq<Placement>, i: nat)
    requires i < |cols|
    ensures var p := cols[i];
            Footprints(cols)[i] == Rect(p.x - 28.0, p.y - 48.0, p.column.width + 56.0, p.column.height + 76.0)
  {
  }

  // ----------------------------------------------------------------------- columns

  /** The pitch is the least multiple of the step that leaves 68 between two seeds; the indent the least that is 40. */
  lemma SpacingIs(minorX: real, minorY: real, height: real)
    requires minorX > 0.0 && minorY > 0.0
    ensures var s := SeedColumnSpacing(minorX, minorY, height);
            && height + 68.0 <= s.pitch < height + 68.0 + minorY && OnLattice(s.pitch, minorY)
            && 40.0 <= s.indent < 40.0 + minorX && OnLattice(s.indent, minorX)
  {
  }

  /** Which box a column stands under: that of its head's parent folder, if the head has one and it has a box. */
  lemma AnchorIff(head: Creation, anchorBoundsFor: Path -> Option<Bounds>, path: Path)
    ensures AnchorOf(head, anchorBoundsFor) == Some(path) <==>
            head.parent != "" && head.parent == path && anchorBoundsFor(path).Some?
  {
  }

  /** Where every seed of a settled pass is: its column's corner, an indent a level to the right and a pitch a row down. */
  lemma SeedIsAt(cols: seq<Placement>, seeds: map<Id, Rect>, pass: Pass, k: nat, i: nat)
    requires Ready(pass) && Settled(cols, seeds, pass) && k < |cols| && i < |cols[k].column.rows|
    ensures var c, p := cols[k].column.rows[i].of, cols[k];
            && c.id in seeds
            && seeds[c.id] == Rect(p.x + Level(c, pass) as real * pass.m.spacing.indent, p.y + i as real * pass.m.spacing.pitch,
                                   pass.m.width, pass.m.height)
  {
    ShownHere(cols, k, i, seeds, pass);
    DoneHere(cols, k, seeds, pass);
    hide Ready, Settled, ColumnDone, Level;
    RowDepth(cols[k], i, pass);
    RowInColumn(cols[k], i, pass);
  }

  lemma DoneHere(cols: seq<Placement>, k: nat, seeds: map<Id, Rect>, pass: Pass)
    requires Ready(pass) && Settled(cols, seeds, pass) && k < |cols|
    ensures ColumnDone(cols[k], pass)
  {
    assert cols[k] in cols;
    hide ColumnDone, Ready;
  }

  /** Folders count a level for each empty folder of the pass that they nest under. */
  lemma LevelIs(c: Creation, pass: Pass)
    requires Ready(pass) && c in pass.empties
    ensures Over(pass.folders, c).None? ==> Level(c, pass) == 0
    ensures Over(pass.folders, c).Some? ==> Level(c, pass) == Level(Over(pass.folders, c).value, pass) + 1
  {
  }

  /** Which empty folder another one nests under: the one of the pass, without members, that its parent path names. */
  lemma OverIff(creations: seq<Creation>, c: Creation, p: Creation)
    requires Distinct(creations)
    ensures Over(ByFolder(creations), c) == Some(p) <==> c.parent != "" && p in creations && p.path == c.parent && !p.members
  {
    var folders := ByFolder(creations);
    hide ByFolder;
    if p in creations {
      assert folders[p.path] in creations && folders[p.path].path == p.path;
    }
  }

  /** Where a column under no box stands: at the first free candidate, or if none is free below all columns before it. */
  lemma SiteIs(cols: seq<Placement>, n: nat, search: Search)
    requires search.steps.majorX > 0.0 && search.steps.majorY > 0.0 && AllSited(cols, search)
    requires n < |cols| && cols[n].anchor.None?
    ensures var placed, at := Footprints(cols[..n]), Point(cols[n].x, cols[n].y);
            || (exists i | 0 <= i < |search.candidates| ::
                  && search.candidates[i] == at && FreeAt(at, cols[n].column, search.obstacles, placed)
                  && forall j | 0 <= j < i :: !FreeAt(search.candidates[j], cols[n].column, search.obstacles, placed))
            || ((forall c | c in search.candidates :: !FreeAt(c, cols[n].column, search.obstacles, placed)) &&
                at == BelowAll(placed, search))
  {
    assert Sited(cols, n, search);
    hide FreeAt, BelowAll;
  }

  /** Where a column under a box stands: at the step right of the box's left edge by an indent, and below the box by a row's gap. */
  lemma BelowBoxIs(cols: seq<Placement>, n: nat, steps: Steps, pass: Pass, path: Path)
    requires steps.minorX > 0.0 && steps.minorY > 0.0
    requires AllStand(cols, steps, pass.m, pass.anchorBoundsFor) && AllBelow(cols, pass)
    requires n < |cols| && cols[n].anchor == Some(path) && pass.anchorBoundsFor(path).Some?
    ensures var b, p := pass.anchorBoundsFor(path).value, cols[n];
            && OnLattice(p.x, steps.minorX)
            && b.minX + pass.m.spacing.indent <= p.x < b.minX + pass.m.spacing.indent + steps.minorX
            && p.y >= b.maxY + pass.m.spacing.pitch - pass.m.height
  {
    assert StandsAt(cols, n, steps, pass.m, pass.anchorBoundsFor);
    assert cols[n] in cols && BelowItsBox(cols[n], pass);
    hide StackY, ColumnsUnder, OnLattice;
  }

  /** In which order columns are placed: those under boxes first, and under one box or under none as their heads stand in the list. */
  lemma ColumnOrderIs(cols: seq<Placement>, empties: seq<Creation>, i: nat, j: nat)
    requires ColumnsOrdered(cols, empties) && i < j < |cols|
    ensures cols[i].anchor.None? ==> cols[j].anchor.None?
    ensures cols[i].anchor == cols[j].anchor ==>
              && cols[i].column.rows != [] && cols[j].column.rows != []
              && exists k, l | 0 <= k < l < |empties| :: empties[k] == cols[i].column.rows[0].of && empties[l] == cols[j].column.rows[0].of
  {
    assert Follows(cols[i], cols[j], empties);
  }

  /** The lowest edge is that of something placed, or the spawn point. */
  lemma {:induction false} LowestIs(placed: seq<Rect>, from: real)
    ensures var low := Lowest(placed, from);
            low == from || exists i | 0 <= i < |placed| :: low == placed[i].y + placed[i].height
  {
    if placed != [] {
      var n := |placed| - 1;
      LowestIs(placed[..n], from);
      var low := Lowest(placed[..n], from);
      if low != from && Lowest(placed, from) == low {
        var i :| 0 <= i < n && low == placed[..n][i].y + placed[..n][i].height;
        assert low == placed[i].y + placed[i].height;
      }
    }
  }

  // ------------------------------------------------------------------------- boxes

  /** A seed grows by 14 a level, by 34 above. */
  lemma GrownIs(d: Creation, base: int, seeds: map<Id, Rect>, pass: Pass)
    requires Ready(pass) && d.id in seeds
    ensures var r, n := seeds[d.id], (Level(d, pass) - base) as real;
            Grown(d, base, seeds, pass) ==
            Bounds(r.x - 14.0 * n, r.y - 34.0 * n, r.x + r.width + 14.0 * n, r.y + r.height + 14.0 * n)
  {
    hide Ready, Level;
  }

  /** A box is drawn with 20 around it if its folder has a parent, with 12 if not, and a tab of 20 above. */
  lemma DrawnBoxIs(b: Bounds, hasParent: bool)
    ensures var pad := if hasParent then 20.0 else 12.0;
            && Outline(b, hasParent) == Bounds(b.minX - pad, b.minY - pad, b.maxX + pad, b.maxY + pad)
            && DrawnBox(b, hasParent) == Bounds(b.minX - pad, b.minY - pad - 20.0, b.maxX + pad, b.maxY + pad)
  {
  }

  function BoxRect(b: Bounds): Rect
  {
    Rect(b.minX, b.minY, b.maxX - b.minX, b.maxY - b.minY)
  }

  /** Two boxes are apart exactly if no point is inside both. */
  lemma BoxesApartIff(a: Bounds, b: Bounds)
    requires a.minX < a.maxX && a.minY < a.maxY && b.minX < b.maxX && b.minY < b.maxY
    ensures BoxesApart(a, b) <==> forall x, y :: !(Inside(BoxRect(a), x, y) && Inside(BoxRect(b), x, y))
  {
    ApartIff(BoxRect(a), BoxRect(b));
  }
}
