/** Where the columns of new empty folders go (src/app/emptyGroupSeeds.js, `layoutEmptyGroupSeeds`). */
module SeedLayout {
  import opened Wrappers
  import opened SeedColumns

  const EPSILON := 0.000001

  datatype Point = Point(x: real, y: real)

  datatype Bounds = Bounds(minX: real, minY: real, maxX: real, maxY: real)

  datatype Steps = Steps(minorX: real, minorY: real, majorX: real, majorY: real)

  /** A seed's size, and the spacing of columns of them. */
  datatype Measure = Measure(width: real, height: real, spacing: Spacing)

  predicate Roomy(m: Measure)
  {
    && m.width >= 0.0 && m.height >= 0.0
    && m.spacing.pitch >= m.height + 2.0 * PAD + TAB_HEIGHT + CLEARANCE
    && m.spacing.indent >= 2.0 * PAD
  }

  datatype Column = Column(rows: seq<Row>, width: real, height: real)

  /** A column at its corner; `anchor` is the folder whose box it stands under. */
  datatype Placement = Placement(column: Column, x: real, y: real, anchor: Option<Path>)

  // --------------------------------------------------------------------- rectangles

  /** `rectsOverlap`. */
  predicate RectsOverlap(a: Rect, b: Rect)
  {
    && a.x < b.x + b.width - EPSILON && a.x + a.width > b.x + EPSILON
    && a.y < b.y + b.height - EPSILON && a.y + a.height > b.y + EPSILON
  }

  /** No interior point in common. */
  predicate Apart(a: Rect, b: Rect)
  {
    || a.x + a.width <= b.x || b.x + b.width <= a.x
    || a.y + a.height <= b.y || b.y + b.height <= a.y
  }

  /** A rectangle with padding around it and a tab above. */
  function Drawn(r: Rect): Rect
  {
    Rect(r.x - PAD, r.y - PAD - TAB_HEIGHT, r.width + 2.0 * PAD, r.height + 2.0 * PAD + TAB_HEIGHT)
  }

  /** `drawnFootprint`: the same, with clearance all round. */
  function DrawnFootprint(x: real, y: real, width: real, height: real): Rect
  {
    Rect(x - PAD - CLEARANCE, y - PAD - TAB_HEIGHT - CLEARANCE,
         width + 2.0 * (PAD + CLEARANCE), height + 2.0 * PAD + TAB_HEIGHT + 2.0 * CLEARANCE)
  }

  /** Where the boxes of a column may reach: padding and tab, and right and down the clearance too. */
  function Reach(p: Placement): Rect
  {
    Rect(p.x - PAD, p.y - PAD - TAB_HEIGHT,
         p.column.width + 2.0 * PAD + CLEARANCE, p.column.height + 2.0 * PAD + TAB_HEIGHT + CLEARANCE)
  }

  function Body(p: Placement): Rect
  {
    Rect(p.x, p.y, p.column.width, p.column.height)
  }

  function Footprint(p: Placement): Rect
  {
    DrawnFootprint(p.x, p.y, p.column.width, p.column.height)
  }

  function SeedAt(p: Placement, i: nat, m: Measure): Rect
    requires i < |p.column.rows|
  {
    Rect(p.x + p.column.rows[i].dx, p.y + p.column.rows[i].dy, m.width, m.height)
  }

  /** The column covers its rows. */
  predicate Covers(c: Column, m: Measure)
  {
    forall i | 0 <= i < |c.rows| :: 0.0 <= c.rows[i].dx <= c.width - m.width && 0.0 <= c.rows[i].dy <= c.height - m.height
  }

  /** The column is no larger than its rows make it. */
  predicate Snug(c: Column, m: Measure)
  {
    c.rows != [] && c.height == c.rows[|c.rows| - 1].dy + m.height && exists i | 0 <= i < |c.rows| :: c.width == c.rows[i].dx + m.width
  }

  /** Columns whose padded rectangles are apart have seeds that are apart with padding and tab. */
  lemma SeedsApart(p: Placement, q: Placement, i: nat, j: nat, m: Measure)
    requires Covers(p.column, m) && Covers(q.column, m)
    requires i < |p.column.rows| && j < |q.column.rows|
    requires Apart(Drawn(Body(p)), Drawn(Body(q)))
    ensures Apart(Drawn(SeedAt(p, i, m)), Drawn(SeedAt(q, j, m)))
  {
  }

  /** Two rows of one column never touch: there is a pitch between them, and the clearance left over. */
  lemma RowsApart(p: Placement, i: nat, j: nat, m: Measure)
    requires Roomy(m) && Pitched(p.column.rows, m.spacing.pitch) && i < j < |p.column.rows|
    ensures SeedAt(p, j, m).y >= SeedAt(p, i, m).y + m.height + 2.0 * PAD + TAB_HEIGHT + CLEARANCE
    ensures Apart(Drawn(SeedAt(p, i, m)), Drawn(SeedAt(p, j, m)))
  {
    PitchApart(i, j, m.spacing.pitch, p.column.rows[i].dy, p.column.rows[j].dy);
  }

  lemma PitchApart(i: nat, j: nat, pitch: real, y: real, y': real)
    requires i < j && pitch >= 0.0 && y == i as real * pitch && y' == j as real * pitch
    ensures y' >= y + pitch
  {
    MulMono((i + 1) as real, j as real, pitch);
    Deeper(i, pitch);
  }

  // ---------------------------------------------------------------------- columns

  function Widest(rows: seq<Row>): (w: real)
    requires rows != []
    ensures forall i | 0 <= i < |rows| :: rows[i].dx <= w
    ensures exists i | 0 <= i < |rows| :: rows[i].dx == w
  {
    if |rows| == 1 then rows[0].dx
    else
      var rest := Widest(rows[..|rows| - 1]);
      var last := rows[|rows| - 1].dx;
      if last > rest then last else rest
  }

  /** A column made for one head. */
  ghost predicate ColumnFor(c: Column, head: Creation, folders: map<Path, Creation>, empties: seq<Creation>,
                            rank: Path -> nat, m: Measure)
    requires Acyclic(folders, rank)
  {
    && c.rows != [] && c.rows[0].of == head && c.rows[0].dx == 0.0
    && Pitched(c.rows, m.spacing.pitch) && Indented(folders, c.rows, 0, m.spacing.indent)
    && Walked(folders, empties, rank, c.rows, 0, head) && FolderOrder(folders, empties, rank, c.rows, 0)
    && Covers(c, m) && Snug(c, m)
  }

  /** `columnOf`. */
  method ColumnOf(kids: map<Path, seq<Creation>>, head: Creation, m: Measure,
                  ghost folders: map<Path, Creation>, ghost empties: seq<Creation>, ghost heads: seq<Creation>,
                  ghost rank: Path -> nat, ghost bound: nat)
    returns (column: Column)
    requires Acyclic(folders, rank) && Listing(folders, empties) && Nested(folders, empties, kids, heads)
    requires head in empties && Roomy(m) && (forall c | c in empties :: rank(c.path) <= bound)
    ensures ColumnFor(column, head, folders, empties, rank, m)
  {
    hide Walked, Indented, Nested, Listing, Acyclic, FolderOrder;
    var rows := Walk(kids, head, 0, [], m.spacing, folders, empties, heads, rank, bound);
    column := Column(rows, Widest(rows) + m.width, rows[|rows| - 1].dy + m.height);
    forall i | 0 <= i < |rows|
      ensures 0.0 <= rows[i].dy <= rows[|rows| - 1].dy
    {
      MulMono(0.0, i as real, m.spacing.pitch);
      MulMono(i as real, (|rows| - 1) as real, m.spacing.pitch);
    }
  }

  // ---------------------------------------------------------------- everything placed

  /** The box a column stands under: its head's parent folder, if that has one. */
  function AnchorOf(head: Creation, anchorBoundsFor: Path -> Option<Bounds>): Option<Path>
  {
    if head.parent != "" && anchorBoundsFor(head.parent).Some? then Some(head.parent) else None
  }

  /** Two columns under two different boxes; nothing keeps these clear of each other. */
  predicate DifferentAnchors(a: Option<Path>, b: Option<Path>)
  {
    a.Some? && b.Some? && a != b
  }

  predicate KeptApart(p: Placement, q: Placement)
  {
    DifferentAnchors(p.anchor, q.anchor) || Apart(Reach(p), Reach(q))
  }

  predicate Shown(seeds: map<Id, Rect>, p: Placement, m: Measure)
  {
    forall i | 0 <= i < |p.column.rows| ::
      p.column.rows[i].of.id in seeds && seeds[p.column.rows[i].of.id] == SeedAt(p, i, m)
  }

  predicate HeadOfColumn(p: Placement, head: Creation)
  {
    p.column.rows != [] && p.column.rows[0].of == head
  }

  predicate IsOne(empties: seq<Creation>, id: Id)
  {
    exists c | c in empties :: c.id == id
  }

  predicate IdsDiffer(empties: seq<Creation>)
  {
    forall a, b | a in empties && b in empties && a.id == b.id :: a == b
  }

  /** One pass: its folders, how they nest, and what measures them. */
  datatype Pass = Pass(folders: map<Path, Creation>, empties: seq<Creation>, kids: map<Path, seq<Creation>>,
                       heads: seq<Creation>, rank: Path -> nat, bound: nat, m: Measure,
                       anchorBoundsFor: Path -> Option<Bounds>)

  ghost predicate Ready(pass: Pass)
  {
    && Acyclic(pass.folders, pass.rank) && Listing(pass.folders, pass.empties) && IdsDiffer(pass.empties)
    && Nested(pass.folders, pass.empties, pass.kids, pass.heads)
    && (forall c | c in pass.empties :: pass.rank(c.path) <= pass.bound)
    && Roomy(pass.m)
  }

  /** A placed column is that of its head, and anchored as its head is. */
  ghost predicate ColumnDone(p: Placement, pass: Pass)
    requires Ready(pass)
  {
    && p.column.rows != []
    && var head := p.column.rows[0].of;
       && head in pass.heads
       && ColumnFor(p.column, head, pass.folders, pass.empties, pass.rank, pass.m)
       && p.anchor == AnchorOf(head, pass.anchorBoundsFor)
  }

  ghost predicate AllDone(cols: seq<Placement>, seeds: map<Id, Rect>, pass: Pass)
    requires Ready(pass)
  {
    forall p | p in cols :: ColumnDone(p, pass) && Shown(seeds, p, pass.m)
  }

  predicate AllApart(cols: seq<Placement>)
  {
    forall i, j | 0 <= i < j < |cols| :: KeptApart(cols[i], cols[j])
  }

  predicate OnlyTheirs(seeds: map<Id, Rect>, empties: seq<Creation>)
  {
    forall id | id in seeds :: IsOne(empties, id)
  }

  /** The columns placed so far, and the seeds that show them. */
  ghost predicate Settled(cols: seq<Placement>, seeds: map<Id, Rect>, pass: Pass)
    requires Ready(pass)
  {
    AllDone(cols, seeds, pass) && AllApart(cols) && OnlyTheirs(seeds, pass.empties)
  }

  predicate NotYet(cols: seq<Placement>, head: Creation)
  {
    forall p | p in cols :: !HeadOfColumn(p, head)
  }

  /** `place`. */
  method Place(seeds: map<Id, Rect>, p: Placement, m: Measure, ghost empties: seq<Creation>)
    returns (more: map<Id, Rect>)
    requires RowsDiffer(p.column.rows, 0) && IdsDiffer(empties)
    requires forall i | 0 <= i < |p.column.rows| :: p.column.rows[i].of in empties
    requires OnlyTheirs(seeds, empties)
    ensures Shown(more, p, m) && OnlyTheirs(more, empties)
    ensures forall id | id in seeds :: id in more
    ensures forall id | id in seeds && (forall i | 0 <= i < |p.column.rows| :: p.column.rows[i].of.id != id) ::
              more[id] == seeds[id]
  {
    more := seeds;
    var rows := p.column.rows;
    for k := 0 to |rows|
      invariant forall i | 0 <= i < k :: rows[i].of.id in more && more[rows[i].of.id] == SeedAt(p, i, m)
      invariant OnlyTheirs(more, empties)
      invariant forall id | id in seeds :: id in more
      invariant forall id | id in seeds && (forall i | 0 <= i < |rows| :: rows[i].of.id != id) :: more[id] == seeds[id]
    {
      assert forall i | 0 <= i < k :: rows[i].of.id != rows[k].of.id;
      more := more[rows[k].of.id := SeedAt(p, k, m)];
    }
  }

  /** A column of another head shares no folder with this one. */
  lemma OtherRows(p: Placement, q: Placement, i: nat, j: nat, folders: map<Path, Creation>, empties: seq<Creation>,
                  rank: Path -> nat)
    requires Acyclic(folders, rank)
    requires i < |p.column.rows| && j < |q.column.rows|
    requires Over(folders, p.column.rows[0].of).None? && Over(folders, q.column.rows[0].of).None?
    requires Walked(folders, empties, rank, p.column.rows, 0, p.column.rows[0].of)
    requires Walked(folders, empties, rank, q.column.rows, 0, q.column.rows[0].of)
    requires p.column.rows[0].of != q.column.rows[0].of
    ensures p.column.rows[i].of != q.column.rows[j].of
  {
    var c := p.column.rows[i].of;
    if c == q.column.rows[j].of {
      assert Lists(p.column.rows, 0, c) && Lists(q.column.rows, 0, c);
      UnderIsUnique(folders, rank, c, p.column.rows[0].of, q.column.rows[0].of);
      assert false;
    }
  }

  lemma RowsAreFound(p: Placement, i: nat, folders: map<Path, Creation>, empties: seq<Creation>, rank: Path -> nat)
    requires Acyclic(folders, rank) && i < |p.column.rows|
    requires Walked(folders, empties, rank, p.column.rows, 0, p.column.rows[0].of)
    ensures p.column.rows[i].of in empties
  {
    assert Lists(p.column.rows, 0, p.column.rows[i].of);
  }

  /** Places one more column, clear of all those it has to be clear of. */
  method PutColumn(seeds: map<Id, Rect>, p: Placement, ghost cols: seq<Placement>, m: Measure, ghost pass: Pass)
    returns (more: map<Id, Rect>)
    requires Ready(pass) && m == pass.m && Settled(cols, seeds, pass)
    requires ColumnDone(p, pass) && NotYet(cols, p.column.rows[0].of)
    requires forall q | q in cols :: KeptApart(q, p)
    ensures Settled(cols + [p], more, pass)
  {
    hide Walked, KeptApart, Shown, Covers, Indented, Pitched, Nested, Listing, Acyclic, OnlyTheirs, Roomy;
    forall i | 0 <= i < |p.column.rows|
      ensures p.column.rows[i].of in pass.empties
    {
      RowsAreFound(p, i, pass.folders, pass.empties, pass.rank);
    }
    RowsDo(p, pass);
    more := Place(seeds, p, m, pass.empties);
    forall q | q in cols
      ensures Shown(more, q, m)
    {
      StillShown(q, p, seeds, more, pass);
    }
  }

  lemma RowsDo(p: Placement, pass: Pass)
    requires Ready(pass) && ColumnDone(p, pass)
    ensures RowsDiffer(p.column.rows, 0)
  {
  }

  lemma StillShown(q: Placement, p: Placement, seeds: map<Id, Rect>, more: map<Id, Rect>, pass: Pass)
    requires Ready(pass) && ColumnDone(q, pass) && ColumnDone(p, pass) && Shown(seeds, q, pass.m)
    requires p.column.rows[0].of != q.column.rows[0].of
    requires forall id | id in seeds :: id in more
    requires forall id | id in seeds && (forall i | 0 <= i < |p.column.rows| :: p.column.rows[i].of.id != id) ::
               more[id] == seeds[id]
    ensures Shown(more, q, pass.m)
  {
    hide Indented, Pitched, Listing, Acyclic, Roomy, Covers;
    HeadsAreFree(pass, p.column.rows[0].of);
    HeadsAreFree(pass, q.column.rows[0].of);
    forall j | 0 <= j < |q.column.rows|
      ensures var id := q.column.rows[j].of.id; id in more && more[id] == SeedAt(q, j, pass.m)
    {
      RowsAreFound(q, j, pass.folders, pass.empties, pass.rank);
      forall i | 0 <= i < |p.column.rows|
        ensures p.column.rows[i].of.id != q.column.rows[j].of.id
      {
        RowsAreFound(p, i, pass.folders, pass.empties, pass.rank);
        OtherRows(p, q, i, j, pass.folders, pass.empties, pass.rank);
      }
    }
  }

  lemma HeadsAreFree(pass: Pass, h: Creation)
    requires Ready(pass) && h in pass.heads
    ensures h in pass.empties && Over(pass.folders, h).None?
  {
  }

  // ----------------------------------------------------------- columns under a box

  /** Where the first column under a box goes: the least lattice point an indent right of the box's left edge and a row's gap below it. */
  function AnchorCorner(bounds: Bounds, steps: Steps, m: Measure): (corner: Point)
    requires steps.minorX > 0.0 && steps.minorY > 0.0
    ensures corner.x >= bounds.minX + m.spacing.indent && corner.y >= bounds.maxY + m.spacing.pitch - m.height
    ensures OnLattice(corner.x, steps.minorX) && corner.x < bounds.minX + m.spacing.indent + steps.minorX
    ensures OnLattice(corner.y, steps.minorY) && corner.y < bounds.maxY + m.spacing.pitch - m.height + steps.minorY
  {
    Point(CeilTo(bounds.minX + m.spacing.indent, steps.minorX),
          CeilTo(bounds.maxY + m.spacing.pitch - m.height, steps.minorY))
  }

  /** Two stretches of a line that start at `a` and `b` are less than `gap` apart. */
  predicate Near(a: real, length: real, b: real, length': real, gap: real)
  {
    a < b + length' + gap && b < a + length + gap
  }

  /** The first columns under two boxes collide exactly when their corners are nearer than sizes, padding and tab allow. */
  lemma TwoBoxesCollideIff(b: Bounds, c: Bounds, steps: Steps, m: Measure, p: Placement, q: Placement)
    requires steps.minorX > 0.0 && steps.minorY > 0.0
    requires Point(p.x, p.y) == AnchorCorner(b, steps, m) && Point(q.x, q.y) == AnchorCorner(c, steps, m)
    ensures !Apart(Drawn(Body(p)), Drawn(Body(q))) <==>
            var here, there := AnchorCorner(b, steps, m), AnchorCorner(c, steps, m);
            && Near(here.x, p.column.width, there.x, q.column.width, 2.0 * PAD)
            && Near(here.y, p.column.height, there.y, q.column.height, 2.0 * PAD + TAB_HEIGHT)
  {
    hide AnchorCorner;
    var here, there := AnchorCorner(b, steps, m), AnchorCorner(c, steps, m);
    assert p.x == here.x && p.y == here.y && q.x == there.x && q.y == there.y;
  }

  /** Columns under two different boxes can collide: those of boxes with the same left and lower edge always do. */
  lemma TwoBoxesCanCollide(b: Bounds, c: Bounds, steps: Steps, m: Measure, p: Placement, q: Placement)
    requires steps.minorX > 0.0 && steps.minorY > 0.0
    requires b.minX == c.minX && b.maxY == c.maxY
    requires Point(p.x, p.y) == AnchorCorner(b, steps, m) && Point(q.x, q.y) == AnchorCorner(c, steps, m)
    requires p.column.width >= 0.0 && p.column.height >= 0.0 && q.column.width >= 0.0 && q.column.height >= 0.0
    ensures !Apart(Drawn(Body(p)), Drawn(Body(q)))
  {
    TwoBoxesCollideIff(b, c, steps, m, p, q);
  }

  /** The columns under one box, in the order they were placed. */
  function ColumnsUnder(cols: seq<Placement>, path: Path): seq<Column>
  {
    if cols == [] then []
    else
      var last := cols[|cols| - 1];
      ColumnsUnder(cols[..|cols| - 1], path) + if last.anchor == Some(path) then [last.column] else []
  }

  /** Where the next column under a box goes, below these. */
  function StackY(bounds: Bounds, above: seq<Column>, steps: Steps, m: Measure): real
    requires steps.minorX > 0.0 && steps.minorY > 0.0
  {
    if above == [] then AnchorCorner(bounds, steps, m).y
    else
      var y := StackY(bounds, above[..|above| - 1], steps, m);
      CeilTo(y + above[|above| - 1].height + m.spacing.pitch - m.height, steps.minorY)
  }

  /** A column under a box stands at the box's corner, below the columns placed under it before. */
  predicate StandsAt(cols: seq<Placement>, n: nat, steps: Steps, m: Measure, anchorBoundsFor: Path -> Option<Bounds>)
    requires n < |cols| && steps.minorX > 0.0 && steps.minorY > 0.0
  {
    cols[n].anchor.Some? && anchorBoundsFor(cols[n].anchor.value).Some? ==>
      var path, bounds := cols[n].anchor.value, anchorBoundsFor(cols[n].anchor.value).value;
      && cols[n].x == AnchorCorner(bounds, steps, m).x
      && cols[n].y == StackY(bounds, ColumnsUnder(cols[..n], path), steps, m)
  }

  predicate AllStand(cols: seq<Placement>, steps: Steps, m: Measure, anchorBoundsFor: Path -> Option<Bounds>)
    requires steps.minorX > 0.0 && steps.minorY > 0.0
  {
    forall n | 0 <= n < |cols| :: StandsAt(cols, n, steps, m, anchorBoundsFor)
  }

  lemma OneMoreUnder(cols: seq<Placement>, p: Placement, path: Path)
    ensures ColumnsUnder(cols + [p], path) == ColumnsUnder(cols, path) + if p.anchor == Some(path) then [p.column] else []
  {
    assert (cols + [p])[..|cols|] == cols;
  }

  lemma {:induction false} NoneUnder(cols: seq<Placement>, path: Path)
    requires forall p | p in cols :: p.anchor != Some(path)
    ensures ColumnsUnder(cols, path) == []
  {
    if cols != [] {
      assert cols[|cols| - 1] in cols;
      NoneUnder(cols[..|cols| - 1], path);
    }
  }

  lemma StandOneMore(cols: seq<Placement>, p: Placement, steps: Steps, m: Measure, anchorBoundsFor: Path -> Option<Bounds>)
    requires steps.minorX > 0.0 && steps.minorY > 0.0 && AllStand(cols, steps, m, anchorBoundsFor)
    requires p.anchor.Some? && anchorBoundsFor(p.anchor.value).Some? ==>
               var path, bounds := p.anchor.value, anchorBoundsFor(p.anchor.value).value;
               p.x == AnchorCorner(bounds, steps, m).x && p.y == StackY(bounds, ColumnsUnder(cols, path), steps, m)
    ensures AllStand(cols + [p], steps, m, anchorBoundsFor)
  {
    var more := cols + [p];
    forall n | 0 <= n < |more|
      ensures StandsAt(more, n, steps, m, anchorBoundsFor)
    {
      if n < |cols| {
        assert StandsAt(cols, n, steps, m, anchorBoundsFor);
        assert more[..n] == cols[..n];
      } else {
        assert more[..n] == cols;
      }
    }
  }

  /** Any two columns under two different boxes collide exactly when the places their boxes and stacks give them are too near. */
  lemma AnchoredCollideIff(cols: seq<Placement>, k: nat, l: nat, steps: Steps, m: Measure,
                           anchorBoundsFor: Path -> Option<Bounds>)
    requires steps.minorX > 0.0 && steps.minorY > 0.0 && AllStand(cols, steps, m, anchorBoundsFor)
    requires k < |cols| && l < |cols| && cols[k].anchor.Some? && cols[l].anchor.Some?
    requires anchorBoundsFor(cols[k].anchor.value).Some? && anchorBoundsFor(cols[l].anchor.value).Some?
    ensures !Apart(Drawn(Body(cols[k])), Drawn(Body(cols[l]))) <==>
            var a, b := anchorBoundsFor(cols[k].anchor.value).value, anchorBoundsFor(cols[l].anchor.value).value;
            var above, above' := ColumnsUnder(cols[..k], cols[k].anchor.value), ColumnsUnder(cols[..l], cols[l].anchor.value);
            && Near(AnchorCorner(a, steps, m).x, cols[k].column.width, AnchorCorner(b, steps, m).x, cols[l].column.width, 2.0 * PAD)
            && Near(StackY(a, above, steps, m), cols[k].column.height, StackY(b, above', steps, m), cols[l].column.height,
                    2.0 * PAD + TAB_HEIGHT)
  {
    assert StandsAt(cols, k, steps, m, anchorBoundsFor) && StandsAt(cols, l, steps, m, anchorBoundsFor);
    hide StackY, AnchorCorner, ColumnsUnder;
  }

  /** The columns under one box stack: this one has the corner's x, and leaves a row's gap above `y`. */
  predicate Above(p: Placement, x: real, y: real, m: Measure)
  {
    p.x == x && p.y + p.column.height + m.spacing.pitch - m.height <= y
  }

  lemma StackIsApart(p: Placement, q: Placement, m: Measure)
    requires Roomy(m) && Above(p, q.x, q.y, m)
    ensures KeptApart(p, q)
  {
  }

  /** The footprints of the columns placed so far, as the code keeps them. */
  predicate Tracks(placed: seq<Rect>, cols: seq<Placement>)
  {
    |placed| == |cols| && forall i | 0 <= i < |cols| :: placed[i] == Footprint(cols[i])
  }

  /** Each column under this box is for one of the first `k` heads of its group, and above `y`. */
  predicate Stacked(cols: seq<Placement>, path: Path, group: seq<Creation>, k: nat, x: real, y: real, m: Measure)
    requires k <= |group|
  {
    forall p | p in cols && p.anchor == Some(path) :: Above(p, x, y, m) && exists i | 0 <= i < k :: HeadOfColumn(p, group[i])
  }

  /** Columns under boxes come first; those under one box, and those under none, are in folder order. */
  predicate ColumnsOrdered(cols: seq<Placement>, empties: seq<Creation>)
  {
    forall i, j | 0 <= i < j < |cols| :: Follows(cols[i], cols[j], empties)
  }

  predicate Follows(p: Placement, q: Placement, empties: seq<Creation>)
  {
    && (p.anchor.None? ==> q.anchor.None?)
    && (p.anchor == q.anchor ==> p.column.rows != [] && q.column.rows != [] && Before(empties, p.column.rows[0].of, q.column.rows[0].of))
  }

  lemma OrderOneMore(cols: seq<Placement>, p: Placement, empties: seq<Creation>)
    requires ColumnsOrdered(cols, empties) && forall q | q in cols :: Follows(q, p, empties)
    ensures ColumnsOrdered(cols + [p], empties)
  {
    hide Follows;
    var more := cols + [p];
    forall i, j | 0 <= i < j < |more|
      ensures Follows(more[i], more[j], empties)
    {
      if j == |cols| {
        assert cols[i] in cols;
      }
    }
  }

  predicate Has(cols: seq<Placement>, head: Creation)
  {
    exists p | p in cols :: HeadOfColumn(p, head)
  }

  method ColumnOfHead(kids: map<Path, seq<Creation>>, head: Creation, m: Measure, ghost pass: Pass)
    returns (column: Column)
    requires Ready(pass) && m == pass.m && kids == pass.kids && head in pass.heads
    ensures ColumnFor(column, head, pass.folders, pass.empties, pass.rank, m)
  {
    HeadsAreFree(pass, head);
    column := ColumnOf(kids, head, m, pass.folders, pass.empties, pass.heads, pass.rank, pass.bound);
  }

  lemma StackTakes(cols: seq<Placement>, p: Placement, path: Path, group: seq<Creation>, k: nat, x: real, y: real, pass: Pass)
    requires Ready(pass) && k < |group| && NoRepeats(group) && group[k] in pass.heads
    requires AnchorOf(group[k], pass.anchorBoundsFor) == Some(path)
    requires ColumnFor(p.column, group[k], pass.folders, pass.empties, pass.rank, pass.m)
    requires p.x == x && p.y == y && p.anchor == Some(path)
    requires forall q | q in cols :: q.anchor.Some? && ColumnDone(q, pass)
    requires Stacked(cols, path, group, k, x, y, pass.m)
    requires InOrder(group, pass.empties)
    ensures ColumnDone(p, pass) && NotYet(cols, p.column.rows[0].of)
    ensures forall q | q in cols :: KeptApart(q, p) && Follows(q, p, pass.empties)
  {
    hide Walked, Covers, Indented, Pitched, Apart, Drawn, FolderOrder, Before;
    forall q | q in cols
      ensures !HeadOfColumn(q, group[k]) && KeptApart(q, p) && Follows(q, p, pass.empties)
    {
      if q.anchor == Some(path) {
        assert Above(q, x, y, pass.m);
        StackIsApart(q, p, pass.m);
        var i :| 0 <= i < k && HeadOfColumn(q, group[i]);
        assert Before(pass.empties, group[i], group[k]);
      }
    }
  }

  lemma StackGrows(cols: seq<Placement>, p: Placement, path: Path, group: seq<Creation>, k: nat,
                   x: real, y: real, y': real, m: Measure)
    requires k < |group| && HeadOfColumn(p, group[k]) && p.x == x && p.y == y
    requires m.height <= m.spacing.pitch && p.column.height >= 0.0
    requires Stacked(cols, path, group, k, x, y, m)
    requires y' >= y + p.column.height + m.spacing.pitch - m.height
    ensures Stacked(cols + [p], path, group, k + 1, x, y', m)
    ensures Has(cols + [p], group[k])
    ensures forall h | Has(cols, h) :: Has(cols + [p], h)
  {
    forall q | q in cols + [p] && q.anchor == Some(path)
      ensures Above(q, x, y', m) && exists i | 0 <= i < k + 1 :: HeadOfColumn(q, group[i])
    {
      if q in cols {
        var i :| 0 <= i < k && HeadOfColumn(q, group[i]);
        assert i < k + 1;
      }
    }
    assert p in cols + [p];
    forall h | Has(cols, h)
      ensures Has(cols + [p], h)
    {
      var q :| q in cols && HeadOfColumn(q, h);
      assert q in cols + [p];
    }
  }

  lemma NothingStacked(cols: seq<Placement>, path: Path, group: seq<Creation>, x: real, y: real, m: Measure)
    requires forall p | p in cols :: p.anchor != Some(path)
    ensures Stacked(cols, path, group, 0, x, y, m)
  {
  }

  lemma ColumnIsTall(c: Column, head: Creation, pass: Pass)
    requires Ready(pass) && ColumnFor(c, head, pass.folders, pass.empties, pass.rank, pass.m)
    ensures c.height >= pass.m.height >= 0.0 && c.rows != [] && c.rows[0].of == head
  {
  }

  lemma NextY(bounds: Bounds, above: seq<Column>, column: Column, steps: Steps, m: Measure)
    requires steps.minorX > 0.0 && steps.minorY > 0.0
    ensures StackY(bounds, above + [column], steps, m) ==
            CeilTo(StackY(bounds, above, steps, m) + column.height + m.spacing.pitch - m.height, steps.minorY)
    ensures var y, next := StackY(bounds, above, steps, m), StackY(bounds, above + [column], steps, m);
            var gap := y + column.height + m.spacing.pitch - m.height;
            gap <= next < gap + steps.minorY && OnLattice(next, steps.minorY)
  {
    assert (above + [column])[..|above|] == above;
  }

  /** The columns of one group of heads, stacked below the box they share. */
  method StackUnder(path: Path, bounds: Bounds, group: seq<Creation>, kids: map<Path, seq<Creation>>, steps: Steps, m: Measure,
                    seeds: map<Id, Rect>, placed: seq<Rect>, ghost cols: seq<Placement>, ghost pass: Pass)
    returns (more: map<Id, Rect>, placed': seq<Rect>, ghost cols': seq<Placement>)
    requires Ready(pass) && m == pass.m && kids == pass.kids && steps.minorX > 0.0 && steps.minorY > 0.0
    requires pass.anchorBoundsFor(path) == Some(bounds)
    requires NoRepeats(group) && forall h | h in group :: h in pass.heads && AnchorOf(h, pass.anchorBoundsFor) == Some(path)
    requires Settled(cols, seeds, pass) && Tracks(placed, cols)
    requires forall p | p in cols :: p.anchor.Some? && p.anchor != Some(path)
    requires AllStand(cols, steps, m, pass.anchorBoundsFor)
    requires InOrder(group, pass.empties) && ColumnsOrdered(cols, pass.empties)
    ensures Settled(cols', more, pass) && Tracks(placed', cols')
    ensures cols <= cols' && forall p | p in cols' :: p in cols || p.anchor == Some(path)
    ensures forall h | h in group :: Has(cols', h)
    ensures AllStand(cols', steps, m, pass.anchorBoundsFor) && ColumnsOrdered(cols', pass.empties)
    ensures forall p | p in cols' && p.anchor == Some(path) ::
              p.x >= bounds.minX + m.spacing.indent && p.y >= bounds.maxY + m.spacing.pitch - m.height
  {
    hide ColumnFor, ColumnDone, Shown, KeptApart, AllApart, OnlyTheirs, Covers, Stacked, Has, Acyclic, Listing, Nested, IdsDiffer;
    hide AllStand, StandsAt, ColumnsUnder, CeilTo, ColumnsOrdered, InOrder;
    more, placed', cols' := seeds, placed, cols;
    var corner := AnchorCorner(bounds, steps, m);
    var x, y := corner.x, corner.y;
    NothingStacked(cols, path, group, x, y, m);
    NoneUnder(cols, path);
    for k := 0 to |group|
      invariant Settled(cols', more, pass) && Tracks(placed', cols')
      invariant cols <= cols' && forall p | p in cols' :: p in cols || p.anchor == Some(path)
      invariant Stacked(cols', path, group, k, x, y, m) && AllStand(cols', steps, m, pass.anchorBoundsFor)
      invariant ColumnsOrdered(cols', pass.empties)
      invariant y == StackY(bounds, ColumnsUnder(cols', path), steps, m)
      invariant y >= bounds.maxY + m.spacing.pitch - m.height
      invariant forall p | p in cols' && p.anchor == Some(path) ::
                  p.x >= bounds.minX + m.spacing.indent && p.y >= bounds.maxY + m.spacing.pitch - m.height
      invariant forall i | 0 <= i < k :: Has(cols', group[i])
    {
      var head := group[k];
      assert head in group;
      var column := ColumnOfHead(kids, head, m, pass);
      var p := Placement(column, x, y, Some(path));
      ColumnIsTall(column, head, pass);
      StackTakes(cols', p, path, group, k, x, y, pass);
      more := PutColumn(more, p, cols', m, pass);
      ghost var previous := cols';
      cols' := cols' + [p];
      placed' := placed' + [DrawnFootprint(x, y, column.width, column.height)];
      var next := CeilTo(y + column.height + m.spacing.pitch - m.height, steps.minorY);
      StackGrows(previous, p, path, group, k, x, y, next, m);
      OrderOneMore(previous, p, pass.empties);
      StandOneMore(previous, p, steps, m, pass.anchorBoundsFor);
      OneMoreUnder(previous, p, path);
      NextY(bounds, ColumnsUnder(previous, path), column, steps, m);
      y := next;
    }
  }

  // ---------------------------------------------------------------- groups of heads

  /** The heads by the box they stand under, and those under none, in their order. */
  ghost predicate Grouped(heads: seq<Creation>, anchorBoundsFor: Path -> Option<Bounds>,
                          anchors: seq<Path>, underAnchor: map<Path, seq<Creation>>, roots: seq<Creation>)
  {
    && NoRepeats(anchors) && NoRepeats(roots) && InOrder(roots, heads) && ListsInOrder(underAnchor, heads)
    && (forall a :: a in anchors <==> a in underAnchor)
    && (forall a | a in underAnchor :: NoRepeats(underAnchor[a]) && anchorBoundsFor(a).Some?)
    && (forall a, h | a in underAnchor && h in underAnchor[a] :: h in heads && AnchorOf(h, anchorBoundsFor) == Some(a))
    && (forall h | h in roots :: h in heads && AnchorOf(h, anchorBoundsFor) == None)
    && (forall h | h in heads :: if AnchorOf(h, anchorBoundsFor).None? then h in roots
                                 else h.parent in underAnchor && h in underAnchor[h.parent])
  }

  lemma GroupUnder(heads: seq<Creation>, anchorBoundsFor: Path -> Option<Bounds>, anchors: seq<Path>,
                   underAnchor: map<Path, seq<Creation>>, roots: seq<Creation>, head: Creation)
    requires Grouped(heads, anchorBoundsFor, anchors, underAnchor, roots) && head !in heads
    requires AnchorOf(head, anchorBoundsFor).Some?
    ensures var path := head.parent;
            && (path in underAnchor ==>
                  Grouped(heads + [head], anchorBoundsFor, anchors, underAnchor[path := underAnchor[path] + [head]], roots))
            && (path !in underAnchor ==>
                  Grouped(heads + [head], anchorBoundsFor, anchors + [path], underAnchor[path := [head]], roots))
  {
    AddedInOrder(roots, heads, head);
    ListedInOrder(underAnchor, heads, head);
    hide InOrder, ListsInOrder;
  }

  lemma GroupRoot(heads: seq<Creation>, anchorBoundsFor: Path -> Option<Bounds>, anchors: seq<Path>,
                  underAnchor: map<Path, seq<Creation>>, roots: seq<Creation>, head: Creation)
    requires Grouped(heads, anchorBoundsFor, anchors, underAnchor, roots) && head !in heads
    requires AnchorOf(head, anchorBoundsFor).None?
    ensures Grouped(heads + [head], anchorBoundsFor, anchors, underAnchor, roots + [head])
  {
    AddedInOrder(roots, heads, head);
    ListedInOrder(underAnchor, heads, head);
    hide InOrder, ListsInOrder;
  }

  lemma GroupNone(anchorBoundsFor: Path -> Option<Bounds>)
    ensures Grouped([], anchorBoundsFor, [], map[], [])
  {
  }

  method GroupHeads(heads: seq<Creation>, anchorBoundsFor: Path -> Option<Bounds>)
    returns (anchors: seq<Path>, underAnchor: map<Path, seq<Creation>>, roots: seq<Creation>)
    requires NoRepeats(heads)
    ensures Grouped(heads, anchorBoundsFor, anchors, underAnchor, roots)
  {
    anchors, underAnchor, roots := [], map[], [];
    GroupNone(anchorBoundsFor);
    hide Grouped;
    for i := 0 to |heads|
      invariant Grouped(heads[..i], anchorBoundsFor, anchors, underAnchor, roots)
    {
      var head := heads[i];
      assert head !in heads[..i];
      assert heads[..i + 1] == heads[..i] + [head];
      if AnchorOf(head, anchorBoundsFor).Some? {
        GroupUnder(heads[..i], anchorBoundsFor, anchors, underAnchor, roots, head);
        ghost var before := underAnchor;
        if head.parent !in underAnchor {
          anchors := anchors + [head.parent];
          underAnchor := underAnchor[head.parent := []];
        }
        underAnchor := underAnchor[head.parent := underAnchor[head.parent] + [head]];
        assert [] + [head] == [head];
        assert head.parent !in before ==> underAnchor == before[head.parent := [head]];
      } else {
        GroupRoot(heads[..i], anchorBoundsFor, anchors, underAnchor, roots, head);
        roots := roots + [head];
      }
    }
    assert heads[..|heads|] == heads;
  }

  // -------------------------------------------------------------------- free columns

  predicate Blocked(rect: Rect, obstacles: seq<Rect>, placed: seq<Rect>)
  {
    (exists o | o in obstacles :: RectsOverlap(rect, o)) || exists o | o in placed :: RectsOverlap(rect, o)
  }

  predicate FreeAt(c: Point, column: Column, obstacles: seq<Rect>, placed: seq<Rect>)
  {
    !Blocked(DrawnFootprint(c.x, c.y, column.width, column.height), obstacles, placed)
  }

  /** The first candidate where a column is free, if there is one. */
  predicate FirstFree(spot: Option<Point>, candidates: seq<Point>, column: Column, obstacles: seq<Rect>, placed: seq<Rect>)
  {
    match spot
    case None => forall c | c in candidates :: !FreeAt(c, column, obstacles, placed)
    case Some(c) =>
      && FreeAt(c, column, obstacles, placed)
      && exists i | 0 <= i < |candidates| :: candidates[i] == c && forall j | 0 <= j < i :: !FreeAt(candidates[j], column, obstacles, placed)
  }

  /** The first candidate where the column is clear of everything. */
  method FindSpot(candidates: seq<Point>, column: Column, obstacles: seq<Rect>, placed: seq<Rect>)
    returns (spot: Option<Point>)
    ensures FirstFree(spot, candidates, column, obstacles, placed)
  {
    for i := 0 to |candidates|
      invariant forall j | 0 <= j < i :: !FreeAt(candidates[j], column, obstacles, placed)
    {
      if FreeAt(candidates[i], column, obstacles, placed) {
        return Some(candidates[i]);
      }
    }
    return None;
  }

  /** The lowest edge of what is placed, or the spawn point. */
  function Lowest(placed: seq<Rect>, from: real): (low: real)
    ensures low >= from
    ensures forall r | r in placed :: r.y + r.height <= low
  {
    if placed == [] then from
    else
      var low := Lowest(placed[..|placed| - 1], from);
      var edge := placed[|placed| - 1].y + placed[|placed| - 1].height;
      if edge > low then edge else low
  }

  /** Footprints that do not overlap keep what the columns reach apart, with room for the tolerance. */
  lemma ClearIsApart(p: Placement, q: Placement)
    requires !RectsOverlap(Footprint(p), Footprint(q))
    ensures KeptApart(q, p)
  {
  }

  /** Going down from the lowest edge by a tab and the padding clears everything placed. */
  lemma BelowIsApart(p: Placement, q: Placement, low: real)
    requires Footprint(q).y + Footprint(q).height <= low
    requires p.y >= low + TAB_HEIGHT + OUTLINE_PAD + NEST_PAD
    ensures KeptApart(q, p)
  {
  }

  /** A column, padded and tabbed, is apart from the obstacles; the clearance absorbs the tolerance. */
  predicate ClearOf(p: Placement, obstacles: seq<Rect>)
  {
    forall o | o in obstacles :: Apart(Drawn(Body(p)), o)
  }

  lemma FreeMeans(p: Placement, obstacles: seq<Rect>, placed: seq<Rect>, cols: seq<Placement>)
    requires FreeAt(Point(p.x, p.y), p.column, obstacles, placed) && Tracks(placed, cols)
    ensures ClearOf(p, obstacles)
    ensures forall q | q in cols :: KeptApart(q, p)
  {
    forall q | q in cols
      ensures KeptApart(q, p)
    {
      var i :| 0 <= i < |cols| && cols[i] == q;
      assert placed[i] in placed;
      assert !RectsOverlap(Footprint(p), placed[i]);
      ClearIsApart(p, q);
    }
    forall o | o in obstacles
      ensures Apart(Drawn(Body(p)), o)
    {
      assert !RectsOverlap(Footprint(p), o);
    }
  }

  lemma BelowMeans(p: Placement, placed: seq<Rect>, cols: seq<Placement>, from: real)
    requires Tracks(placed, cols) && p.y >= Lowest(placed, from) + TAB_HEIGHT + OUTLINE_PAD + NEST_PAD
    ensures forall q | q in cols :: KeptApart(q, p)
  {
    forall q | q in cols
      ensures KeptApart(q, p)
    {
      var i :| 0 <= i < |cols| && cols[i] == q;
      assert placed[i] in placed;
      BelowIsApart(p, q, Lowest(placed, from));
    }
  }

  // ------------------------------------------------------------------- every column

  /** A column under a box starts right of the box's corner by an indent, and below it by a row's gap. */
  predicate BelowItsBox(p: Placement, pass: Pass)
  {
    p.anchor.Some? && pass.anchorBoundsFor(p.anchor.value).Some? ==>
      var b := pass.anchorBoundsFor(p.anchor.value).value;
      p.x >= b.minX + pass.m.spacing.indent && p.y >= b.maxY + pass.m.spacing.pitch - pass.m.height
  }

  function Footprints(cols: seq<Placement>): (placed: seq<Rect>)
    ensures Tracks(placed, cols)
  {
    seq(|cols|, i requires 0 <= i < |cols| => Footprint(cols[i]))
  }

  /** What a column under no box is placed by: the spawn point, the candidates, what is in the way, and the grid. */
  datatype Search = Search(origin: Point, candidates: seq<Point>, obstacles: seq<Rect>, steps: Steps)

  /** The least major lattice point at or right of the spawn point, and below everything placed by a tab and the padding. */
  function BelowAll(placed: seq<Rect>, search: Search): (at: Point)
    requires search.steps.majorX > 0.0 && search.steps.majorY > 0.0
    ensures search.origin.x <= at.x < search.origin.x + search.steps.majorX && OnLattice(at.x, search.steps.majorX)
    ensures Lowest(placed, search.origin.y) + 40.0 <= at.y < Lowest(placed, search.origin.y) + 40.0 + search.steps.majorY
    ensures OnLattice(at.y, search.steps.majorY)
  {
    Point(CeilTo(search.origin.x, search.steps.majorX),
          CeilTo(Lowest(placed, search.origin.y) + TAB_HEIGHT + OUTLINE_PAD + NEST_PAD, search.steps.majorY))
  }

  /** A column stands at the first free candidate, or if there is none below everything placed. */
  predicate SitsBy(p: Placement, placed: seq<Rect>, search: Search)
    requires search.steps.majorX > 0.0 && search.steps.majorY > 0.0
  {
    || FirstFree(Some(Point(p.x, p.y)), search.candidates, p.column, search.obstacles, placed)
    || (FirstFree(None, search.candidates, p.column, search.obstacles, placed) && Point(p.x, p.y) == BelowAll(placed, search))
  }

  /** A column under no box sits by the footprints of all columns placed before it. */
  predicate Sited(cols: seq<Placement>, n: nat, search: Search)
    requires n < |cols| && search.steps.majorX > 0.0 && search.steps.majorY > 0.0
  {
    cols[n].anchor.None? ==> SitsBy(cols[n], Footprints(cols[..n]), search)
  }

  predicate AllSited(cols: seq<Placement>, search: Search)
    requires search.steps.majorX > 0.0 && search.steps.majorY > 0.0
  {
    forall n | 0 <= n < |cols| :: Sited(cols, n, search)
  }

  /** So it is clear of the obstacles, unless no candidate was free when it was placed. */
  lemma SitedIsClear(cols: seq<Placement>, n: nat, search: Search)
    requires search.steps.majorX > 0.0 && search.steps.majorY > 0.0 && AllSited(cols, search)
    requires n < |cols| && cols[n].anchor.None?
    ensures ClearOf(cols[n], search.obstacles) || FirstFree(None, search.candidates, cols[n].column, search.obstacles, Footprints(cols[..n]))
  {
    assert Sited(cols, n, search);
    hide BelowAll;
    var placed := Footprints(cols[..n]);
    if FirstFree(Some(Point(cols[n].x, cols[n].y)), search.candidates, cols[n].column, search.obstacles, placed) {
      FreeMeans(cols[n], search.obstacles, placed, cols[..n]);
    }
  }

  predicate AllBelow(cols: seq<Placement>, pass: Pass)
  {
    forall p | p in cols :: BelowItsBox(p, pass)
  }

  lemma TracksFootprints(placed: seq<Rect>, cols: seq<Placement>)
    requires Tracks(placed, cols)
    ensures placed == Footprints(cols)
  {
  }

  lemma SiteOneMore(cols: seq<Placement>, p: Placement, search: Search)
    requires search.steps.majorX > 0.0 && search.steps.majorY > 0.0 && AllSited(cols, search)
    requires p.anchor.None? ==> SitsBy(p, Footprints(cols), search)
    ensures AllSited(cols + [p], search)
  {
    hide SitsBy;
    var more := cols + [p];
    forall n | 0 <= n < |more|
      ensures Sited(more, n, search)
    {
      if n < |cols| {
        assert Sited(cols, n, search);
        assert more[..n] == cols[..n];
      } else {
        assert more[..n] == cols;
      }
    }
  }

  lemma SiteAnchored(cols: seq<Placement>, search: Search)
    requires search.steps.majorX > 0.0 && search.steps.majorY > 0.0 && forall p | p in cols :: p.anchor.Some?
    ensures AllSited(cols, search)
  {
  }

  lemma LowerStill(placed: seq<Rect>, r: Rect, from: real)
    ensures Lowest(placed + [r], from) >= Lowest(placed, from) && Lowest(placed + [r], from) >= r.y + r.height
  {
    assert (placed + [r])[..|placed|] == placed;
  }

  /** The columns under boxes, one box after another. */
  method PlaceAnchored(anchors: seq<Path>, underAnchor: map<Path, seq<Creation>>, kids: map<Path, seq<Creation>>,
                       steps: Steps, m: Measure, anchorBoundsFor: Path -> Option<Bounds>, ghost roots: seq<Creation>,
                       ghost pass: Pass)
    returns (seeds: map<Id, Rect>, placed: seq<Rect>, ghost cols: seq<Placement>)
    requires Ready(pass) && m == pass.m && kids == pass.kids && anchorBoundsFor == pass.anchorBoundsFor
    requires steps.minorX > 0.0 && steps.minorY > 0.0
    requires Grouped(pass.heads, anchorBoundsFor, anchors, underAnchor, roots)
    ensures Settled(cols, seeds, pass) && Tracks(placed, cols) && AllBelow(cols, pass)
    ensures AllStand(cols, steps, m, anchorBoundsFor) && ColumnsOrdered(cols, pass.empties)
    ensures forall p | p in cols :: p.anchor.Some?
    ensures forall h | h in pass.heads && AnchorOf(h, anchorBoundsFor).Some? :: Has(cols, h)
  {
    hide Settled, Ready, BelowItsBox, Has, StandsAt, InOrder, Follows;
    seeds, placed, cols := map[], [], [];
    NothingSettled(pass);
    for a := 0 to |anchors|
      invariant Settled(cols, seeds, pass) && Tracks(placed, cols) && AllBelow(cols, pass)
      invariant AllStand(cols, steps, m, anchorBoundsFor) && ColumnsOrdered(cols, pass.empties)
      invariant forall p | p in cols :: p.anchor.Some? && p.anchor.value in anchors[..a]
      invariant forall i, h | 0 <= i < a && h in underAnchor[anchors[i]] :: Has(cols, h)
    {
      var path := anchors[a];
      assert path in anchors && path !in anchors[..a];
      var group := underAnchor[path];
      AnchorHasBounds(pass, anchors, underAnchor, roots, path);
      HeadsOrdered(pass);
      InOrderThrough(group, pass.heads, pass.empties);
      var bounds := anchorBoundsFor(path).value;
      ghost var before := cols;
      seeds, placed, cols := StackUnder(path, bounds, group, kids, steps, m, seeds, placed, cols, pass);
      StackedBelow(before, cols, path, bounds, pass);
      HasGrows(before, cols);
      assert anchors[..a + 1] == anchors[..a] + [path];
    }
  }

  lemma HeadsOrdered(pass: Pass)
    requires Ready(pass)
    ensures InOrder(pass.heads, pass.empties)
  {
  }

  lemma NothingSettled(pass: Pass)
    requires Ready(pass)
    ensures Settled([], map[], pass)
  {
  }

  lemma AnchorHasBounds(pass: Pass, anchors: seq<Path>, underAnchor: map<Path, seq<Creation>>, roots: seq<Creation>, path: Path)
    requires Grouped(pass.heads, pass.anchorBoundsFor, anchors, underAnchor, roots) && path in anchors
    ensures path in underAnchor && pass.anchorBoundsFor(path).Some?
  {
  }

  lemma HasGrows(cols: seq<Placement>, more: seq<Placement>)
    requires cols <= more
    ensures forall h | Has(cols, h) :: Has(more, h)
  {
    forall h | Has(cols, h)
      ensures Has(more, h)
    {
      var p :| p in cols && HeadOfColumn(p, h);
      var i :| 0 <= i < |cols| && cols[i] == p;
      assert more[i] == p;
    }
  }

  lemma StackedBelow(cols: seq<Placement>, more: seq<Placement>, path: Path, bounds: Bounds, pass: Pass)
    requires AllBelow(cols, pass) && pass.anchorBoundsFor(path) == Some(bounds)
    requires forall p | p in more :: p in cols || p.anchor == Some(path)
    requires forall p | p in more && p.anchor == Some(path) ::
               p.x >= bounds.minX + pass.m.spacing.indent && p.y >= bounds.maxY + pass.m.spacing.pitch - pass.m.height
    ensures AllBelow(more, pass)
  {
  }

  /** Every other column, each at the first free candidate, or below everything placed. */
  method PlaceRoots(roots: seq<Creation>, kids: map<Path, seq<Creation>>, origin: Point, candidates: seq<Point>,
                    obstacles: seq<Rect>, steps: Steps, m: Measure, seeds: map<Id, Rect>, placed: seq<Rect>,
                    ghost cols: seq<Placement>, ghost pass: Pass)
    returns (more: map<Id, Rect>, ghost cols': seq<Placement>)
    requires Ready(pass) && m == pass.m && kids == pass.kids && steps.majorX > 0.0 && steps.majorY > 0.0
    requires steps.minorX > 0.0 && steps.minorY > 0.0 && AllStand(cols, steps, m, pass.anchorBoundsFor)
    requires NoRepeats(roots) && forall h | h in roots :: h in pass.heads && AnchorOf(h, pass.anchorBoundsFor) == None
    requires InOrder(roots, pass.empties) && ColumnsOrdered(cols, pass.empties)
    requires Settled(cols, seeds, pass) && Tracks(placed, cols) && AllBelow(cols, pass)
    requires forall p | p in cols :: p.anchor.Some?
    ensures Settled(cols', more, pass) && AllBelow(cols', pass) && AllSited(cols', Search(origin, candidates, obstacles, steps))
    ensures AllStand(cols', steps, m, pass.anchorBoundsFor) && ColumnsOrdered(cols', pass.empties)
    ensures cols <= cols' && forall h | h in roots :: Has(cols', h)
  {
    hide Settled, Ready, Has, KeptApart, ColumnFor, AllSited, SitsBy, FirstFree, FreeAt, NoRepeats, Stands, Grouped, ClearOf, AllStand;
    hide StandsAt, ColumnsOrdered, InOrder, Follows, Lowest, CeilTo;
    more, cols' := seeds, cols;
    var placed' := placed;
    var fallbackY: Option<real> := None;
    ghost var search := Search(origin, candidates, obstacles, steps);
    SiteAnchored(cols, search);
    NoneStands(cols, roots);
    for k := 0 to |roots|
      invariant Settled(cols', more, pass) && Tracks(placed', cols') && AllBelow(cols', pass)
      invariant AllSited(cols', search) && cols <= cols' && AllStand(cols', steps, m, pass.anchorBoundsFor)
      invariant Stands(cols', roots, k) && ColumnsOrdered(cols', pass.empties)
      invariant fallbackY.Some? ==> fallbackY.value <= Lowest(placed', origin.y)
      invariant forall i | 0 <= i < k :: Has(cols', roots[i])
    {
      var head := roots[k];
      assert head in roots;
      var column := ColumnOfHead(kids, head, m, pass);
      ColumnIsTall(column, head, pass);
      var spot := FindSpot(candidates, column, obstacles, placed');
      var at: Point;
      if spot.Some? {
        at := spot.value;
        SpotIsFree(Placement(column, at.x, at.y, None), placed', cols', search);
      } else {
        var lowest := Lowest(placed', origin.y);
        var last := if fallbackY.Some? then fallbackY.value else lowest;
        var from := if last > lowest then last else lowest;
        fallbackY := Some(CeilTo(from + TAB_HEIGHT + OUTLINE_PAD + NEST_PAD, steps.majorY));
        at := Point(CeilTo(origin.x, steps.majorX), fallbackY.value);
        NoSpot(Placement(column, at.x, at.y, None), placed', cols', search);
      }
      var rect := DrawnFootprint(at.x, at.y, column.width, column.height);
      ghost var p := Placement(column, at.x, at.y, None);
      RootTakes(cols', more, p, roots, k, pass);
      more := PutColumn(more, Placement(column, at.x, at.y, None), cols', m, pass);
      TracksFootprints(placed', cols');
      SiteOneMore(cols', p, search);
      StandOneMore(cols', p, steps, m, pass.anchorBoundsFor);
      OrderOneMore(cols', p, pass.empties);
      StandsOneMore(cols', p, roots, k);
      LowerStill(placed', rect, origin.y);
      cols' := cols' + [p];
      placed' := placed' + [rect];
    }
  }

  lemma SpotIsFree(p: Placement, placed: seq<Rect>, cols: seq<Placement>, search: Search)
    requires search.steps.majorX > 0.0 && search.steps.majorY > 0.0 && Tracks(placed, cols)
    requires FirstFree(Some(Point(p.x, p.y)), search.candidates, p.column, search.obstacles, placed)
    ensures SitsBy(p, placed, search) && forall q | q in cols :: KeptApart(q, p)
  {
    FreeMeans(p, search.obstacles, placed, cols);
  }

  lemma NoSpot(p: Placement, placed: seq<Rect>, cols: seq<Placement>, search: Search)
    requires search.steps.majorX > 0.0 && search.steps.majorY > 0.0 && Tracks(placed, cols)
    requires FirstFree(None, search.candidates, p.column, search.obstacles, placed)
    requires Point(p.x, p.y) == BelowAll(placed, search)
    ensures SitsBy(p, placed, search) && forall q | q in cols :: KeptApart(q, p)
  {
    BelowMeans(p, placed, cols, search.origin.y);
  }

  /** The columns under no box are those of the first `k` roots. */
  predicate Stands(cols: seq<Placement>, roots: seq<Creation>, k: nat)
    requires k <= |roots|
  {
    forall p | p in cols && p.anchor.None? :: exists i | 0 <= i < k :: HeadOfColumn(p, roots[i])
  }

  lemma NoneStands(cols: seq<Placement>, roots: seq<Creation>)
    requires forall p | p in cols :: p.anchor.Some?
    ensures Stands(cols, roots, 0)
  {
  }

  lemma RootTakes(cols: seq<Placement>, seeds: map<Id, Rect>, p: Placement, roots: seq<Creation>, k: nat, pass: Pass)
    requires Ready(pass) && Settled(cols, seeds, pass)
    requires k < |roots| && NoRepeats(roots) && roots[k] in pass.heads && AnchorOf(roots[k], pass.anchorBoundsFor) == None
    requires ColumnFor(p.column, roots[k], pass.folders, pass.empties, pass.rank, pass.m)
    requires p.anchor.None? && Stands(cols, roots, k) && InOrder(roots, pass.empties)
    ensures ColumnDone(p, pass) && NotYet(cols, p.column.rows[0].of)
    ensures forall q | q in cols :: Follows(q, p, pass.empties)
  {
    hide Walked, Covers, Indented, Pitched, Shown, FolderOrder, Before;
    forall q | q in cols
      ensures !HeadOfColumn(q, roots[k]) && Follows(q, p, pass.empties)
    {
      assert ColumnDone(q, pass);
      if q.anchor.None? {
        var i :| 0 <= i < k && HeadOfColumn(q, roots[i]);
        assert Before(pass.empties, roots[i], roots[k]);
      }
    }
  }

  lemma StandsOneMore(cols: seq<Placement>, p: Placement, roots: seq<Creation>, k: nat)
    requires k < |roots| && HeadOfColumn(p, roots[k]) && Stands(cols, roots, k)
    ensures Stands(cols + [p], roots, k + 1) && Has(cols + [p], roots[k])
    ensures forall h | Has(cols, h) :: Has(cols + [p], h)
  {
    forall q | q in cols + [p] && q.anchor.None?
      ensures exists i | 0 <= i < k + 1 :: HeadOfColumn(q, roots[i])
    {
      if q in cols {
        var i :| 0 <= i < k && HeadOfColumn(q, roots[i]);
        assert i < k + 1;
      }
    }
    assert p in cols + [p];
    HasGrows(cols, cols + [p]);
  }

  // -------------------------------------------------------------------- the theorem

  /** Where a folder's seed is: in the column of its head. */
  lemma SeedOf(c: Creation, cols: seq<Placement>, seeds: map<Id, Rect>, pass: Pass) returns (k: nat, i: nat)
    requires Ready(pass) && Settled(cols, seeds, pass) && c in pass.empties
    requires forall h | h in pass.heads :: Has(cols, h)
    ensures k < |cols| && i < |cols[k].column.rows| && cols[k].column.rows[i].of == c
    ensures cols[k].column.rows[0].of == Head(pass.folders, pass.rank, c) && ColumnDone(cols[k], pass)
    ensures c.id in seeds && seeds[c.id] == SeedAt(cols[k], i, pass.m)
  {
    hide Indented, Pitched, Covers, KeptApart;
    var head := Head(pass.folders, pass.rank, c);
    HeadIsFound(pass, c);
    assert Has(cols, head);
    var p :| p in cols && HeadOfColumn(p, head);
    k :| 0 <= k < |cols| && cols[k] == p;
    assert ColumnDone(p, pass) && Shown(seeds, p, pass.m);
    assert Lists(p.column.rows, 0, c);
    i :| 0 <= i < |p.column.rows| && p.column.rows[i].of == c;
  }

  lemma {:induction false} HeadIsFound(pass: Pass, c: Creation)
    requires Ready(pass) && c in pass.empties
    ensures Head(pass.folders, pass.rank, c) in pass.heads
    decreases pass.rank(c.path)
  {
    if Over(pass.folders, c).Some? {
      var p := Over(pass.folders, c).value;
      assert Found(pass.folders, p);
      HeadIsFound(pass, p);
    }
  }

  /** Which box a folder's column stands under. */
  ghost function ColumnAnchor(c: Creation, pass: Pass): Option<Path>
    requires Ready(pass) && c in pass.empties
  {
    AnchorOf(Head(pass.folders, pass.rank, c), pass.anchorBoundsFor)
  }

  /** Any two seeds, with padding and tab, are apart, unless their columns stand under two different boxes. */
  lemma AnyTwoApart(a: Creation, b: Creation, cols: seq<Placement>, seeds: map<Id, Rect>, pass: Pass)
    requires Ready(pass) && Settled(cols, seeds, pass) && (forall h | h in pass.heads :: Has(cols, h))
    requires a in pass.empties && b in pass.empties && a != b
    requires ColumnAnchor(a, pass).None? || ColumnAnchor(b, pass).None? || ColumnAnchor(a, pass) == ColumnAnchor(b, pass)
    ensures a.id in seeds && b.id in seeds && Apart(Drawn(seeds[a.id]), Drawn(seeds[b.id]))
  {
    var k, i := SeedOf(a, cols, seeds, pass);
    var l, j := SeedOf(b, cols, seeds, pass);
    var m := pass.m;
    hide Ready, Settled, Has, Head, Walked, Indented, Drawn, SeedAt;
    if k == l {
      if i < j {
        RowsApart(cols[k], i, j, m);
      } else {
        RowsApart(cols[k], j, i, m);
      }
    } else if k < l {
      TwoColumnsApart(cols, k, l, seeds, pass);
      SeedsApart(cols[k], cols[l], i, j, m);
    } else {
      TwoColumnsApart(cols, l, k, seeds, pass);
      SeedsApart(cols[l], cols[k], j, i, m);
    }
  }

  lemma TwoColumnsApart(cols: seq<Placement>, k: nat, l: nat, seeds: map<Id, Rect>, pass: Pass)
    requires Ready(pass) && Settled(cols, seeds, pass) && k < l < |cols|
    requires !DifferentAnchors(cols[k].anchor, cols[l].anchor)
    ensures Apart(Drawn(Body(cols[k])), Drawn(Body(cols[l])))
  {
    assert KeptApart(cols[k], cols[l]);
  }

  lemma HangsInColumn(col: Placement, i: nat, c: Creation, p: Creation, pass: Pass) returns (j: nat)
    requires Ready(pass) && ColumnDone(col, pass) && RightBelow(pass.folders, c, p)
    requires i < |col.column.rows| && col.column.rows[i].of == c
    ensures j < i && col.column.rows[j].of == p
    ensures col.column.rows[i].dx == col.column.rows[j].dx + pass.m.spacing.indent
    ensures col.column.rows[i].dy >= col.column.rows[j].dy + pass.m.spacing.pitch
  {
    HeadsAreFree(pass, col.column.rows[0].of);
    var rows, m := col.column.rows, pass.m;
    assert Indented(pass.folders, rows, 0, m.spacing.indent) && Pitched(rows, m.spacing.pitch) && m.spacing.pitch >= 0.0;
    hide Ready, ColumnDone, Indented, Pitched;
    HangsBack(rows, i, pass.folders, m.spacing.indent);
    j :| 0 <= j < i && RightBelow(pass.folders, rows[i].of, rows[j].of) && rows[i].dx == rows[j].dx + m.spacing.indent;
    RowsBelow(rows, j, i, m.spacing.pitch);
  }

  lemma HangsBack(rows: seq<Row>, i: nat, folders: map<Path, Creation>, indent: real)
    requires i < |rows| && Indented(folders, rows, 0, indent) && i > 0
    ensures exists j | 0 <= j < i :: RightBelow(folders, rows[i].of, rows[j].of) && rows[i].dx == rows[j].dx + indent
  {
    assert HangsFrom(folders, rows, 0, i, indent);
  }

  lemma RowsBelow(rows: seq<Row>, j: nat, i: nat, pitch: real)
    requires j < i < |rows| && Pitched(rows, pitch) && pitch >= 0.0
    ensures rows[i].dy >= rows[j].dy + pitch
  {
    PitchApart(j, i, pitch, rows[j].dy, rows[i].dy);
  }

  /** A subfolder's seed is one indent right of its parent's, and at least a pitch below it. */
  lemma ChildHangs(c: Creation, p: Creation, cols: seq<Placement>, seeds: map<Id, Rect>, pass: Pass)
    requires Ready(pass) && Settled(cols, seeds, pass) && (forall h | h in pass.heads :: Has(cols, h))
    requires c in pass.empties && RightBelow(pass.folders, c, p)
    ensures p.id in seeds && c.id in seeds
    ensures seeds[c.id].x == seeds[p.id].x + pass.m.spacing.indent
    ensures seeds[c.id].y >= seeds[p.id].y + pass.m.spacing.pitch
  {
    hide Ready, Settled, Has, Head, ColumnDone, RightBelow;
    var k, i := SeedOf(c, cols, seeds, pass);
    var j := HangsInColumn(cols[k], i, c, p, pass);
    ShownHere(cols, k, j, seeds, pass);
  }

  lemma ShownHere(cols: seq<Placement>, k: nat, j: nat, seeds: map<Id, Rect>, pass: Pass)
    requires Ready(pass) && Settled(cols, seeds, pass) && k < |cols| && j < |cols[k].column.rows|
    ensures cols[k].column.rows[j].of.id in seeds
    ensures seeds[cols[k].column.rows[j].of.id] == SeedAt(cols[k], j, pass.m)
  {
    assert Shown(seeds, cols[k], pass.m);
  }

  ghost predicate Seeded(seeds: map<Id, Rect>, pass: Pass)
  {
    forall c | c in pass.empties :: c.id in seeds
  }

  /** Every seed has the seed size, and a subfolder's is one indent right of its parent's and at least a pitch below. */
  ghost predicate Hung(seeds: map<Id, Rect>, pass: Pass)
    requires Seeded(seeds, pass)
  {
    && (forall c | c in pass.empties :: seeds[c.id].width == pass.m.width && seeds[c.id].height == pass.m.height)
    && (forall c, p | c in pass.empties && p in pass.empties && RightBelow(pass.folders, c, p) ::
          seeds[c.id].x == seeds[p.id].x + pass.m.spacing.indent && seeds[c.id].y >= seeds[p.id].y + pass.m.spacing.pitch)
  }

  predicate Distinct(creations: seq<Creation>)
  {
    forall a, b | a in creations && b in creations && (a.id == b.id || a.path == b.path) :: a == b
  }

  /** `creations.filter(isEmpty).sort(byFolderPath)`, however folder paths compare. */
  ghost predicate SortedEmpties(creations: seq<Creation>, empties: seq<Creation>)
  {
    NoRepeats(empties) && forall c: Creation :: c in empties <==> c in creations && !c.members
  }

  lemma EmptiesAreFound(creations: seq<Creation>, empties: seq<Creation>)
    requires Distinct(creations) && SortedEmpties(creations, empties)
    ensures Listing(ByFolder(creations), empties) && IdsDiffer(empties)
  {
    var folders := ByFolder(creations);
    forall c: Creation
      ensures c in empties <==> Found(folders, c)
    {
      if c in creations {
        assert folders[c.path] in creations && folders[c.path].path == c.path;
      }
    }
  }

  ghost function MaxRank(empties: seq<Creation>, rank: Path -> nat): (bound: nat)
    ensures forall c | c in empties :: rank(c.path) <= bound
  {
    if empties == [] then 0
    else
      var last := rank(empties[|empties| - 1].path);
      var rest := MaxRank(empties[..|empties| - 1], rank);
      if last > rest then last else rest
  }

  /**
    `layoutEmptyGroupSeeds`. Every empty folder found gets exactly one seed; any two
    seeds, padded and tabbed, are apart unless their columns stand under two different
    boxes; a subfolder hangs one indent right of its parent and a pitch down.
   */
  method LayoutEmptyGroupSeeds(creations: seq<Creation>, empties: seq<Creation>, anchorBoundsFor: Path -> Option<Bounds>,
                               origin: Point, candidates: seq<Point>, obstacles: seq<Rect>, steps: Steps,
                               seedWidth: real, seedHeight: real, ghost rank: Path -> nat)
    returns (seeds: map<Id, Rect>, ghost cols: seq<Placement>, ghost pass: Pass)
    requires Distinct(creations) && SortedEmpties(creations, empties) && Acyclic(ByFolder(creations), rank)
    requires seedWidth >= 0.0 && seedHeight >= 0.0
    requires steps.minorX > 0.0 && steps.minorY > 0.0 && steps.majorX > 0.0 && steps.majorY > 0.0
    ensures Ready(pass) && pass.folders == ByFolder(creations) && pass.empties == empties && pass.anchorBoundsFor == anchorBoundsFor
    ensures pass.m == Measure(seedWidth, seedHeight, SeedColumnSpacing(steps.minorX, steps.minorY, seedHeight))
    ensures forall id :: id in seeds <==> exists c | c in empties :: c.id == id
    ensures Seeded(seeds, pass) && Hung(seeds, pass)
    ensures forall a, b | a in empties && b in empties && a != b ::
              !DifferentAnchors(ColumnAnchor(a, pass), ColumnAnchor(b, pass)) ==> Apart(Drawn(seeds[a.id]), Drawn(seeds[b.id]))
    ensures Settled(cols, seeds, pass) && AllBelow(cols, pass) && ColumnsOrdered(cols, empties)
    ensures AllStand(cols, steps, pass.m, anchorBoundsFor) && AllSited(cols, Search(origin, candidates, obstacles, steps))
  {
    var folders := ByFolder(creations);
    var kids, heads := Nest(folders, empties);
    var m := Measure(seedWidth, seedHeight, SeedColumnSpacing(steps.minorX, steps.minorY, seedHeight));
    EmptiesAreFound(creations, empties);
    pass := Pass(folders, empties, kids, heads, rank, MaxRank(empties, rank), m, anchorBoundsFor);
    assert Ready(pass);
    assert NoRepeats(heads) && OnlyHeads(heads, pass);
    hide Ready, Settled, Has, Listing, Nested, SortedEmpties, Distinct, ByFolder, Acyclic, AllBelow, AllSited, Apart, RightBelow, AllStand;
    hide ColumnsOrdered, InOrder;
    var anchors, underAnchor, roots := GroupHeads(heads, anchorBoundsFor);
    RootsAreUnanchored(anchors, underAnchor, roots, pass);
    HeadsOrdered(pass);
    InOrderThrough(roots, pass.heads, pass.empties);
    var placed;
    seeds, placed, cols := PlaceAnchored(anchors, underAnchor, kids, steps, m, anchorBoundsFor, roots, pass);
    ghost var before := cols;
    seeds, cols := PlaceRoots(roots, kids, origin, candidates, obstacles, steps, m, seeds, placed, cols, pass);
    HasGrows(before, cols);
    assert forall h | h in heads :: Has(cols, h) by {
      EveryHead(before, cols, anchors, underAnchor, roots, pass);
    }
    LayoutHolds(cols, seeds, pass);
  }

  predicate OnlyHeads(heads: seq<Creation>, pass: Pass)
  {
    heads == pass.heads
  }

  lemma RootsAreUnanchored(anchors: seq<Path>, underAnchor: map<Path, seq<Creation>>, roots: seq<Creation>, pass: Pass)
    requires Grouped(pass.heads, pass.anchorBoundsFor, anchors, underAnchor, roots)
    ensures NoRepeats(roots) && forall h | h in roots :: h in pass.heads && AnchorOf(h, pass.anchorBoundsFor) == None
    ensures InOrder(roots, pass.heads)
  {
  }

  lemma EveryHead(before: seq<Placement>, cols: seq<Placement>, anchors: seq<Path>, underAnchor: map<Path, seq<Creation>>,
                  roots: seq<Creation>, pass: Pass)
    requires Grouped(pass.heads, pass.anchorBoundsFor, anchors, underAnchor, roots) && before <= cols
    requires forall h | h in pass.heads && AnchorOf(h, pass.anchorBoundsFor).Some? :: Has(before, h)
    requires forall h | h in roots :: Has(cols, h)
    ensures forall h | h in pass.heads :: Has(cols, h)
  {
    HasGrows(before, cols);
  }

  lemma SeedsHang(cols: seq<Placement>, seeds: map<Id, Rect>, pass: Pass)
    requires Ready(pass) && Settled(cols, seeds, pass) && (forall h | h in pass.heads :: Has(cols, h))
    ensures Seeded(seeds, pass) && Hung(seeds, pass)
  {
    hide Ready, Settled, Has, RightBelow;
    forall c | c in pass.empties
      ensures c.id in seeds && seeds[c.id].width == pass.m.width && seeds[c.id].height == pass.m.height
    {
      var k, i := SeedOf(c, cols, seeds, pass);
    }
    forall c, p | c in pass.empties && p in pass.empties && RightBelow(pass.folders, c, p)
      ensures seeds[c.id].x == seeds[p.id].x + pass.m.spacing.indent && seeds[c.id].y >= seeds[p.id].y + pass.m.spacing.pitch
    {
      ChildHangs(c, p, cols, seeds, pass);
    }
  }

  lemma LayoutHolds(cols: seq<Placement>, seeds: map<Id, Rect>, pass: Pass)
    requires Ready(pass) && Settled(cols, seeds, pass) && (forall h | h in pass.heads :: Has(cols, h))
    ensures forall id :: id in seeds <==> exists c | c in pass.empties :: c.id == id
    ensures Seeded(seeds, pass) && Hung(seeds, pass)
    ensures forall a, b | a in pass.empties && b in pass.empties && a != b ::
              !DifferentAnchors(ColumnAnchor(a, pass), ColumnAnchor(b, pass)) ==> Apart(Drawn(seeds[a.id]), Drawn(seeds[b.id]))
  {
    assert forall id | id in seeds :: IsOne(pass.empties, id);
    hide Ready, Settled, Has, ColumnAnchor, Apart, DifferentAnchors, Hung;
    SeedsHang(cols, seeds, pass);
    forall a, b | a in pass.empties && b in pass.empties && a != b
      ensures !DifferentAnchors(ColumnAnchor(a, pass), ColumnAnchor(b, pass)) ==> Apart(Drawn(seeds[a.id]), Drawn(seeds[b.id]))
    {
      if !DifferentAnchors(ColumnAnchor(a, pass), ColumnAnchor(b, pass)) {
        AnyTwoApart(a, b, cols, seeds, pass);
      }
    }
  }

  // ---------------------------------------------------------------- a pass with nesting

  /** Two folders side by side and a child of the second, none with members. */
  predicate Family(beside: Creation, parent: Creation, child: Creation)
  {
    && !beside.members && !parent.members && !child.members
    && beside.parent == "" && parent.parent == "" && child.parent == parent.path && parent.path != ""
    && |parent.path| < |child.path|
    && beside.path != parent.path && beside.path != child.path
    && beside.id != parent.id && parent.id != child.id && beside.id != child.id
  }

  lemma FamilyExists()
    ensures Family(Creation("1", "docs", "", false), Creation("2", "src", "", false), Creation("3", "src/app", "src", false))
  {
    assert "1"[0] != "2"[0] && "2"[0] != "3"[0] && "1"[0] != "3"[0];
    assert |"docs"| == 4 && |"src"| == 3 && |"src/app"| == 7;
  }

  lemma InFamily(beside: Creation, parent: Creation, child: Creation, c: Creation)
    ensures c in [beside, parent, child] <==> c == beside || c == parent || c == child
  {
  }

  lemma FamilyIsListed(beside: Creation, parent: Creation, child: Creation)
    requires Family(beside, parent, child)
    ensures var creations := [beside, parent, child]; Distinct(creations) && SortedEmpties(creations, creations)
  {
    var creations := [beside, parent, child];
    forall c: Creation
      ensures c in creations <==> c == beside || c == parent || c == child
    {
      InFamily(beside, parent, child, c);
    }
    assert |parent.path| != |child.path|;
  }

  lemma FamilyIsNested(beside: Creation, parent: Creation, child: Creation)
    requires Family(beside, parent, child)
    ensures var folders := ByFolder([beside, parent, child]);
            Acyclic(folders, (path: Path) => |path|) && RightBelow(folders, child, parent)
  {
    var creations := [beside, parent, child];
    forall c | c in creations && c.parent != ""
      ensures |c.parent| < |c.path|
    {
      InFamily(beside, parent, child, c);
    }
    NestedPathsAreAcyclic(creations);
    var folders := ByFolder(creations);
    assert parent in creations;
    InFamily(beside, parent, child, folders[parent.path]);
    hide ByFolder, Acyclic;
  }

  /** Such a pass is laid out: three seeds, the child's right of its parent's and below, all apart with padding and tab. */
  method LayoutOfFamily(beside: Creation, parent: Creation, child: Creation, origin: Point, candidates: seq<Point>,
                        obstacles: seq<Rect>, steps: Steps, seedWidth: real, seedHeight: real)
    returns (seeds: map<Id, Rect>)
    requires Family(beside, parent, child) && seedWidth >= 0.0 && seedHeight >= 0.0
    requires steps.minorX > 0.0 && steps.minorY > 0.0 && steps.majorX > 0.0 && steps.majorY > 0.0
    ensures beside.id in seeds && parent.id in seeds && child.id in seeds
    ensures seeds[child.id].x >= seeds[parent.id].x + 2.0 * PAD && seeds[child.id].y > seeds[parent.id].y + seedHeight
    ensures Apart(Drawn(seeds[beside.id]), Drawn(seeds[parent.id])) && Apart(Drawn(seeds[parent.id]), Drawn(seeds[child.id]))
    ensures Apart(Drawn(seeds[beside.id]), Drawn(seeds[child.id]))
  {
    hide Apart, Ready, Settled, AllBelow, AllSited, AllStand, ColumnsOrdered, ByFolder, Acyclic, Distinct, SortedEmpties, RightBelow, ColumnAnchor;
    hide Drawn, CeilTo, Family;
    FamilyIsListed(beside, parent, child);
    FamilyIsNested(beside, parent, child);
    var creations := [beside, parent, child];
    assert creations[0] == beside && creations[1] == parent && creations[2] == child;
    assert beside != parent && parent != child && beside != child by {
      FamilyDiffers(beside, parent, child);
    }
    ghost var cols, pass;
    seeds, cols, pass := LayoutEmptyGroupSeeds(creations, creations, (_: Path) => None, origin, candidates, obstacles, steps,
                                               seedWidth, seedHeight, (path: Path) => |path|);
    NoBoxes(beside, pass);
    NoBoxes(parent, pass);
    NoBoxes(child, pass);
  }

  lemma FamilyDiffers(beside: Creation, parent: Creation, child: Creation)
    requires Family(beside, parent, child)
    ensures beside != parent && parent != child && beside != child
  {
  }

  lemma NoBoxes(c: Creation, pass: Pass)
    requires Ready(pass) && c in pass.empties && forall path :: pass.anchorBoundsFor(path) == None
    ensures ColumnAnchor(c, pass) == None
  {
  }
}
