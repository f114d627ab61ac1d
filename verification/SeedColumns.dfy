/**
  Boxes for empty folders (src/app/emptyGroupSeeds.js): the forest of the folders
  found in one pass, and the column of rows that each empty subtree becomes.
  Coordinates are reals; down is positive.
 */
module SeedColumns {
  import opened Wrappers

  type Path = string
  type Id = string

  /** One folder found in this pass; `parent` is "" for none, `members` says whether it has pieces. */
  datatype Creation = Creation(id: Id, path: Path, parent: Path, members: bool)

  datatype Rect = Rect(x: real, y: real, width: real, height: real)

  const OUTLINE_PAD := 12.0
  const NEST_PAD := 8.0
  const PAD := OUTLINE_PAD + NEST_PAD
  const TAB_HEIGHT := 20.0
  const CLEARANCE := 8.0

  // ------------------------------------------------------------------- the lattice

  function Ceil(v: real): (n: int)
    ensures n as real - 1.0 < v <= n as real
  {
    -((-v).Floor)
  }

  /** The `n`th lattice line. */
  function Line(n: int, step: real): real
  {
    Times(n as real, step)
  }

  ghost predicate OnLattice(v: real, step: real)
  {
    exists n: int :: v == Line(n, step)
  }

  /** The first lattice line at or after a value. */
  function CeilTo(v: real, step: real): (least: real)
    requires step > 0.0
    ensures v <= least < v + step && OnLattice(least, step)
  {
    var n := Ceil(v / step);
    CeilBounds(v, step, n as real);
    Line(n, step)
  }

  lemma LineBefore(n: int, k: int, step: real)
    requires step > 0.0 && n < k
    ensures Line(n, step) <= Line(k, step) - step
  {
    hide Times;
    TimesMono(n as real, k as real - 1.0, step);
    TimesOneLess(k as real, step);
  }

  /** No lattice line at or after the value is nearer. */
  lemma CeilToIsLeast(v: real, step: real, n: int)
    requires step > 0.0 && Line(n, step) >= v
    ensures CeilTo(v, step) <= Line(n, step)
  {
    var least := CeilTo(v, step);
    var k: int :| least == Line(k, step);
    if n < k {
      LineBefore(n, k, step);
    } else if k < n {
      LineBefore(k, n, step);
    }
    hide Line;
  }

  function Times(a: real, b: real): real
  {
    a * b
  }

  lemma CeilBounds(v: real, step: real, n: real)
    requires step > 0.0 && n - 1.0 < v / step <= n
    ensures v <= Times(n, step) < v + step
  {
    hide Times;
    var q := v / step;
    TimesQuotient(v, step);
    TimesMono(q, n, step);
    TimesMonoStrictly(n - 1.0, q, step);
    TimesOneLess(n, step);
  }

  lemma TimesQuotient(v: real, step: real)
    requires step > 0.0
    ensures Times(v / step, step) == v
  {
  }

  lemma TimesMono(a: real, b: real, c: real)
    requires a <= b && c > 0.0
    ensures Times(a, c) <= Times(b, c)
  {
    TimesMinus(b, a, c);
  }

  lemma TimesMonoStrictly(a: real, b: real, c: real)
    requires a < b && c > 0.0
    ensures Times(a, c) < Times(b, c)
  {
    TimesMinus(b, a, c);
  }

  lemma TimesMinus(a: real, b: real, c: real)
    ensures Times(a, c) - Times(b, c) == Times(a - b, c)
  {
  }

  lemma TimesOneLess(a: real, c: real)
    ensures Times(a - 1.0, c) == Times(a, c) - c
  {
  }

  lemma MulMono(a: real, b: real, c: real)
    requires a <= b && c >= 0.0
    ensures a * c <= b * c
    ensures a < b && c > 0.0 ==> a * c < b * c
  {
    assert b * c - a * c == (b - a) * c;
  }

  /** Row pitch and indent. */
  datatype Spacing = Spacing(pitch: real, indent: real)

  function SeedColumnSpacing(minorX: real, minorY: real, seedHeight: real): (s: Spacing)
    requires minorX > 0.0 && minorY > 0.0
    ensures s.pitch >= seedHeight + 2.0 * PAD + TAB_HEIGHT + CLEARANCE
    ensures s.indent >= 2.0 * PAD
  {
    Spacing(CeilTo(seedHeight + 2.0 * PAD + TAB_HEIGHT + CLEARANCE, minorY), CeilTo(2.0 * PAD, minorX))
  }

  // -------------------------------------------------------------------- the forest

  function ByFolder(creations: seq<Creation>): (folders: map<Path, Creation>)
    ensures forall p | p in folders :: folders[p] in creations && folders[p].path == p
    ensures forall c | c in creations :: c.path in folders
  {
    if creations == [] then map[]
    else
      var last := creations[|creations| - 1];
      ByFolder(creations[..|creations| - 1])[last.path := last]
  }

  /** One of this pass's empty folders. */
  predicate Found(folders: map<Path, Creation>, c: Creation)
  {
    c.path in folders && folders[c.path] == c && !c.members
  }

  /** The empty folder of this pass that a folder nests under. */
  function Over(folders: map<Path, Creation>, c: Creation): (p: Option<Creation>)
    ensures p.Some? ==> Found(folders, p.value) && p.value.path == c.parent
  {
    if c.parent != "" && c.parent in folders && folders[c.parent].path == c.parent && !folders[c.parent].members
    then Some(folders[c.parent]) else None
  }

  predicate RightBelow(folders: map<Path, Creation>, c: Creation, p: Creation)
  {
    Over(folders, c) == Some(p)
  }

  /** No folder of this pass is above itself: `rank` is smaller for what is above. */
  ghost predicate Acyclic(folders: map<Path, Creation>, rank: Path -> nat)
  {
    forall path {:trigger Over(folders, folders[path])} |
      path in folders && Found(folders, folders[path]) && Over(folders, folders[path]).Some? ::
      rank(folders[path].parent) < rank(path)
  }

  /** Folder paths nest, so the parent's is the shorter one, and no folder is above itself. */
  lemma NestedPathsAreAcyclic(creations: seq<Creation>)
    requires forall c | c in creations && c.parent != "" :: |c.parent| < |c.path|
    ensures Acyclic(ByFolder(creations), (path: Path) => |path|)
  {
    var folders := ByFolder(creations);
    forall path | path in folders && Found(folders, folders[path]) && Over(folders, folders[path]).Some?
      ensures |folders[path].parent| < |path|
    {
      assert folders[path] in creations;
    }
  }

  /** `c` is `top`, or nests under it. */
  ghost predicate Under(folders: map<Path, Creation>, rank: Path -> nat, c: Creation, top: Creation)
    requires Acyclic(folders, rank)
    decreases rank(c.path)
  {
    c == top || (Found(folders, c) && Over(folders, c).Some? && Under(folders, rank, Over(folders, c).value, top))
  }

  /** The head of the column that a folder belongs to. */
  ghost function Head(folders: map<Path, Creation>, rank: Path -> nat, c: Creation): (h: Creation)
    requires Acyclic(folders, rank) && Found(folders, c)
    ensures Found(folders, h) && Over(folders, h).None? && Under(folders, rank, c, h)
    decreases rank(c.path)
  {
    if Over(folders, c).None? then c else Head(folders, rank, Over(folders, c).value)
  }

  lemma {:induction false} UnderHasRank(folders: map<Path, Creation>, rank: Path -> nat, c: Creation, top: Creation)
    requires Acyclic(folders, rank) && Under(folders, rank, c, top)
    ensures c == top || (Found(folders, top) && rank(top.path) < rank(c.path))
    decreases rank(c.path)
  {
    if c != top {
      UnderHasRank(folders, rank, Over(folders, c).value, top);
    }
  }

  /** What is under a folder is the folder, or under exactly one of those right below it. */
  lemma {:induction false} UnderSplits(folders: map<Path, Creation>, rank: Path -> nat, c: Creation, top: Creation)
    requires Acyclic(folders, rank) && Under(folders, rank, c, top) && c != top
    ensures exists k: Creation :: RightBelow(folders, k, top) && Under(folders, rank, c, k) && Found(folders, k)
    decreases rank(c.path)
  {
    var p := Over(folders, c).value;
    if p == top {
      assert RightBelow(folders, c, top) && Under(folders, rank, c, c);
    } else {
      UnderSplits(folders, rank, p, top);
      var k :| RightBelow(folders, k, top) && Under(folders, rank, p, k) && Found(folders, k);
      assert Under(folders, rank, c, k);
    }
  }

  lemma {:induction false} UnderIsUnique(folders: map<Path, Creation>, rank: Path -> nat, c: Creation, k: Creation, l: Creation)
    requires Acyclic(folders, rank) && Under(folders, rank, c, k) && Under(folders, rank, c, l)
    requires Over(folders, k) == Over(folders, l)
    ensures k == l
    decreases rank(c.path)
  {
    if c == k && c != l {
      UnderHasRank(folders, rank, Over(folders, c).value, l);
    } else if c == l && c != k {
      UnderHasRank(folders, rank, Over(folders, c).value, k);
    } else if c != k {
      UnderIsUnique(folders, rank, Over(folders, c).value, k, l);
    }
  }

  // ------------------------------------------------------------------- the columns

  predicate NoRepeats<T(==)>(s: seq<T>)
  {
    forall i, j | 0 <= i < j < |s| :: s[i] != s[j]
  }

  predicate Before<T(==)>(s: seq<T>, a: T, b: T)
  {
    exists i, j | 0 <= i < j < |s| :: s[i] == a && s[j] == b
  }

  /** Some elements of a sequence, in its order. */
  predicate InOrder<T(==)>(part: seq<T>, whole: seq<T>)
  {
    forall i, j | 0 <= i < j < |part| :: Before(whole, part[i], part[j])
  }

  lemma AddedInOrder<T>(part: seq<T>, whole: seq<T>, last: T)
    requires InOrder(part, whole) && forall x | x in part :: x in whole
    ensures InOrder(part, whole + [last]) && InOrder(part + [last], whole + [last])
  {
    var more := whole + [last];
    forall i, j | 0 <= i < j < |part|
      ensures Before(more, part[i], part[j])
    {
      assert Before(whole, part[i], part[j]);
      var k, l :| 0 <= k < l < |whole| && whole[k] == part[i] && whole[l] == part[j];
      assert more[k] == part[i] && more[l] == part[j];
    }
    forall i | 0 <= i < |part|
      ensures Before(more, part[i], last)
    {
      assert part[i] in whole;
      var k :| 0 <= k < |whole| && whole[k] == part[i];
      assert more[k] == part[i] && more[|whole|] == last;
    }
  }

  lemma InOrderThrough<T>(part: seq<T>, middle: seq<T>, whole: seq<T>)
    requires InOrder(part, middle) && InOrder(middle, whole)
    ensures InOrder(part, whole)
  {
    forall i, j | 0 <= i < j < |part|
      ensures Before(whole, part[i], part[j])
    {
      assert Before(middle, part[i], part[j]);
      var k, l :| 0 <= k < l < |middle| && middle[k] == part[i] && middle[l] == part[j];
      assert Before(whole, middle[k], middle[l]);
    }
  }

  /** The empty folders of the pass, each once, in folder order. */
  ghost predicate Listing(folders: map<Path, Creation>, empties: seq<Creation>)
  {
    NoRepeats(empties) && forall c: Creation :: c in empties <==> Found(folders, c)
  }

  function KidsOf(kids: map<Path, seq<Creation>>, c: Creation): seq<Creation>
  {
    if c.path in kids then kids[c.path] else []
  }

  /** Who nests under whom, and who heads a column, among these, in their order. */
  ghost predicate Nested(folders: map<Path, Creation>, empties: seq<Creation>,
                         kids: map<Path, seq<Creation>>, heads: seq<Creation>)
  {
    && (forall p | p in kids :: NoRepeats(kids[p]))
    && (forall p, c | p in kids && c in kids[p] :: c in empties && Over(folders, c).Some? && c.parent == p)
    && (forall c {:trigger Over(folders, c)} | c in empties && Over(folders, c).Some? :: c.parent in kids && c in kids[c.parent])
    && NoRepeats(heads)
    && (forall c {:trigger c in heads} {:trigger Over(folders, c)} :: c in heads <==> c in empties && Over(folders, c).None?)
    && InOrder(heads, empties) && ListsInOrder(kids, empties)
  }

  predicate ListsInOrder<K(!new), T(==)>(lists: map<K, seq<T>>, whole: seq<T>)
  {
    forall k | k in lists :: InOrder(lists[k], whole)
  }

  /** Lists stay in order as one of them, or none, takes the next element. */
  lemma ListedInOrder<K(!new), T>(lists: map<K, seq<T>>, whole: seq<T>, last: T)
    requires ListsInOrder(lists, whole) && forall k, x | k in lists && x in lists[k] :: x in whole
    ensures ListsInOrder(lists, whole + [last])
    ensures forall k | k in lists :: ListsInOrder(lists[k := lists[k] + [last]], whole + [last])
    ensures forall k | k !in lists :: ListsInOrder(lists[k := [last]], whole + [last])
  {
    forall k | k in lists
      ensures InOrder(lists[k], whole + [last]) && InOrder(lists[k] + [last], whole + [last])
    {
      AddedInOrder(lists[k], whole, last);
    }
    hide Before;
  }

  /** One more empty folder, listed under the empty folder it nests in. */
  lemma NestUnder(folders: map<Path, Creation>, empties: seq<Creation>, kids: map<Path, seq<Creation>>, heads: seq<Creation>,
                  entry: Creation)
    requires Nested(folders, empties, kids, heads) && entry !in empties && Over(folders, entry).Some?
    ensures Nested(folders, empties + [entry], kids[entry.parent := KidsOf(kids, Over(folders, entry).value) + [entry]], heads)
  {
    AddedInOrder(heads, empties, entry);
    ListedInOrder(kids, empties, entry);
    hide InOrder, ListsInOrder, Over, Found, NoRepeats;
    var path := entry.parent;
    var mine := KidsOf(kids, Over(folders, entry).value);
    var more := kids[path := mine + [entry]];
    assert entry !in mine && NoRepeats(mine + [entry]) by {
      OneMoreDiffers(mine, entry);
    }
    assert mine == [] ==> mine + [entry] == [entry];
    forall c | c in empties + [entry] && Over(folders, c).Some?
      ensures c.parent in more && c in more[c.parent]
    {
    }
  }

  lemma OneMoreDiffers<T>(s: seq<T>, last: T)
    requires (s == [] || NoRepeats(s)) && last !in s
    ensures NoRepeats(s + [last])
  {
  }

  /** One more empty folder, at the head of a column. */
  lemma NestHead(folders: map<Path, Creation>, empties: seq<Creation>, kids: map<Path, seq<Creation>>, heads: seq<Creation>,
                 entry: Creation)
    requires Nested(folders, empties, kids, heads) && entry !in empties && Over(folders, entry).None?
    ensures Nested(folders, empties + [entry], kids, heads + [entry])
  {
    AddedInOrder(heads, empties, entry);
    ListedInOrder(kids, empties, entry);
    hide InOrder, ListsInOrder;
  }

  method Nest(folders: map<Path, Creation>, empties: seq<Creation>)
    returns (kids: map<Path, seq<Creation>>, heads: seq<Creation>)
    requires NoRepeats(empties)
    ensures Nested(folders, empties, kids, heads)
  {
    kids, heads := map[], [];
    NestNone(folders);
    hide Nested;
    for i := 0 to |empties|
      invariant Nested(folders, empties[..i], kids, heads)
    {
      var entry := empties[i];
      assert entry !in empties[..i];
      assert empties[..i + 1] == empties[..i] + [entry];
      var parent := Over(folders, entry);
      if parent.Some? {
        NestUnder(folders, empties[..i], kids, heads, entry);
        ghost var before := kids;
        var path := parent.value.path;
        if path !in kids {
          kids := kids[path := []];
        }
        kids := kids[path := kids[path] + [entry]];
        assert kids == before[path := KidsOf(before, parent.value) + [entry]];
      } else {
        NestHead(folders, empties[..i], kids, heads, entry);
        heads := heads + [entry];
      }
    }
    assert empties[..|empties|] == empties;
  }

  lemma NestNone(folders: map<Path, Creation>)
    ensures Nested(folders, [], map[], [])
  {
  }

  /** One seed of a column, from the column's corner. */
  datatype Row = Row(of: Creation, dx: real, dy: real)

  predicate Lists(rows: seq<Row>, from: nat, c: Creation)
  {
    exists i | from <= i < |rows| :: rows[i].of == c
  }

  predicate RowsDiffer(rows: seq<Row>, from: nat)
  {
    forall i, j | from <= i < j < |rows| :: rows[i].of != rows[j].of
  }

  /** One row a pitch, in the order they were pushed. */
  predicate Pitched(rows: seq<Row>, pitch: real)
  {
    forall i | 0 <= i < |rows| :: rows[i].dy == i as real * pitch && rows[i].dx >= 0.0
  }

  /** Every row but the first of these is one indent right of its parent's, and further down. */
  predicate Indented(folders: map<Path, Creation>, rows: seq<Row>, from: nat, indent: real)
  {
    forall i | from < i < |rows| :: HangsFrom(folders, rows, from, i, indent)
  }

  predicate HangsFrom(folders: map<Path, Creation>, rows: seq<Row>, from: nat, i: nat, indent: real)
    requires i < |rows|
  {
    exists j | from <= j < i :: RightBelow(folders, rows[i].of, rows[j].of) && rows[i].dx == rows[j].dx + indent
  }

  /** What a walk adds: the subtree of one folder, each of it once. */
  ghost predicate Walked(folders: map<Path, Creation>, empties: seq<Creation>, rank: Path -> nat,
                         rows: seq<Row>, from: nat, top: Creation)
    requires Acyclic(folders, rank)
  {
    && RowsDiffer(rows, from)
    && forall c: Creation {:trigger Lists(rows, from, c)} :: Lists(rows, from, c) <==> c in empties && Under(folders, rank, c, top)
  }

  /** The same, while the first `k` of its children are done. */
  ghost predicate Walking(folders: map<Path, Creation>, empties: seq<Creation>, rank: Path -> nat,
                          rows: seq<Row>, from: nat, top: Creation, kids: seq<Creation>, k: nat)
    requires Acyclic(folders, rank) && k <= |kids|
  {
    && RowsDiffer(rows, from)
    && forall c: Creation {:trigger Lists(rows, from, c)} :: Lists(rows, from, c) <==>
         c == top || (c in empties && exists m | 0 <= m < k :: Under(folders, rank, c, kids[m]))
  }

  lemma WalkOn(folders: map<Path, Creation>, empties: seq<Creation>, rank: Path -> nat,
               rows: seq<Row>, more: seq<Row>, from: nat, top: Creation, kids: seq<Creation>, k: nat)
    requires Acyclic(folders, rank) && k < |kids| && NoRepeats(kids)
    requires forall m | 0 <= m < |kids| :: RightBelow(folders, kids[m], top) && Found(folders, kids[m])
    requires from <= |rows| && rows <= more
    requires Walking(folders, empties, rank, rows, from, top, kids, k)
    requires Walked(folders, empties, rank, more, |rows|, kids[k])
    ensures Walking(folders, empties, rank, more, from, top, kids, k + 1)
  {
    forall c: Creation
      ensures Lists(more, from, c) <==> Lists(rows, from, c) || Lists(more, |rows|, c)
    {
      ListsSplit(rows, more, from, c);
    }
    forall i, j | from <= i < j < |more|
      ensures more[i].of != more[j].of
    {
      if i < |rows| <= j {
        assert rows[i] == more[i];
        assert Lists(rows, from, rows[i].of) && Lists(more, |rows|, more[j].of);
        ApartFromSiblings(folders, rank, more[i].of, top, kids, k);
      }
    }
  }

  lemma ListsSplit(rows: seq<Row>, more: seq<Row>, from: nat, c: Creation)
    requires from <= |rows| && rows <= more
    ensures Lists(more, from, c) <==> Lists(rows, from, c) || Lists(more, |rows|, c)
  {
    if Lists(rows, from, c) {
      var i :| from <= i < |rows| && rows[i].of == c;
      assert more[i].of == c;
    }
  }

  /** What is above a child, or under an earlier one, is not under it. */
  lemma ApartFromSiblings(folders: map<Path, Creation>, rank: Path -> nat, c: Creation, top: Creation,
                          kids: seq<Creation>, k: nat)
    requires Acyclic(folders, rank) && k < |kids| && NoRepeats(kids)
    requires forall m | 0 <= m < |kids| :: RightBelow(folders, kids[m], top) && Found(folders, kids[m])
    requires c == top || exists m | 0 <= m < k :: Under(folders, rank, c, kids[m])
    ensures !Under(folders, rank, c, kids[k])
  {
    if Under(folders, rank, c, kids[k]) {
      assert RightBelow(folders, kids[k], top);
      if c == top {
        UnderHasRank(folders, rank, top, kids[k]);
      } else {
        var m :| 0 <= m < k && Under(folders, rank, c, kids[m]);
        UnderIsUnique(folders, rank, c, kids[m], kids[k]);
      }
      assert false;
    }
  }

  lemma WalkEnds(folders: map<Path, Creation>, empties: seq<Creation>, rank: Path -> nat,
                 rows: seq<Row>, from: nat, top: Creation, kids: seq<Creation>)
    requires Acyclic(folders, rank) && Listing(folders, empties) && top in empties
    requires forall c: Creation :: c in kids <==> c in empties && RightBelow(folders, c, top)
    requires Walking(folders, empties, rank, rows, from, top, kids, |kids|)
    ensures Walked(folders, empties, rank, rows, from, top)
  {
    forall c: Creation
      ensures Lists(rows, from, c) <==> c in empties && Under(folders, rank, c, top)
    {
      if c in empties && Under(folders, rank, c, top) && c != top {
        UnderSplits(folders, rank, c, top);
        var k :| RightBelow(folders, k, top) && Under(folders, rank, c, k) && Found(folders, k);
        assert k in kids;
        var m :| 0 <= m < |kids| && kids[m] == k;
        assert Under(folders, rank, c, kids[m]);
      }
      if c in empties && exists m | 0 <= m < |kids| :: Under(folders, rank, c, kids[m]) {
        var m :| 0 <= m < |kids| && Under(folders, rank, c, kids[m]);
        assert kids[m] in kids;
        UnderThrough(folders, rank, c, kids[m], top);
      }
    }
  }

  lemma {:induction false} UnderThrough(folders: map<Path, Creation>, rank: Path -> nat, c: Creation, k: Creation, top: Creation)
    requires Acyclic(folders, rank) && Under(folders, rank, c, k) && RightBelow(folders, k, top) && Found(folders, k)
    ensures Under(folders, rank, c, top)
    decreases rank(c.path)
  {
    if c != k {
      UnderThrough(folders, rank, Over(folders, c).value, k, top);
    } else {
      assert Under(folders, rank, top, top);
    }
  }

  lemma {:induction false} UnderUnder(folders: map<Path, Creation>, rank: Path -> nat, c: Creation, k: Creation, top: Creation)
    requires Acyclic(folders, rank) && Under(folders, rank, c, k) && Under(folders, rank, k, top)
    ensures Under(folders, rank, c, top)
    decreases rank(c.path)
  {
    if c != k {
      UnderUnder(folders, rank, Over(folders, c).value, k, top);
    }
  }

  /** A folder's subtree is not interrupted by other folders. */
  ghost predicate Unbroken(folders: map<Path, Creation>, rank: Path -> nat, rows: seq<Row>, i: nat, j: nat, l: nat)
    requires Acyclic(folders, rank) && i < |rows| && j < |rows| && l < |rows|
  {
    Under(folders, rank, rows[l].of, rows[i].of) ==> Under(folders, rank, rows[j].of, rows[i].of)
  }

  /** Folders with the same parent come in folder order. */
  predicate SiblingsOrdered(folders: map<Path, Creation>, empties: seq<Creation>, rows: seq<Row>, i: nat, j: nat)
    requires i < |rows| && j < |rows|
  {
    Over(folders, rows[i].of) == Over(folders, rows[j].of) ==> Before(empties, rows[i].of, rows[j].of)
  }

  /** The order of a walk: every subtree in one piece, siblings in folder order. */
  ghost predicate FolderOrder(folders: map<Path, Creation>, empties: seq<Creation>, rank: Path -> nat, rows: seq<Row>, from: nat)
    requires Acyclic(folders, rank)
  {
    && (forall i, j, l | from <= i < j < l < |rows| :: Unbroken(folders, rank, rows, i, j, l))
    && (forall i, j | from < i < j < |rows| :: SiblingsOrdered(folders, empties, rows, i, j))
  }

  /** The next child's subtree breaks none of those before. */
  lemma UnbrokenOn(folders: map<Path, Creation>, empties: seq<Creation>, rank: Path -> nat, rows: seq<Row>, more: seq<Row>,
                   from: nat, top: Creation, kids: seq<Creation>, k: nat, i: nat, j: nat, l: nat)
    requires Acyclic(folders, rank) && k < |kids| && NoRepeats(kids)
    requires forall m | 0 <= m < |kids| :: RightBelow(folders, kids[m], top) && Found(folders, kids[m])
    requires from < |rows| && rows <= more && rows[from].of == top
    requires Walking(folders, empties, rank, rows, from, top, kids, k) && Walked(folders, empties, rank, more, |rows|, kids[k])
    requires from <= i < j < l < |more| && i < |rows| <= l
    ensures Unbroken(folders, rank, more, i, j, l)
  {
    hide Over, RightBelow, Found;
    assert Lists(more, |rows|, more[l].of);
    if Under(folders, rank, more[l].of, more[i].of) {
      assert rows[i] == more[i] && Lists(rows, from, rows[i].of);
      if i == from {
        if j < |rows| {
          assert rows[j] == more[j] && Lists(rows, from, rows[j].of);
          if rows[j].of != top {
            var m :| 0 <= m < k && Under(folders, rank, rows[j].of, kids[m]);
            UnderThrough(folders, rank, rows[j].of, kids[m], top);
          }
        } else {
          assert Lists(more, |rows|, more[j].of);
          UnderThrough(folders, rank, more[j].of, kids[k], top);
        }
      } else {
        assert rows[i].of != top;
        var m :| 0 <= m < k && Under(folders, rank, rows[i].of, kids[m]);
        UnderUnder(folders, rank, more[l].of, rows[i].of, kids[m]);
        ApartFromSiblings(folders, rank, more[l].of, top, kids, k);
      }
    }
  }

  /** A folder with the parent of some folder in a subtree is in that subtree, or at its top. */
  lemma SiblingIsUnder(folders: map<Path, Creation>, rank: Path -> nat, a: Creation, b: Creation, top: Creation)
    requires Acyclic(folders, rank) && Found(folders, a) && Under(folders, rank, b, top) && b != top
    requires Over(folders, a) == Over(folders, b)
    ensures Under(folders, rank, a, top)
  {
  }

  lemma SiblingsOn(folders: map<Path, Creation>, empties: seq<Creation>, rank: Path -> nat, rows: seq<Row>, more: seq<Row>,
                   from: nat, top: Creation, kids: seq<Creation>, k: nat, i: nat, j: nat)
    requires Acyclic(folders, rank) && Listing(folders, empties) && k < |kids| && NoRepeats(kids) && InOrder(kids, empties)
    requires forall m | 0 <= m < |kids| :: RightBelow(folders, kids[m], top) && Found(folders, kids[m])
    requires from < |rows| && rows <= more && rows[from].of == top
    requires Walking(folders, empties, rank, rows, from, top, kids, k) && Walked(folders, empties, rank, more, |rows|, kids[k])
    requires |rows| < |more| && more[|rows|].of == kids[k]
    requires from < i < j < |more| && i <= |rows| <= j
    ensures SiblingsOrdered(folders, empties, more, i, j)
  {
    var a, b := more[i].of, more[j].of;
    if Over(folders, a) == Over(folders, b) {
      assert Lists(more, |rows|, b);
      if i == |rows| {
        AloneAtTheTop(folders, rank, b, kids[k], top);
      } else {
        assert rows[i] == more[i] && Lists(rows, from, a) && a != top;
        var m :| 0 <= m < k && Under(folders, rank, a, kids[m]);
        if b == kids[k] {
          AloneAtTheTop(folders, rank, a, kids[m], top);
        } else {
          SiblingIsUnder(folders, rank, a, b, kids[k]);
          ApartFromSiblings(folders, rank, a, top, kids, k);
        }
      }
    }
  }

  /** In a child's subtree only the child has its parent. */
  lemma AloneAtTheTop(folders: map<Path, Creation>, rank: Path -> nat, c: Creation, k: Creation, top: Creation)
    requires Acyclic(folders, rank) && RightBelow(folders, k, top) && Found(folders, k)
    requires Under(folders, rank, c, k) && Over(folders, c) == Some(top)
    ensures c == k
  {
    if c != k {
      UnderHasRank(folders, rank, top, k);
    }
  }

  lemma OrderOn(folders: map<Path, Creation>, empties: seq<Creation>, rank: Path -> nat, rows: seq<Row>, more: seq<Row>,
                from: nat, top: Creation, kids: seq<Creation>, k: nat)
    requires Acyclic(folders, rank) && Listing(folders, empties) && k < |kids| && NoRepeats(kids) && InOrder(kids, empties)
    requires forall m | 0 <= m < |kids| :: RightBelow(folders, kids[m], top) && Found(folders, kids[m])
    requires from < |rows| < |more| && rows <= more && rows[from].of == top && more[|rows|].of == kids[k]
    requires Walking(folders, empties, rank, rows, from, top, kids, k) && Walked(folders, empties, rank, more, |rows|, kids[k])
    requires FolderOrder(folders, empties, rank, rows, from) && FolderOrder(folders, empties, rank, more, |rows|)
    ensures FolderOrder(folders, empties, rank, more, from)
  {
    hide Walking, Walked, Under, Over, Found, RightBelow, InOrder, NoRepeats, Listing, Acyclic, Before;
    forall i, j, l | from <= i < j < l < |more|
      ensures Unbroken(folders, rank, more, i, j, l)
    {
      if l < |rows| {
        assert Unbroken(folders, rank, rows, i, j, l);
      } else if i < |rows| {
        UnbrokenOn(folders, empties, rank, rows, more, from, top, kids, k, i, j, l);
      }
    }
    forall i, j | from < i < j < |more|
      ensures SiblingsOrdered(folders, empties, more, i, j)
    {
      if j < |rows| {
        assert SiblingsOrdered(folders, empties, rows, i, j);
      } else if i <= |rows| {
        SiblingsOn(folders, empties, rank, rows, more, from, top, kids, k, i, j);
      }
    }
  }

  lemma IndentOn(folders: map<Path, Creation>, rows: seq<Row>, more: seq<Row>, from: nat, indent: real)
    requires from < |rows| < |more| && rows <= more
    requires Indented(folders, rows, from, indent) && Indented(folders, more, |rows|, indent)
    requires RightBelow(folders, more[|rows|].of, more[from].of) && more[|rows|].dx == more[from].dx + indent
    ensures Indented(folders, more, from, indent)
  {
    forall i | from < i < |more|
      ensures HangsFrom(folders, more, from, i, indent)
    {
      if i < |rows| {
        assert HangsFrom(folders, rows, from, i, indent);
        var j :| from <= j < i && RightBelow(folders, rows[i].of, rows[j].of) && rows[i].dx == rows[j].dx + indent;
        assert RightBelow(folders, more[i].of, more[j].of);
      } else if i > |rows| {
        assert HangsFrom(folders, more, |rows|, i, indent);
      }
    }
  }

  lemma Deeper(depth: nat, indent: real)
    ensures (depth + 1) as real * indent == depth as real * indent + indent
    ensures indent >= 0.0 ==> depth as real * indent >= 0.0
  {
    if indent >= 0.0 {
      MulMono(0.0, depth as real, indent);
    }
  }

  lemma WalkStarts(folders: map<Path, Creation>, empties: seq<Creation>, rank: Path -> nat,
                   sofar: seq<Row>, row: Row, top: Creation, kids: seq<Creation>, spacing: Spacing)
    requires Acyclic(folders, rank) && Pitched(sofar, spacing.pitch)
    requires row.of == top && row.dx >= 0.0 && row.dy == |sofar| as real * spacing.pitch
    ensures var rows := sofar + [row];
            && Walking(folders, empties, rank, rows, |sofar|, top, kids, 0)
            && Indented(folders, rows, |sofar|, spacing.indent) && Pitched(rows, spacing.pitch)
            && FolderOrder(folders, empties, rank, rows, |sofar|)
  {
    var rows := sofar + [row];
    forall c: Creation
      ensures Lists(rows, |sofar|, c) <==> c == top
    {
      if c == top {
        assert rows[|sofar|].of == c;
      }
    }
    hide Under, Over;
  }

  lemma RankGrows(folders: map<Path, Creation>, rank: Path -> nat, c: Creation, p: Creation)
    requires Acyclic(folders, rank) && RightBelow(folders, c, p) && Found(folders, c)
    ensures rank(p.path) < rank(c.path)
  {
  }

  /** `walk`: a folder's row, then the subtrees of its children; termination is the forest's. */
  method Walk(kids: map<Path, seq<Creation>>, entry: Creation, depth: nat, sofar: seq<Row>, spacing: Spacing,
              ghost folders: map<Path, Creation>, ghost empties: seq<Creation>, ghost heads: seq<Creation>,
              ghost rank: Path -> nat, ghost bound: nat)
    returns (rows: seq<Row>)
    requires Acyclic(folders, rank) && Listing(folders, empties) && Nested(folders, empties, kids, heads)
    requires entry in empties && (forall c | c in empties :: rank(c.path) <= bound)
    requires Pitched(sofar, spacing.pitch) && spacing.indent >= 0.0
    ensures |sofar| < |rows| && sofar <= rows
    ensures rows[|sofar|].of == entry && rows[|sofar|].dx == depth as real * spacing.indent
    ensures Pitched(rows, spacing.pitch) && Indented(folders, rows, |sofar|, spacing.indent)
    ensures Walked(folders, empties, rank, rows, |sofar|, entry) && FolderOrder(folders, empties, rank, rows, |sofar|)
    decreases bound - rank(entry.path)
  {
    hide Walking, Walked, Indented, Pitched, Nested, Listing, Acyclic, RightBelow, Over, Under, NoRepeats, FolderOrder, InOrder;
    Deeper(depth, spacing.indent);
    var row := Row(entry, depth as real * spacing.indent, |sofar| as real * spacing.pitch);
    rows := sofar + [row];
    var children := KidsOf(kids, entry);
    ghost var from := |sofar|;
    ChildrenOf(folders, empties, kids, heads, entry);
    WalkStarts(folders, empties, rank, sofar, row, entry, children, spacing);
    for k := 0 to |children|
      invariant |rows| > from && sofar <= rows
      invariant rows[from].of == entry && rows[from].dx == depth as real * spacing.indent
      invariant Pitched(rows, spacing.pitch) && Indented(folders, rows, from, spacing.indent)
      invariant Walking(folders, empties, rank, rows, from, entry, children, k)
      invariant FolderOrder(folders, empties, rank, rows, from)
    {
      var child := children[k];
      assert child in children && RightBelow(folders, child, entry);
      RankGrows(folders, rank, child, entry);
      Deeper(depth, spacing.indent);
      ghost var previous := rows;
      rows := Walk(kids, child, depth + 1, rows, spacing, folders, empties, heads, rank, bound);
      WalkOn(folders, empties, rank, previous, rows, from, entry, children, k);
      OrderOn(folders, empties, rank, previous, rows, from, entry, children, k);
      IndentOn(folders, previous, rows, from, spacing.indent);
    }
    WalkEnds(folders, empties, rank, rows, from, entry, children);
  }

  lemma ChildrenOf(folders: map<Path, Creation>, empties: seq<Creation>, kids: map<Path, seq<Creation>>,
                   heads: seq<Creation>, entry: Creation)
    requires Listing(folders, empties) && Nested(folders, empties, kids, heads) && entry in empties
    ensures NoRepeats(KidsOf(kids, entry)) && InOrder(KidsOf(kids, entry), empties)
    ensures forall c: Creation :: c in KidsOf(kids, entry) <==> c in empties && RightBelow(folders, c, entry)
    ensures forall c | c in KidsOf(kids, entry) :: Found(folders, c)
  {
    forall c: Creation
      ensures c in KidsOf(kids, entry) <==> c in empties && RightBelow(folders, c, entry)
    {
      if c in empties && Over(folders, c).Some? && c.parent == entry.path {
        assert Found(folders, entry);
      }
    }
  }
}
