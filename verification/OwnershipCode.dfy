/**
  The steps of creation ownership over a disk that changes in place
  (src-tauri/src/creation_ownership.rs), each proved to do what its function in
  Ownership.dfy says.
 */
module OwnershipCode {
  import opened Wrappers
  import opened Ownership

  /** Every entry below `dir` passes. */
  ghost predicate AllBelow(t: Tree, m: Marker, dir: Path, io: Io)
  {
    forall rel | rel in t && StrictlyBelow(dir, rel) :: Passes(t, m, rel, io)
  }

  ghost function Below(t: Tree, dir: Path): set<Path>
  {
    set p | p in t && StrictlyBelow(dir, p)
  }

  function Children(t: Tree, dir: Path): set<Path>
  {
    set p | p in t && |p| == |dir| + 1 && p[..|dir|] == dir
  }

  /** What is below a directory is one of its entries or below one. */
  lemma {:induction false} ChildAbove(t: Tree, dir: Path, rel: Path) returns (child: Path)
    requires WellFormed(t) && rel in t && StrictlyBelow(dir, rel)
    ensures child in Children(t, dir) && (child == rel || (StrictlyBelow(child, rel) && t[child].Dir?))
    decreases |rel|
  {
    if |rel| == |dir| + 1 {
      child := rel;
    } else {
      var parent := Parent(rel);
      assert parent[..|dir|] == dir;
      child := ChildAbove(t, dir, parent);
      assert rel[..|parent|] == parent;
      assert rel[..|child|] == parent[..|child|];
    }
  }

  lemma BelowChild(t: Tree, dir: Path, child: Path)
    requires child in Children(t, dir)
    ensures Below(t, child) < Below(t, dir)
  {
    forall p | p in Below(t, child)
      ensures p in Below(t, dir)
    {
      assert p[..|dir|] == p[..|child|][..|dir|];
    }
    assert child in Below(t, dir) && child !in Below(t, child);
  }

  lemma BelowIsDir(t: Tree, p: Path, q: Path)
    requires WellFormed(t) && p in t && q in t && StrictlyBelow(p, q)
    ensures t[p].Dir?
  {
    var child := ChildAbove(t, p, q);
    assert Parent(child) == p;
  }

  lemma NothingBelow(t: Tree, p: Path)
    requires WellFormed(t) && p in t && !t[p].Dir?
    ensures forall q | q in t :: !StrictlyBelow(p, q)
  {
    forall q | q in t && StrictlyBelow(p, q)
      ensures false
    {
      BelowIsDir(t, p, q);
    }
  }

  /** `verify_dir`, on a directory outside the marker's own. */
  method VerifyDir(t: Tree, m: Marker, dir: Path, io: Io) returns (ok: bool)
    requires WellFormed(t) && dir in t && t[dir].Dir?
    requires dir != [MARKER_DIR] && !InMarkerDir(dir)
    ensures ok <==> !io.fails(ReadDir(dir)) && AllBelow(t, m, dir, io)
    decreases Below(t, dir)
  {
    if io.fails(ReadDir(dir)) {
      return false;
    }
    var entries := Children(t, dir);
    var todo := entries;
    while todo != {}
      invariant todo <= entries
      invariant forall c | c in entries - todo :: Passes(t, m, c, io) && AllBelow(t, m, c, io)
      decreases |todo|
    {
      var c :| c in todo;
      todo := todo - {c};
      var passes := VerifyEntry(t, m, dir, c, io);
      if !passes {
        return false;
      }
    }
    forall rel | rel in t && StrictlyBelow(dir, rel)
      ensures Passes(t, m, rel, io)
    {
      var c := ChildAbove(t, dir, rel);
      assert c in entries - todo && AllBelow(t, m, c, io);
    }
    return true;
  }

  method VerifyEntry(t: Tree, m: Marker, ghost dir: Path, rel: Path, io: Io) returns (ok: bool)
    requires WellFormed(t) && rel in Children(t, dir)
    requires dir != [MARKER_DIR] && !InMarkerDir(dir)
    ensures ok <==> Passes(t, m, rel, io) && AllBelow(t, m, rel, io)
    decreases Below(t, dir), 0
  {
    if io.fails(Inspect(rel)) || t[rel].Link? || Declared(m, rel) {
      return false;
    }
    if t[rel].Dir? {
      if rel == [MARKER_DIR] {
        ok := VerifyMarkerDir(t, m, io);
        return;
      }
      if !exists r | r in m.files :: StrictlyBelow(rel, r.path) {
        return false;
      }
      BelowChild(t, dir, rel);
      ok := VerifyDir(t, m, rel, io);
      return;
    }
    NothingBelow(t, rel);
    var c := t[rel].content;
    return !io.fails(Read(rel)) && Recorded(m, rel, c);
  }

  /** Only the marker's name may be listed there; what is below it is not looked at. */
  method VerifyMarkerDir(t: Tree, m: Marker, io: Io) returns (ok: bool)
    requires WellFormed(t) && [MARKER_DIR] in t && t[[MARKER_DIR]].Dir?
    ensures ok <==> !io.fails(ReadDir([MARKER_DIR])) && AllBelow(t, m, [MARKER_DIR], io)
  {
    if io.fails(ReadDir([MARKER_DIR])) {
      return false;
    }
    var todo := Children(t, [MARKER_DIR]);
    while todo != {}
      invariant todo <= Children(t, [MARKER_DIR])
      invariant forall c | c in Children(t, [MARKER_DIR]) - todo :: c[1] == MARKER_FILE
      decreases |todo|
    {
      var c :| c in todo;
      todo := todo - {c};
      if c[1] != MARKER_FILE {
        return false;
      }
    }
    return true;
  }

  method VerifyTree(t: Tree, m: Marker, io: Io) returns (ok: bool)
    requires WellFormed(t)
    ensures ok <==> Verified(t, m, io)
  {
    if [] !in t || !t[[]].Dir? {
      return false;
    }
    ok := VerifyDir(t, m, [], io);
  }

  // ----------------------------------------------------------------------- the disk

  /** The calls the code makes, on a tree that changes in place. */
  class Disk {
    var tree: Tree
    var aside: seq<Tree>

    method MakeDirectory(p: Path, io: Io) returns (ok: bool)
      modifies this`tree
      ensures Effect(tree, ok) == CreateDir(old(tree), p, io)
    {
      ok := Free(tree, p) && !io.fails(MakeDir(p));
      if ok {
        tree := tree[p := Dir];
      }
    }

    method WriteAll(p: Path, c: Content, io: Io) returns (ok: bool)
      modifies this`tree
      ensures Effect(tree, ok) == Fill(old(tree), p, c, io)
    {
      ok := !io.fails(Write(p));
      tree := tree[p := File(if ok then c else io.torn)];
    }

    /** `open` with `write` and `truncate`, which follows links, then `write_all`. */
    method WriteExisting(p: Path, c: Content, io: Io) returns (ok: bool)
      modifies this`tree
      ensures Effect(tree, ok) == Overwrite(old(tree), p, c, io)
    {
      if io.fails(Open(p)) {
        return false;
      }
      match Resolve(tree, [], p, MAX_LINKS)
      case There(q) =>
        if q !in tree || !tree[q].File? {
          return false;
        }
        ok := WriteAll(q, c, io);
      case Away => return !io.fails(Write(p));
      case TooManyLinks => return false;
    }

    method CreateNew(p: Path, c: Content, io: Io) returns (ok: bool)
      modifies this`tree
      ensures Effect(tree, ok) == CreateFile(old(tree), p, c, io)
    {
      if !Free(tree, p) || io.fails(Open(p)) {
        return false;
      }
      ok := WriteAll(p, c, io);
    }
  }

  class Run {
    var marker: Marker
    var onDisk: bool

    function State(): Attempt
      reads this
    {
      Attempt(marker, onDisk)
    }

    constructor (a: Attempt)
      ensures State() == a
    {
      marker, onDisk := a.marker, a.onDisk;
    }

    method PersistMarker(disk: Disk, io: Io) returns (ok: bool)
      modifies disk`tree
      ensures Effect(disk.tree, ok) == Persist(old(disk.tree), marker, onDisk, io)
    {
      if !onDisk {
        return true;
      }
      var dir := Stat(disk.tree, [MARKER_DIR], io);
      if dir.Some? {
        if dir.value.Link? {
          return false;
        }
      } else {
        var made := disk.MakeDirectory([MARKER_DIR], io);
        if !made {
          return false;
        }
      }
      var existing := Stat(disk.tree, MARKER_PATH, io);
      if existing.None? {
        ok := disk.CreateNew(MARKER_PATH, Json(marker), io);
        return;
      }
      ok := disk.WriteExisting(MARKER_PATH, Json(marker), io);
    }

    method NoteUnrecorded(disk: Disk, rel: Path, io: Io) returns (ok: bool)
      modifies this`marker, disk`tree
      ensures Wrote(disk.tree, marker, ok) == Note(old(disk.tree), old(State()), rel, io)
    {
      if !ValidRel(rel) {
        return false;
      }
      if At(rel) !in marker.unrecorded {
        marker := marker.(unrecorded := marker.unrecorded + [At(rel)]);
        ok := PersistMarker(disk, io);
        return;
      }
      return true;
    }

    method WriteProjectFile(disk: Disk, rel: Path, contents: Content, io: Io, ioMarker: Io) returns (ok: bool)
      modifies this`marker, disk`tree
      ensures Wrote(disk.tree, marker, ok) == WriteFile(old(disk.tree), old(State()), rel, contents, io, ioMarker)
    {
      if !ValidRel(rel) {
        return false;
      }
      var i := 1;
      while i < |rel|
        invariant 1 <= i <= |rel|
        invariant marker == old(marker)
        invariant MakeAncestors(old(disk.tree), rel, 1, io) == MakeAncestors(disk.tree, rel, i, io)
      {
        var dir := Stat(disk.tree, rel[..i], io);
        if dir.Some? {
          if !dir.value.Dir? {
            return false;
          }
        } else {
          var made := disk.MakeDirectory(rel[..i], io);
          if !made {
            return false;
          }
        }
        i := i + 1;
      }
      var target := Stat(disk.tree, rel, io);
      if target.Some? {
        if !target.value.File? {
          return false;
        }
        var proven := Recorded(marker, rel, target.value.content) && !io.fails(Read(rel));
        if !proven || io.fails(Remove(rel)) {
          return false;
        }
        disk.tree := disk.tree - {rel};
      }
      var written := disk.CreateNew(rel, contents, io);
      if !written {
        return false;
      }
      marker := marker.(files := WithRecord(marker.files, Record(rel, Sha256(contents))));
      ok := PersistMarker(disk, ioMarker);
    }

    method CleanupAfterAbort(disk: Disk, io: Io, ioVerify: Io) returns (outcome: Outcome)
      requires WellFormed(disk.tree)
      modifies disk
      ensures Cleaned(World(disk.tree, disk.aside), outcome) ==
              Cleanup(World(old(disk.tree), old(disk.aside)), State(), io, ioVerify)
    {
      var root := Stat(disk.tree, [], io);
      if root.None? {
        return Removed;
      }
      if root.value.Link? || !marker.createdRoot || io.fails(MoveAside) {
        return Retained;
      }
      var moved := disk.tree;
      disk.tree := map[];
      var proven := VerifyTree(moved, marker, ioVerify);
      if !proven {
        if io.fails(MoveBack) {
          disk.aside := disk.aside + [moved];
        } else {
          disk.tree := moved;
        }
        return Retained;
      }
      if io.fails(RemoveTree) {
        disk.aside := disk.aside + [Remains(moved, io)];
        return Retained;
      }
      return Removed;
    }
  }

  method ClaimRoot(disk: Disk, allowExistingEmpty: bool, io: Io, ioVerify: Io, ioMarker: Io)
    returns (run: Run?, error: Option<ClaimError>)
    requires WellFormed(disk.tree)
    modifies disk`tree
    ensures var claimed := Claim(old(disk.tree), allowExistingEmpty, io, ioVerify, ioMarker);
            && disk.tree == claimed.tree
            && error == claimed.error
            && (run != null <==> claimed.attempt.Some?)
            && (run != null ==> fresh(run) && run.State() == claimed.attempt.value)
  {
    var m := Marker(false, [], []);
    var root := Stat(disk.tree, [], io);
    if root.Some? {
      if root.value.Link? {
        return null, Some(IsLink);
      }
      if !root.value.Dir? {
        return null, Some(NotDir);
      }
      var previous := ReadMarker(disk.tree, io);
      if previous.Some? {
        var proven := VerifyTree(disk.tree, previous.value, ioVerify);
        if !proven {
          return null, Some(Unverified);
        }
        m := previous.value;
      } else {
        var empty := !io.fails(ReadDir([])) && disk.tree.Keys == {[]};
        if !empty || !allowExistingEmpty {
          return null, Some(NotEmpty);
        }
      }
    } else {
      if io.fails(MakeParents) {
        return null, Some(MakeFailed);
      }
      var made := disk.MakeDirectory([], io);
      if !made {
        return null, Some(MakeFailed);
      }
      m := m.(createdRoot := true);
    }
    var attempt := new Run(Attempt(m, true));
    var kept := attempt.PersistMarker(disk, ioMarker);
    if !kept {
      return null, Some(MarkerFailed);
    }
    return attempt, None;
  }
}
