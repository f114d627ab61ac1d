/** What creation ownership promises, over every run, with any call failing. */
module OwnershipLaws {
  import opened Wrappers
  import opened Ownership

  /** A file that the manifest does not prove to be the run's own output, outside the marker's path. */
  predicate Foreign(t: Tree, m: Marker, rel: Path)
  {
    rel in t && t[rel].File? && !MarkerArea(rel) && !Recorded(m, rel, t[rel].content)
  }

  // ------------------------------------------------- what each operation leaves alone

  /** The marker's path is a link that leads to this file. */
  predicate MarkerLeadsTo(t: Tree, p: Path)
  {
    && MARKER_PATH in t && t[MARKER_PATH].Link?
    && p in t && t[p].File? && Resolve(t, [], MARKER_PATH, MAX_LINKS) == There(p)
  }

  /** Persisting gets as far as opening a marker path that is there. */
  predicate Opens(onDisk: bool, io: Io)
  {
    onDisk && !io.fails(Inspect([MARKER_DIR])) && !io.fails(Inspect(MARKER_PATH)) && !io.fails(Open(MARKER_PATH))
  }

  /** Persisting the marker changes nothing but the marker's directory and file, and a file that a link there leads to. */
  lemma PersistSpares(t: Tree, m: Marker, onDisk: bool, io: Io)
    requires WellFormed(t)
    ensures var t' := Persist(t, m, onDisk, io).tree;
            && (forall p | p in t && p != MARKER_PATH ::
                  p in t' && (!(Opens(onDisk, io) && MarkerLeadsTo(t, p)) ==> t'[p] == t[p]))
            && (forall p | p in t' && p != MARKER_PATH && p != [MARKER_DIR] :: p in t)
  {
    hide WriteMarker;
    if MARKER_PATH in t {
      assert Parent(MARKER_PATH) == [MARKER_DIR];
      MarkerSpares(t, m, io);
    } else {
      NewMarkerSpares(t, m, io);
      NewMarkerSpares(CreateDir(t, [MARKER_DIR], io).tree, m, io);
    }
    hide Resolve, WellFormed;
  }

  lemma NewMarkerSpares(t: Tree, m: Marker, io: Io)
    requires MARKER_PATH !in t
    ensures var t' := WriteMarker(t, m, io).tree;
            && (forall p | p in t :: p in t' && t'[p] == t[p])
            && (forall p | p in t' && p != MARKER_PATH :: p in t)
  {
    hide Resolve;
  }

  lemma MarkerSpares(t: Tree, m: Marker, io: Io)
    requires MARKER_PATH in t && [MARKER_DIR] in t && t[[MARKER_DIR]].Dir?
    ensures var t' := WriteMarker(t, m, io).tree;
            && (forall p | p in t && p != MARKER_PATH ::
                  p in t' && (!(!io.fails(Inspect(MARKER_PATH)) && !io.fails(Open(MARKER_PATH)) && MarkerLeadsTo(t, p)) ==> t'[p] == t[p]))
            && (forall p | p in t' :: p in t)
  {
    if !t[MARKER_PATH].Link? {
      MarkerIsItself(t);
    }
    hide Resolve;
  }

  /** What is not a link, and not behind one, is what a call on it reaches. */
  lemma MarkerIsItself(t: Tree)
    requires [MARKER_DIR] in t && !t[[MARKER_DIR]].Link? && MARKER_PATH in t && !t[MARKER_PATH].Link?
    ensures Resolve(t, [], MARKER_PATH, MAX_LINKS) == There(MARKER_PATH)
  {
    assert MARKER_PATH[1..] == [MARKER_FILE] && [MARKER_FILE][1..] == [];
    assert [] + [MARKER_DIR] == [MARKER_DIR] && [MARKER_DIR] + [MARKER_FILE] == MARKER_PATH;
    assert Resolve(t, MARKER_PATH, [], MAX_LINKS) == There(MARKER_PATH);
    assert Resolve(t, [MARKER_DIR], [MARKER_FILE], MAX_LINKS) == There(MARKER_PATH);
  }

  /**
    A file outside the marker's own path survives a persist exactly unless the marker is
    kept on disk, its path is a link that leads to the file, and opening it succeeds;
    then the file holds the manifest, or what the failed write left.
   */
  lemma PersistSparesIff(t: Tree, m: Marker, onDisk: bool, io: Io, p: Path)
    requires WellFormed(t) && p in t && t[p].File? && p != MARKER_PATH
    ensures var t' := Persist(t, m, onDisk, io).tree;
            && p in t'
            && t'[p] == (if Opens(onDisk, io) && MarkerLeadsTo(t, p) then File(if io.fails(Write(p)) then io.torn else Json(m)) else t[p])
  {
    PersistSpares(t, m, onDisk, io);
    if Opens(onDisk, io) && MarkerLeadsTo(t, p) {
      assert Parent(MARKER_PATH) == [MARKER_DIR];
      assert Persist(t, m, onDisk, io) == Fill(t, p, Json(m), io);
    }
    hide Resolve;
  }

  /** Making the directories above a path changes nothing that is there. */
  lemma {:induction false} AncestorsSpare(t: Tree, rel: Path, i: nat, io: Io)
    ensures var t' := MakeAncestors(t, rel, i, io).tree;
            forall p | p in t :: p in t' && t'[p] == t[p]
    decreases |rel| - i
  {
    if i < |rel| {
      match Stat(t, rel[..i], io)
      case Some(Dir) => AncestorsSpare(t, rel, i + 1, io);
      case Some(_) =>
      case None =>
        if CreateDir(t, rel[..i], io).ok {
          AncestorsSpare(CreateDir(t, rel[..i], io).tree, rel, i + 1, io);
        }
    }
  }

  /** The same links, leading to the same places. */
  predicate SameLinks(t: Tree, t': Tree)
  {
    && (forall p | p in t && t[p].Link? :: p in t' && t'[p] == t[p])
    && (forall p | p in t' && t'[p].Link? :: p in t && t[p] == t'[p])
  }

  lemma {:induction false} LinksDecide(t: Tree, t': Tree, done: Path, rest: Path, links: nat)
    requires SameLinks(t, t')
    ensures Resolve(t', done, rest, links) == Resolve(t, done, rest, links)
    decreases links, |rest|
  {
    if rest != [] {
      var next := done + [rest[0]];
      if next in t && t[next].Link? {
        if links > 0 && t[next].to.Inside? {
          LinksDecide(t, t', [], t[next].to.path + rest[1..], links - 1);
        }
      } else {
        LinksDecide(t, t', next, rest[1..], links);
      }
    }
  }

  lemma {:induction false} AncestorsKeepLinks(t: Tree, rel: Path, i: nat, io: Io)
    ensures SameLinks(t, MakeAncestors(t, rel, i, io).tree)
    decreases |rel| - i
  {
    if i < |rel| {
      match Stat(t, rel[..i], io)
      case Some(Dir) => AncestorsKeepLinks(t, rel, i + 1, io);
      case Some(_) =>
      case None =>
        if CreateDir(t, rel[..i], io).ok {
          AncestorsKeepLinks(CreateDir(t, rel[..i], io).tree, rel, i + 1, io);
        }
    }
  }

  /** Writing the file makes and breaks no link, and changes no file but a target that the manifest proves. */
  lemma PutSpares(t: Tree, m: Marker, rel: Path, contents: Content, io: Io)
    ensures var t' := PutFile(t, m, rel, contents, io).tree;
            && SameLinks(t, t')
            && forall p | p in t && t[p].File? && (p != rel || !Recorded(m, p, t[p].content)) :: p in t' && t'[p] == t[p]
  {
    hide MakeAncestors, Recorded, ClearTarget, CreateFile, SameLinks;
    AncestorsSpare(t, rel, 1, io);
    AncestorsKeepLinks(t, rel, 1, io);
    var ready := MakeAncestors(t, rel, 1, io).tree;
    ReplacingSpares(ready, m, rel, contents, io);
    LinksChain(t, ready, ClearTarget(ready, m, rel, io).tree);
    LinksChain(t, ready, CreateFile(ClearTarget(ready, m, rel, io).tree, rel, contents, io).tree);
  }

  lemma ReplacingSpares(t: Tree, m: Marker, rel: Path, contents: Content, io: Io)
    ensures var clear := ClearTarget(t, m, rel, io).tree;
            var t' := CreateFile(clear, rel, contents, io).tree;
            && SameLinks(t, clear) && SameLinks(t, t')
            && forall p | p in t && t[p].File? && (p != rel || !Recorded(m, p, t[p].content)) ::
                 p in clear && clear[p] == t[p] && p in t' && t'[p] == t[p]
  {
    hide Recorded;
  }

  lemma LinksChain(t: Tree, t': Tree, t'': Tree)
    requires SameLinks(t, t') && SameLinks(t', t'')
    ensures SameLinks(t, t'')
  {
  }

  lemma PutKeepsMarkerLink(t: Tree, m: Marker, rel: Path, contents: Content, io: Io, p: Path)
    requires p in t && t[p].File? && (p != rel || !Recorded(m, p, t[p].content))
    ensures var t' := PutFile(t, m, rel, contents, io).tree;
            && p in t' && t'[p] == t[p]
            && (MarkerLeadsTo(t', p) <==> MarkerLeadsTo(t, p))
  {
    PutSpares(t, m, rel, contents, io);
    LinksDecide(t, PutFile(t, m, rel, contents, io).tree, [], MARKER_PATH, MAX_LINKS);
    hide PutFile, Resolve, Recorded;
  }

  /**
    A write changes no file but the marker, its own target if the manifest proves it,
    and a file that a link at the marker's path leads to: exactly these.
   */
  lemma WriteSparesIff(t: Tree, a: Attempt, rel: Path, contents: Content, io: Io, ioMarker: Io, p: Path)
    requires WellFormed(t) && p in t && t[p].File? && p != MARKER_PATH
    requires p != rel || !Recorded(a.marker, p, t[p].content)
    ensures var wrote := WriteFile(t, a, rel, contents, io, ioMarker);
            && p in wrote.tree
            && wrote.tree[p] ==
               if ValidRel(rel) && PutFile(t, a.marker, rel, contents, io).ok && Opens(a.onDisk, ioMarker) && MarkerLeadsTo(t, p)
               then File(if ioMarker.fails(Write(p)) then ioMarker.torn else Json(wrote.marker))
               else t[p]
  {
    PutKeepsMarkerLink(t, a.marker, rel, contents, io, p);
    PutKeepsForm(t, a.marker, rel, contents, io);
    var put := PutFile(t, a.marker, rel, contents, io).tree;
    var marker := a.marker.(files := WithRecord(a.marker.files, Record(rel, Sha256(contents))));
    PersistSparesIff(put, marker, a.onDisk, ioMarker, p);
    hide Persist, PutFile, WithRecord, MarkerLeadsTo, Recorded, ValidRel, WellFormed;
  }

  /** A claim never gets to write through such a link: with it, the folder has no marker and is not empty. */
  lemma ClaimSpares(t: Tree, allowEmpty: bool, io: Io, ioVerify: Io, ioMarker: Io, p: Path)
    requires WellFormed(t) && p in t && t[p].File? && p != MARKER_PATH
    ensures var t' := Claim(t, allowEmpty, io, ioVerify, ioMarker).tree;
            p in t' && t'[p] == t[p]
  {
    var (found, error) := ClaimMarker(t, allowEmpty, io, ioVerify);
    if found.Some? {
      ClaimedHasNoLink(t, allowEmpty, io, ioVerify);
      var made := if Stat(t, [], io).Some? then t else t[[] := Dir];
      if Stat(t, [], io).None? {
        assert CreateDir(t, [], io).ok;
        PutNodeKeepsForm(t, [], Dir);
      }
      PersistSpares(made, found.value, true, ioMarker);
      hide Persist, ClaimMarker, WellFormed, Resolve;
    }
  }

  lemma ClaimedHasNoLink(t: Tree, allowEmpty: bool, io: Io, ioVerify: Io)
    requires ClaimMarker(t, allowEmpty, io, ioVerify).0.Some? && WellFormed(t)
    ensures MARKER_PATH in t ==> !t[MARKER_PATH].Link?
  {
    if MARKER_PATH in t {
      assert Parent(MARKER_PATH) == [MARKER_DIR] && Parent([MARKER_DIR]) == [];
      assert MARKER_PATH in t.Keys && MARKER_PATH !in {[]};
    }
    hide Verified;
  }

  lemma {:induction false} PrefixIsThere(t: Tree, p: Path, n: nat)
    requires WellFormed(t) && p in t && n <= |p|
    ensures p[..n] in t
    decreases |p|
  {
    if n == |p| {
      assert p[..n] == p;
    } else {
      PrefixIsThere(t, Parent(p), n);
      assert Parent(p)[..n] == p[..n];
    }
  }

  /** What a verified tree holds: the marker's own path, and otherwise only proven entries. */
  lemma VerifiedMeans(t: Tree, m: Marker, io: Io, rel: Path)
    requires WellFormed(t) && Verified(t, m, io) && rel in t && rel != []
    ensures MarkerArea(rel) || Proven(t, m, rel)
  {
    assert Passes(t, m, rel, io);
    if InMarkerDir(rel) {
      PrefixIsThere(t, rel, 2);
      assert Passes(t, m, rel[..2], io);
      assert rel[..2][..1] == rel[..1];
      assert rel[..2] == [rel[0], rel[1]] == MARKER_PATH;
      if |rel| == 2 {
        assert rel == rel[..2];
      }
    }
  }

  lemma ForeignIsNotVerified(t: Tree, m: Marker, io: Io, rel: Path)
    requires WellFormed(t) && Foreign(t, m, rel)
    ensures !Verified(t, m, io)
  {
    if Verified(t, m, io) {
      VerifiedMeans(t, m, io, rel);
      assert false;
    }
  }

  /** Where a file with this content is: at the root, or in a tree that was moved aside and could not be moved back. */
  predicate Kept(w: World, rel: Path, c: Content)
  {
    AtRoot(w, rel, c) || exists k | 0 <= k < |w.aside| :: HasFile(w.aside[k], rel, c)
  }

  predicate HasFile(t: Tree, rel: Path, c: Content)
  {
    rel in t && t[rel] == File(c)
  }

  predicate AtRoot(w: World, rel: Path, c: Content)
  {
    HasFile(w.tree, rel, c)
  }

  /** Cleanup keeps every foreign file, and everything moved aside before. */
  lemma CleanupSpares(w: World, a: Attempt, io: Io, ioVerify: Io, rel: Path, c: Content)
    requires WellFormed(w.tree)
    requires Kept(w, rel, c) && !MarkerArea(rel)
    requires AtRoot(w, rel, c) ==> !Recorded(a.marker, rel, c)
    ensures Kept(Cleanup(w, a, io, ioVerify).world, rel, c)
  {
    var w' := Cleanup(w, a, io, ioVerify).world;
    if AtRoot(w, rel, c) {
      if Verified(w.tree, a.marker, ioVerify) {
        ForeignIsNotVerified(w.tree, a.marker, ioVerify, rel);
      } else if w' != w {
        assert HasFile(w'.aside[|w.aside|], rel, c);
      }
    } else {
      var k :| 0 <= k < |w.aside| && HasFile(w.aside[k], rel, c);
      assert w'.aside[k] == w.aside[k];
    }
  }

  /**
    `Removed` for a root that can be inspected: the run created it, everything in
    it outside the marker's path was proven, and it is gone. Nothing else goes.
   */
  lemma RemovedMeans(w: World, a: Attempt, io: Io, ioVerify: Io)
    requires WellFormed(w.tree)
    requires Stat(w.tree, [], io).Some? && Cleanup(w, a, io, ioVerify).outcome == Removed
    ensures a.marker.createdRoot && w.tree[[]].Dir?
    ensures forall rel | rel in w.tree && rel != [] && !MarkerArea(rel) ::
              && !w.tree[rel].Link? && !Declared(a.marker, rel)
              && (w.tree[rel].File? ==> Recorded(a.marker, rel, w.tree[rel].content))
    ensures Cleanup(w, a, io, ioVerify).world == World(map[], w.aside)
  {
    forall rel | rel in w.tree && rel != [] && !MarkerArea(rel)
      ensures Proven(w.tree, a.marker, rel)
    {
      VerifiedMeans(w.tree, a.marker, ioVerify, rel);
    }
  }

  /** `Removed` is also the answer for a root that is still there but cannot be inspected; only then. */
  lemma RemovedButThereIff(w: World, a: Attempt, io: Io, ioVerify: Io)
    requires Cleanup(w, a, io, ioVerify).outcome == Removed
    ensures [] in Cleanup(w, a, io, ioVerify).world.tree <==> [] in w.tree && io.fails(Inspect([]))
  {
  }

  /** The input for which it is: nothing was inspected, so nothing was done. */
  lemma UninspectedIsRemoved(w: World, a: Attempt, io: Io, ioVerify: Io)
    requires [] in w.tree && io.fails(Inspect([]))
    ensures Cleanup(w, a, io, ioVerify) == Cleaned(w, Removed)
  {
  }

  // --------------------------------------------------------------------- every run

  datatype System = System(world: World, attempt: Option<Attempt>)

  datatype Step =
    | Claims(allowEmpty: bool, io: Io, ioVerify: Io, ioMarker: Io)
    | StartsExternal
    | Notes(rel: Path, io: Io)
    | Writes(rel: Path, contents: Content, io: Io, ioMarker: Io)
    | CleansUp(io: Io, ioVerify: Io)
    | Outside(world: World) // any other process, anything

  function Apply(sys: System, step: Step): System
  {
    var w := sys.world;
    match step
    case Claims(allowEmpty, io, ioVerify, ioMarker) =>
      var claimed := Claim(w.tree, allowEmpty, io, ioVerify, ioMarker);
      System(w.(tree := claimed.tree), claimed.attempt)
    case StartsExternal => System(w, Some(EXTERNAL))
    case Notes(rel, io) =>
      if sys.attempt.None? then sys
      else
        var noted := Note(w.tree, sys.attempt.value, rel, io);
        System(w.(tree := noted.tree), Some(sys.attempt.value.(marker := noted.marker)))
    case Writes(rel, contents, io, ioMarker) =>
      if sys.attempt.None? then sys
      else
        var wrote := WriteFile(w.tree, sys.attempt.value, rel, contents, io, ioMarker);
        System(w.(tree := wrote.tree), Some(sys.attempt.value.(marker := wrote.marker)))
    case CleansUp(io, ioVerify) =>
      if sys.attempt.None? then sys else sys.(world := Cleanup(w, sys.attempt.value, io, ioVerify).world)
    case Outside(world) => System(world, sys.attempt)
  }

  ghost predicate Run(states: seq<System>, steps: seq<Step>)
  {
    && |states| == |steps| + 1
    && WellFormed(states[0].world.tree)
    && (forall i | 0 <= i < |steps| :: states[i + 1] == Apply(states[i], steps[i]))
    && (forall i | 0 <= i < |steps| && steps[i].Outside? :: WellFormed(steps[i].world.tree))
  }

  // The code never leaves an entry outside a directory.

  lemma PutNodeKeepsForm(t: Tree, p: Path, n: Node)
    requires WellFormed(t) && (p != [] ==> Parent(p) in t && t[Parent(p)].Dir?)
    requires p in t && t[p].Dir? ==> n.Dir?
    ensures WellFormed(t[p := n])
  {
    var t' := t[p := n];
    forall q | q in t' && q != []
      ensures Parent(q) in t' && t'[Parent(q)].Dir?
    {
      assert q == p || q in t;
    }
  }

  lemma DropKeepsForm(t: Tree, p: Path)
    requires WellFormed(t) && p in t && t[p].File?
    ensures WellFormed(t - {p})
  {
    var t' := t - {p};
    forall q | q in t' && q != []
      ensures Parent(q) in t' && t'[Parent(q)].Dir?
    {
      assert q in t;
    }
  }

  lemma FillKeepsForm(t: Tree, p: Path, c: Content, io: Io)
    requires WellFormed(t) && p in t && !t[p].Dir?
    ensures WellFormed(Fill(t, p, c, io).tree)
  {
    PutNodeKeepsForm(t, p, File(io.torn));
    PutNodeKeepsForm(t, p, File(c));
  }

  lemma MakeKeepsForm(t: Tree, p: Path, c: Content, io: Io)
    requires WellFormed(t)
    ensures WellFormed(CreateDir(t, p, io).tree)
    ensures WellFormed(CreateFile(t, p, c, io).tree)
  {
    if Free(t, p) {
      PutNodeKeepsForm(t, p, Dir);
      PutNodeKeepsForm(t, p, File(io.torn));
      PutNodeKeepsForm(t, p, File(c));
    }
    hide WellFormed;
  }

  lemma MarkerKeepsForm(t: Tree, m: Marker, io: Io)
    requires WellFormed(t)
    ensures WellFormed(WriteMarker(t, m, io).tree)
  {
    hide WellFormed, CreateFile, Fill, Resolve;
    MakeKeepsForm(t, MARKER_PATH, Json(m), io);
    match Resolve(t, [], MARKER_PATH, MAX_LINKS)
    case There(q) =>
      if q in t && t[q].File? {
        FillKeepsForm(t, q, Json(m), io);
      }
    case _ =>
  }

  lemma PersistKeepsForm(t: Tree, m: Marker, onDisk: bool, io: Io)
    requires WellFormed(t)
    ensures WellFormed(Persist(t, m, onDisk, io).tree)
  {
    hide WellFormed, CreateDir, WriteMarker;
    MakeKeepsForm(t, [MARKER_DIR], Json(m), io);
    MarkerKeepsForm(t, m, io);
    MarkerKeepsForm(CreateDir(t, [MARKER_DIR], io).tree, m, io);
  }

  lemma {:induction false} AncestorsKeepForm(t: Tree, rel: Path, i: nat, io: Io)
    requires WellFormed(t)
    ensures WellFormed(MakeAncestors(t, rel, i, io).tree)
    decreases |rel| - i
  {
    hide WellFormed, CreateDir;
    if i < |rel| {
      match Stat(t, rel[..i], io)
      case Some(Dir) => AncestorsKeepForm(t, rel, i + 1, io);
      case Some(_) =>
      case None =>
        MakeKeepsForm(t, rel[..i], Raw(""), io);
        AncestorsKeepForm(CreateDir(t, rel[..i], io).tree, rel, i + 1, io);
    }
  }

  lemma PutKeepsForm(t: Tree, m: Marker, rel: Path, contents: Content, io: Io)
    requires WellFormed(t)
    ensures WellFormed(PutFile(t, m, rel, contents, io).tree)
  {
    hide WellFormed, CreateFile, MakeAncestors, Recorded;
    AncestorsKeepForm(t, rel, 1, io);
    var ready := MakeAncestors(t, rel, 1, io).tree;
    if rel in ready && ready[rel].File? {
      DropKeepsForm(ready, rel);
    }
    MakeKeepsForm(ClearTarget(ready, m, rel, io).tree, rel, contents, io);
  }

  lemma WriteKeepsForm(t: Tree, a: Attempt, rel: Path, contents: Content, io: Io, ioMarker: Io)
    requires WellFormed(t)
    ensures WellFormed(WriteFile(t, a, rel, contents, io, ioMarker).tree)
  {
    hide WellFormed, PutFile, Persist, WithRecord;
    PutKeepsForm(t, a.marker, rel, contents, io);
    var marker := a.marker.(files := WithRecord(a.marker.files, Record(rel, Sha256(contents))));
    PersistKeepsForm(PutFile(t, a.marker, rel, contents, io).tree, marker, a.onDisk, ioMarker);
  }

  lemma ApplyKeepsForm(sys: System, step: Step)
    requires WellFormed(sys.world.tree)
    requires step.Outside? ==> WellFormed(step.world.tree)
    ensures WellFormed(Apply(sys, step).world.tree)
  {
    var t := sys.world.tree;
    assert WellFormed(map[]);
    hide WellFormed, WriteFile, Persist, Verified;
    match step
    case Claims(allowEmpty, io, ioVerify, ioMarker) =>
      var (found, error) := ClaimMarker(t, allowEmpty, io, ioVerify);
      if found.Some? {
        var made := if Stat(t, [], io).Some? then t else t[[] := Dir];
        MakeKeepsForm(t, [], Raw(""), io);
        PersistKeepsForm(made, found.value, true, ioMarker);
      }
    case Notes(rel, io) =>
      if sys.attempt.Some? {
        var a := sys.attempt.value;
        PersistKeepsForm(t, a.marker.(unrecorded := a.marker.unrecorded + [At(rel)]), a.onDisk, io);
      }
    case Writes(rel, contents, io, ioMarker) =>
      if sys.attempt.Some? {
        WriteKeepsForm(t, sys.attempt.value, rel, contents, io, ioMarker);
      }
    case _ =>
  }

  lemma {:induction false} RunKeepsForm(states: seq<System>, steps: seq<Step>, k: nat)
    requires Run(states, steps) && k < |states|
    ensures WellFormed(states[k].world.tree)
  {
    if k > 0 {
      RunKeepsForm(states, steps, k - 1);
      hide WellFormed, Apply;
      ApplyKeepsForm(states[k - 1], steps[k - 1]);
    }
  }

  /** An outside change that leaves every copy of this file where it is. */
  predicate LeavesAlone(w: World, w': World, rel: Path, c: Content)
  {
    && (AtRoot(w, rel, c) ==> AtRoot(w', rel, c))
    && |w.aside| <= |w'.aside|
    && (forall k | 0 <= k < |w.aside| && HasFile(w.aside[k], rel, c) :: HasFile(w'.aside[k], rel, c))
  }

  predicate RecordedBy(attempt: Option<Attempt>, rel: Path, c: Content)
  {
    attempt.Some? && Recorded(attempt.value.marker, rel, c)
  }

  /** The step would write the manifest through a link at the marker's path, onto this file. */
  predicate WritesThrough(sys: System, step: Step, rel: Path)
  {
    && sys.attempt.Some? && MarkerLeadsTo(sys.world.tree, rel)
    && match step
       case Notes(_, io) => Opens(sys.attempt.value.onDisk, io)
       case Writes(_, _, _, ioMarker) => Opens(sys.attempt.value.onDisk, ioMarker)
       case _ => false
  }

  lemma StepSpares(sys: System, step: Step, rel: Path, c: Content)
    requires WellFormed(sys.world.tree) && Kept(sys.world, rel, c) && !MarkerArea(rel)
    requires AtRoot(sys.world, rel, c) ==> !WritesThrough(sys, step, rel)
    requires AtRoot(sys.world, rel, c) ==> !RecordedBy(sys.attempt, rel, c)
    requires step.Outside? ==> LeavesAlone(sys.world, step.world, rel, c)
    ensures Kept(Apply(sys, step).world, rel, c)
  {
    var w, w' := sys.world, Apply(sys, step).world;
    if step.CleansUp? {
      if sys.attempt.Some? {
        CleanupSpares(w, sys.attempt.value, step.io, step.ioVerify, rel, c);
      }
    } else if AtRoot(w, rel, c) {
      hide Claim, WriteFile, Persist, WellFormed, MarkerLeadsTo, Opens, PutFile;
      match step
      case Claims(allowEmpty, io, ioVerify, ioMarker) => ClaimSpares(w.tree, allowEmpty, io, ioVerify, ioMarker, rel);
      case Notes(other, io) =>
        if sys.attempt.Some? {
          var a := sys.attempt.value;
          PersistSparesIff(w.tree, a.marker.(unrecorded := a.marker.unrecorded + [At(other)]), a.onDisk, io, rel);
        }
      case Writes(other, contents, io, ioMarker) =>
        if sys.attempt.Some? {
          WriteSparesIff(w.tree, sys.attempt.value, other, contents, io, ioMarker, rel);
        }
      case _ =>
    } else {
      var k :| 0 <= k < |w.aside| && HasFile(w.aside[k], rel, c);
      assert HasFile(w'.aside[k], rel, c);
    }
  }

  /**
    In every run, with any calls failing and any other process changing anything
    else in between: a file that stays unproven by the manifest, and that only the
    run could take, is still there with its content, at the root or set aside, as long
    as no step writes the manifest through a link onto it.
   */
  lemma {:induction false} ForeignIsKept(states: seq<System>, steps: seq<Step>, i: nat, j: nat, rel: Path, c: Content)
    requires Run(states, steps) && i <= j < |states|
    requires !MarkerArea(rel) && Kept(states[i].world, rel, c)
    requires forall k | i <= k < j :: AtRoot(states[k].world, rel, c) ==> !RecordedBy(states[k].attempt, rel, c)
    requires forall k | i <= k < j :: AtRoot(states[k].world, rel, c) ==> !WritesThrough(states[k], steps[k], rel)
    requires forall k | i <= k < j && steps[k].Outside? :: LeavesAlone(states[k].world, steps[k].world, rel, c)
    ensures Kept(states[j].world, rel, c)
  {
    hide Apply, Kept, AtRoot, RecordedBy, LeavesAlone, WellFormed, MarkerArea, WritesThrough;
    if i < j {
      ForeignIsKept(states, steps, i, j - 1, rel, c);
      RunKeepsForm(states, steps, j - 1);
      assert states[j] == Apply(states[j - 1], steps[j - 1]);
      StepSpares(states[j - 1], steps[j - 1], rel, c);
    }
  }
}
