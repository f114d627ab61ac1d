/** What ownership comes to in the terms of the folder itself: its paths, contents and digests. */
module OwnershipMeans {
  import opened Wrappers
  import opened Ownership
  import opened OwnershipLaws
  import opened OwnershipComplete

  // ------------------------------------------------------------------------ records

  /** The first record of this path is that of this content. */
  ghost predicate WroteThis(m: Marker, rel: Path, c: Content)
  {
    exists i | 0 <= i < |m.files| :: FirstRecord(m.files, i, rel) && m.files[i].digest == Sha256(c)
  }

  predicate FirstRecord(files: seq<Record>, i: nat, rel: Path)
    requires i < |files|
  {
    files[i].path == rel && forall j | 0 <= j < i :: files[j].path != rel
  }

  lemma {:induction false} FoundIsFirst(files: seq<Record>, rel: Path, i: nat)
    requires i < |files| && FirstRecord(files, i, rel)
    ensures FindRecord(files, rel) == Some(files[i])
  {
    if i > 0 {
      assert files[0].path != rel;
      forall j | 0 <= j < i - 1
        ensures files[1..][j].path != rel
      {
        assert files[j + 1].path != rel;
      }
      FoundIsFirst(files[1..], rel, i - 1);
    }
  }

  lemma {:induction false} SomeIsFirst(files: seq<Record>, rel: Path) returns (i: nat)
    requires exists r | r in files :: r.path == rel
    ensures i < |files| && FirstRecord(files, i, rel)
  {
    if files[0].path == rel {
      i := 0;
    } else {
      var r :| r in files && r.path == rel;
      assert r in files[1..];
      var k := SomeIsFirst(files[1..], rel);
      i := k + 1;
      forall j | 0 <= j < i
        ensures files[j].path != rel
      {
        assert j > 0 ==> files[j] == files[1..][j - 1];
      }
    }
  }

  lemma RecordedIff(m: Marker, rel: Path, c: Content)
    ensures Recorded(m, rel, c) <==> WroteThis(m, rel, c)
  {
    if exists r | r in m.files :: r.path == rel {
      var i := SomeIsFirst(m.files, rel);
      FoundIsFirst(m.files, rel, i);
    }
    forall i | 0 <= i < |m.files| && FirstRecord(m.files, i, rel)
      ensures FindRecord(m.files, rel) == Some(m.files[i])
    {
      FoundIsFirst(m.files, rel, i);
    }
  }

  /** The run wrote nothing of this content here: no record of the path has its digest. */
  predicate NeverWrote(m: Marker, rel: Path, c: Content)
  {
    forall r | r in m.files && r.path == rel :: r.digest != Sha256(c)
  }

  lemma NeverWroteIsUnproven(m: Marker, rel: Path, c: Content)
    requires NeverWrote(m, rel, c)
    ensures !Recorded(m, rel, c)
  {
  }

  /** A successful write is on record, and the records of other paths stay. */
  lemma WriteIsRecorded(m: Marker, rel: Path, c: Content, other: Path, d: Content)
    ensures WroteThis(AfterWrite(m, rel, c), rel, c)
    ensures other != rel ==> (WroteThis(AfterWrite(m, rel, c), other, d) <==> WroteThis(m, other, d))
  {
    RecordedIff(AfterWrite(m, rel, c), rel, c);
    RecordedIff(AfterWrite(m, rel, c), other, d);
    RecordedIff(m, other, d);
  }

  // ------------------------------------------------------------------ verification

  /** At or below the marker's own path. */
  predicate AtMarker(rel: Path)
  {
    |rel| >= 2 && rel[0] == ".litria" && rel[1] == "scaffold-attempt.json"
  }

  /** A file with the digest on record, or a directory on the way to a recorded file; nothing declared, no link. */
  ghost predicate OwnOutput(t: Tree, m: Marker, rel: Path)
    requires rel in t
  {
    && Everything !in m.unrecorded && At(rel) !in m.unrecorded
    && match t[rel]
       case Link(_) => false
       case File(c) => WroteThis(m, rel, c)
       case Dir => rel == [".litria"] || exists r | r in m.files :: |rel| < |r.path| && r.path[..|rel|] == rel
  }

  lemma MarkerAreaIs(rel: Path)
    ensures MarkerArea(rel) <==> AtMarker(rel)
    ensures InMarkerDir(rel) <==> |rel| >= 2 && rel[0] == ".litria"
  {
    if |rel| >= 2 {
      assert rel[..2] == [rel[0], rel[1]];
      assert |rel| == 2 ==> rel == rel[..2];
    }
    if |rel| >= 1 {
      assert rel[..1] == [rel[0]];
    }
  }

  lemma ProvenIff(t: Tree, m: Marker, rel: Path)
    requires rel in t
    ensures Proven(t, m, rel) <==> OwnOutput(t, m, rel)
  {
    if t[rel].File? {
      RecordedIff(m, rel, t[rel].content);
    }
    hide Recorded, WroteThis;
  }

  /**
    Which folders verify, when nothing fails: those of which every entry is the run's own output,
    but for the marker's directory, where only the marker's name may stand and what is below is not looked at.
   */
  lemma VerifiedIff(t: Tree, m: Marker)
    ensures Verified(t, m, NO_FAULT) <==>
            && [] in t && t[[]] == Dir
            && forall rel | rel in t && rel != [] ::
                 if |rel| >= 2 && rel[0] == ".litria" then |rel| > 2 || rel[1] == "scaffold-attempt.json"
                 else OwnOutput(t, m, rel)
  {
    forall rel | rel in t && rel != []
      ensures Passes(t, m, rel, NO_FAULT) <==>
              if |rel| >= 2 && rel[0] == ".litria" then |rel| > 2 || rel[1] == "scaffold-attempt.json"
              else OwnOutput(t, m, rel)
    {
      MarkerAreaIs(rel);
      ProvenIff(t, m, rel);
    }
    hide Passes, OwnOutput, Proven;
  }

  /** With calls failing, of those the ones in which the looks at what is outside the marker's directory all succeed. */
  lemma VerifiedDespiteFaultsIff(t: Tree, m: Marker, io: Io)
    ensures Verified(t, m, io) <==>
            && Verified(t, m, NO_FAULT) && !io.fails(ReadDir([]))
            && forall rel | rel in t && rel != [] && !(|rel| >= 2 && rel[0] == ".litria") ::
                 && !io.fails(Inspect(rel))
                 && (t[rel].Dir? ==> !io.fails(ReadDir(rel)))
                 && (t[rel].File? ==> !io.fails(Read(rel)))
  {
    forall rel | rel in t && rel != []
      ensures Passes(t, m, rel, io) <==> Passes(t, m, rel, NO_FAULT) && ((|rel| >= 2 && rel[0] == ".litria") || Readable(t, rel, io))
    {
      MarkerAreaIs(rel);
      hide Proven;
    }
    hide Passes, Proven;
  }

  /** With calls failing, at most those folders verify. */
  lemma VerifiedAtMost(t: Tree, m: Marker, io: Io, rel: Path)
    requires WellFormed(t) && Verified(t, m, io) && rel in t && rel != [] && !AtMarker(rel)
    ensures OwnOutput(t, m, rel)
  {
    MarkerAreaIs(rel);
    VerifiedMeans(t, m, io, rel);
    ProvenIff(t, m, rel);
  }

  // ------------------------------------------------------------------------- cleanup

  /** A folder that was removed held nothing that the run did not write, down to the content of every file. */
  lemma RemovedHeldOnlyOurs(w: World, a: Attempt, io: Io, ioVerify: Io, rel: Path, c: Content)
    requires WellFormed(w.tree) && [] in w.tree && !io.fails(Inspect([]))
    requires Cleanup(w, a, io, ioVerify).outcome == Removed
    requires rel in w.tree && w.tree[rel] == File(c) && !AtMarker(rel)
    ensures exists r | r in a.marker.files :: r.path == rel && r.digest == Sha256(c)
  {
    VerifiedAtMost(w.tree, a.marker, ioVerify, rel);
    var i :| 0 <= i < |a.marker.files| && FirstRecord(a.marker.files, i, rel) && a.marker.files[i].digest == Sha256(c);
    assert a.marker.files[i] in a.marker.files;
  }

  /** So a file that was edited after it was written keeps the folder, whatever fails. */
  lemma EditedFileKeepsTheFolder(w: World, a: Attempt, io: Io, ioVerify: Io, rel: Path, c: Content)
    requires WellFormed(w.tree) && [] in w.tree && !io.fails(Inspect([]))
    requires rel in w.tree && w.tree[rel] == File(c) && !AtMarker(rel) && NeverWrote(a.marker, rel, c)
    ensures Cleanup(w, a, io, ioVerify).outcome == Retained
    ensures Kept(Cleanup(w, a, io, ioVerify).world, rel, c)
  {
    if Cleanup(w, a, io, ioVerify).outcome == Removed {
      RemovedHeldOnlyOurs(w, a, io, ioVerify, rel, c);
    }
    MarkerAreaIs(rel);
    NeverWroteIsUnproven(a.marker, rel, c);
    CleanupSpares(w, a, io, ioVerify, rel, c);
    hide Cleanup, Kept;
  }

  /** With nothing failing: gone is exactly a folder that the run made and that verifies; one that is missing counts as removed. */
  lemma CleanupIff(w: World, a: Attempt)
    ensures var done := Cleanup(w, a, NO_FAULT, NO_FAULT);
            if [] !in w.tree then done == Cleaned(w, Removed)
            else if a.marker.createdRoot && Verified(w.tree, a.marker, NO_FAULT) then done == Cleaned(World(map[], w.aside), Removed)
            else done == Cleaned(w, Retained)
  {
    hide Proven, Recorded, Passes;
  }

  /** What a create CLI wrote is never taken for the run's own: its folder goes only while it is empty. */
  lemma ExternalOutputStays(w: World, io: Io, ioVerify: Io, rel: Path)
    requires WellFormed(w.tree) && [] in w.tree && !io.fails(Inspect([])) && rel in w.tree && rel != []
    ensures Cleanup(w, EXTERNAL, io, ioVerify).outcome == Retained
  {
    PrefixIsThere(w.tree, rel, 1);
    var top := rel[..1];
    if Verified(w.tree, EXTERNAL.marker, ioVerify) {
      VerifiedAtMost(w.tree, EXTERNAL.marker, ioVerify, top);
    }
    hide Verified;
  }

  /** The attempt at hand has no record of this content here. */
  predicate Unwritten(attempt: Option<Attempt>, rel: Path, c: Content)
  {
    attempt.Some? ==> NeverWrote(attempt.value.marker, rel, c)
  }

  /** In every run, a file whose digest stays off the record is kept, under the guards of `ForeignIsKept`. */
  lemma EditedFileIsKept(states: seq<System>, steps: seq<Step>, i: nat, j: nat, rel: Path, c: Content)
    requires Run(states, steps) && i <= j < |states|
    requires !AtMarker(rel) && Kept(states[i].world, rel, c)
    requires forall k | i <= k < j :: AtRoot(states[k].world, rel, c) ==> Unwritten(states[k].attempt, rel, c)
    requires forall k | i <= k < j :: AtRoot(states[k].world, rel, c) ==> !WritesThrough(states[k], steps[k], rel)
    requires forall k | i <= k < j && steps[k].Outside? :: LeavesAlone(states[k].world, steps[k].world, rel, c)
    ensures Kept(states[j].world, rel, c)
  {
    hide Run, Kept, AtRoot, WritesThrough, LeavesAlone, MarkerArea, Recorded, NeverWrote;
    MarkerAreaIs(rel);
    forall k | i <= k < j && AtRoot(states[k].world, rel, c)
      ensures !RecordedBy(states[k].attempt, rel, c)
    {
      if states[k].attempt.Some? {
        NeverWroteIsUnproven(states[k].attempt.value.marker, rel, c);
      }
    }
    ForeignIsKept(states, steps, i, j, rel, c);
  }

  // -------------------------------------------------------------------------- writes

  /** A file in the way that the run did not write is never replaced, whatever fails. */
  lemma EditedFileRefusesTheWrite(t: Tree, a: Attempt, rel: Path, contents: Content, io: Io, ioMarker: Io, c: Content)
    requires rel in t && t[rel] == File(c) && NeverWrote(a.marker, rel, c)
    ensures var wrote := WriteFile(t, a, rel, contents, io, ioMarker);
            !wrote.ok && wrote.marker == a.marker && rel in wrote.tree && wrote.tree[rel] == File(c)
  {
    NeverWroteIsUnproven(a.marker, rel, c);
    AncestorsSpare(t, rel, 1, io);
    PutSpares(t, a.marker, rel, contents, io);
    hide Recorded, MakeAncestors, SameLinks;
  }

  /** A path that can be written: names one below the other, none of them empty, a dot, two dots or with a slash in it. */
  lemma WritablePathIff(rel: Path)
    ensures ValidRel(rel) <==>
            && rel != []
            && forall i | 0 <= i < |rel| ::
                 rel[i] != "" && rel[i] != "." && rel[i] != ".." && forall k | 0 <= k < |rel[i]| :: rel[i][k] != '/' && rel[i][k] != '\\'
  {
  }

  /**
    With nothing failing, a write over the run's own marker succeeds exactly if only directories
    are above its target, and there is nothing at it but a file that the run wrote.
   */
  lemma WriteSucceedsIff(t: Tree, m: Marker, rel: Path, contents: Content)
    requires WellFormed(t) && MarkerInPlace(t, m) && Ordinary(rel)
    ensures WriteFile(t, Attempt(m, true), rel, contents, NO_FAULT, NO_FAULT).ok <==>
            && (forall n | 0 <= n < |rel| && rel[..n] in t :: t[rel[..n]] == Dir)
            && (rel in t ==> t[rel].File? && WroteThis(m, rel, t[rel].content))
  {
    WriteExactly(t, m, rel, contents);
    if rel in t && t[rel].File? {
      RecordedIff(m, rel, t[rel].content);
    }
    hide WriteFile, Recorded, WroteThis, WellFormed, Ordinary;
    PassableIff(t, rel);
  }

  lemma PassableIff(t: Tree, rel: Path)
    ensures Passable(t, rel) <==> forall n | 0 <= n < |rel| && rel[..n] in t :: t[rel[..n]] == Dir
  {
    forall n | 0 <= n < |rel|
      ensures StrictlyBelow(rel[..n], rel)
    {
    }
    forall p | StrictlyBelow(p, rel)
      ensures p == rel[..|p|]
    {
    }
  }

  // --------------------------------------------------------------------------- links

  /** No directory on this path, and not the path itself, is a link. */
  predicate Real(t: Tree, p: Path)
  {
    forall n | 0 < n <= |p| && p[..n] in t :: !t[p[..n]].Link?
  }

  /** A call that follows links ends up at a path without any, if it ends up in the tree. */
  lemma {:induction false} ResolvedIsReal(t: Tree, done: Path, rest: Path, links: nat)
    requires Real(t, done) && Resolve(t, done, rest, links).There?
    ensures Real(t, Resolve(t, done, rest, links).path)
    decreases links, |rest|
  {
    if rest != [] {
      var next := done + [rest[0]];
      if next in t && t[next].Link? {
        ResolvedIsReal(t, [], t[next].to.path + rest[1..], links - 1);
      } else {
        forall n | 0 < n <= |next| && next[..n] in t
          ensures !t[next[..n]].Link?
        {
          assert n <= |done| ==> next[..n] == done[..n];
          assert n == |next| ==> next[..n] == next;
        }
        ResolvedIsReal(t, next, rest[1..], links);
      }
    }
  }

  /** And a path without links is its own place. */
  lemma {:induction false} RealIsItself(t: Tree, done: Path, rest: Path, links: nat)
    requires Real(t, done + rest)
    ensures Resolve(t, done, rest, links) == There(done + rest)
    decreases |rest|
  {
    if rest == [] {
      assert done + rest == done;
    } else {
      var next := done + [rest[0]];
      assert (done + rest)[..|next|] == next;
      assert next + rest[1..] == done + rest;
      RealIsItself(t, next, rest[1..], links);
    }
  }

  /** At the first link on the way it goes on with where the link leads. */
  lemma LinkLeadsOn(t: Tree, before: Path, name: Name, rest: Path, links: nat)
    requires Real(t, before) && before + [name] in t && t[before + [name]].Link? && links > 0
    ensures Resolve(t, [], before + [name] + rest, links) ==
            match t[before + [name]].to
            case Beyond => Away
            case Inside(q) => Resolve(t, [], q + rest, links - 1)
  {
    assert [] + before == before;
    WalkTo(t, [], before, [name] + rest, links);
    assert before + ([name] + rest) == before + [name] + rest;
    assert ([name] + rest)[1..] == rest;
  }

  lemma {:induction false} WalkTo(t: Tree, done: Path, way: Path, rest: Path, links: nat)
    requires Real(t, done + way)
    ensures Resolve(t, done, way + rest, links) == Resolve(t, done + way, rest, links)
    decreases |way|
  {
    if way == [] {
      assert done + way == done && way + rest == rest;
    } else {
      var next := done + [way[0]];
      assert (done + way)[..|next|] == next;
      assert next + way[1..] == done + way && (way + rest)[1..] == way[1..] + rest;
      WalkTo(t, next, way[1..], rest, links);
    }
  }

  // -------------------------------------------------------------------------- claims

  /** The manifest of an earlier run, where one is. */
  function EarlierMarker(t: Tree): Option<Marker>
  {
    var path := [".litria", "scaffold-attempt.json"];
    if path in t && t[path].File? && t[path].content.Json? then Some(t[path].content.marker) else None
  }

  /** With nothing failing: which folders can be claimed, with which manifest, and why the others cannot. */
  lemma ClaimIff(t: Tree, allowEmpty: bool)
    requires WellFormed(t)
    ensures var claimed := Claim(t, allowEmpty, NO_FAULT, NO_FAULT, NO_FAULT);
            if [] !in t then claimed.attempt == Some(Attempt(Marker(true, [], []), true)) && claimed.error == None
            else if t[[]].Link? then claimed == Claimed(t, None, Some(IsLink))
            else if t[[]].File? then claimed == Claimed(t, None, Some(NotDir))
            else
              match EarlierMarker(t)
              case Some(m) =>
                if Verified(t, m, NO_FAULT) then claimed.attempt == Some(Attempt(m, true)) && claimed.error == None
                else claimed == Claimed(t, None, Some(Unverified))
              case None =>
                if allowEmpty && (forall p | p in t :: p == [])
                then claimed.attempt == Some(Attempt(Marker(false, [], []), true)) && claimed.error == None
                else claimed == Claimed(t, None, Some(NotEmpty))
  {
    hide Verified, Persist, Clean, Claim;
    EarlierIsRead(t);
    if [] !in t {
      EmptyTree(t);
      NewClaimIsClean(t, allowEmpty);
      ClaimedNew(t, allowEmpty);
    } else if t[[]].Dir? && EarlierMarker(t).Some? {
      EarlierIsInPlace(t);
      PersistExactly(t, EarlierMarker(t).value, EarlierMarker(t).value);
      ClaimedOver(t, allowEmpty);
    } else if t[[]].Dir? && allowEmpty && forall p | p in t :: p == [] {
      assert t == map[[] := Dir];
      NewClaimIsClean(t, allowEmpty);
      ClaimedNew(t, allowEmpty);
    } else {
      NotClaimed(t, allowEmpty);
    }
  }

  lemma EarlierIsRead(t: Tree)
    ensures ReadMarker(t, NO_FAULT) == EarlierMarker(t)
  {
    assert MARKER_PATH == [".litria", "scaffold-attempt.json"];
  }

  lemma EarlierIsInPlace(t: Tree)
    requires WellFormed(t) && [] in t && t[[]] == Dir && EarlierMarker(t).Some?
    ensures MarkerInPlace(t, EarlierMarker(t).value)
  {
    assert MARKER_PATH == [".litria", "scaffold-attempt.json"];
    assert Parent(MARKER_PATH) == [MARKER_DIR];
  }

  lemma EmptyTree(t: Tree)
    requires WellFormed(t) && [] !in t
    ensures t == map[]
  {
    if t != map[] {
      RootIsThere(t);
    }
  }

  lemma RootIsThere(t: Tree)
    requires WellFormed(t) && t != map[]
    ensures [] in t
  {
    var p :| p in t;
    PrefixIsThere(t, p, 0);
    assert p[..0] == [];
  }

  lemma ClaimedNew(t: Tree, allowEmpty: bool)
    requires Claim(t, allowEmpty, NO_FAULT, NO_FAULT, NO_FAULT).attempt.Some?
    ensures Claim(t, allowEmpty, NO_FAULT, NO_FAULT, NO_FAULT).error == None
  {
    hide ClaimMarker, Persist;
  }

  lemma ClaimedOver(t: Tree, allowEmpty: bool)
    requires [] in t && t[[]] == Dir && ReadMarker(t, NO_FAULT).Some?
    requires Persist(t, ReadMarker(t, NO_FAULT).value, true, NO_FAULT).ok
    ensures var claimed, m := Claim(t, allowEmpty, NO_FAULT, NO_FAULT, NO_FAULT), ReadMarker(t, NO_FAULT).value;
            if Verified(t, m, NO_FAULT) then claimed.attempt == Some(Attempt(m, true)) && claimed.error == None
            else claimed == Claimed(t, None, Some(Unverified))
  {
    hide Verified, Persist, ReadMarker;
  }

  lemma NotClaimed(t: Tree, allowEmpty: bool)
    requires [] in t && (t[[]].Dir? ==> ReadMarker(t, NO_FAULT).None? && !(allowEmpty && forall p | p in t :: p == []))
    ensures Claim(t, allowEmpty, NO_FAULT, NO_FAULT, NO_FAULT) ==
            Claimed(t, None, Some(if t[[]].Link? then IsLink else if t[[]].File? then NotDir else NotEmpty))
  {
    hide Verified, Persist, ReadMarker;
    assert t.Keys == {[]} <==> forall p | p in t :: p == [];
  }
}
