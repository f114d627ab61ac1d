/** What a run of creation ownership leaves behind when no call fails and nobody else touches the folder. */
module OwnershipComplete {
  import opened Wrappers
  import opened Ownership
  import opened OwnershipLaws

  /** A record's place: a canonical path, outside the marker's directory. */
  predicate Ordinary(rel: Path)
  {
    ValidRel(rel) && rel[0] != MARKER_DIR
  }

  predicate DistinctPaths(files: seq<Record>)
  {
    forall i, j | 0 <= i < j < |files| :: files[i].path != files[j].path
  }

  /** A recorded file, or a directory above one. */
  ghost predicate Accounted(t: Tree, m: Marker, p: Path)
    requires p in t
  {
    exists r | r in m.files :: p == r.path || (StrictlyBelow(p, r.path) && t[p] == Dir)
  }

  predicate MarkerInPlace(t: Tree, m: Marker)
  {
    && [] in t && t[[]] == Dir
    && [MARKER_DIR] in t && t[[MARKER_DIR]] == Dir
    && MARKER_PATH in t && t[MARKER_PATH] == File(Json(m))
  }

  predicate FilesInPlace(t: Tree, m: Marker)
  {
    forall r | r in m.files :: Ordinary(r.path) && r.path in t && t[r.path] == File(r.digest.of)
  }

  ghost predicate NothingElse(t: Tree, m: Marker)
  {
    forall p | p in t && p != [] && p != [MARKER_DIR] && p != MARKER_PATH :: Accounted(t, m, p)
  }

  /** The tree holds the marker, the recorded files unchanged, the directories above them, and nothing else. */
  ghost predicate Clean(t: Tree, m: Marker)
  {
    WellFormed(t) && MarkerInPlace(t, m) && DistinctPaths(m.files) && FilesInPlace(t, m) && NothingElse(t, m)
  }

  ghost predicate NothingDeclared(t: Tree, m: Marker)
  {
    forall p | p in t && p != [] && !InMarkerDir(p) :: !Declared(m, p)
  }

  lemma {:induction false} DistinctFinds(files: seq<Record>, r: Record)
    requires DistinctPaths(files) && r in files
    ensures FindRecord(files, r.path) == Some(r)
  {
    if files[0] != r {
      var k :| 0 < k < |files| && files[k] == r;
      assert files[0].path != files[k].path;
      assert files[1..][k - 1] == r;
      DistinctFinds(files[1..], r);
    }
  }

  lemma {:induction false} RecordingKeepsDistinct(files: seq<Record>, record: Record)
    requires DistinctPaths(files)
    ensures DistinctPaths(WithRecord(files, record))
  {
    if files != [] && files[0].path != record.path {
      RecordingKeepsDistinct(files[1..], record);
      var rest := WithRecord(files[1..], record);
      forall j | 0 <= j < |rest|
        ensures rest[j].path != files[0].path
      {
        assert rest[j] in rest;
      }
    }
  }

  lemma AccountedIsProven(t: Tree, m: Marker, p: Path)
    requires DistinctPaths(m.files) && FilesInPlace(t, m)
    requires p in t && p != [] && Accounted(t, m, p)
    ensures !InMarkerDir(p)
    ensures !Declared(m, p) ==> Proven(t, m, p)
  {
    var r :| r in m.files && (p == r.path || (StrictlyBelow(p, r.path) && t[p] == Dir));
    assert Ordinary(r.path) && t[r.path] == File(r.digest.of);
    assert p[0] == r.path[0] by {
      assert p == r.path[..|p|];
    }
    if p == r.path {
      DistinctFinds(m.files, r);
      assert r == Record(p, Sha256(r.digest.of));
    }
    hide FilesInPlace, DistinctPaths, Ordinary, FindRecord, Accounted;
  }

  /** What a run wrote, it can prove. */
  lemma CleanIsVerified(t: Tree, m: Marker)
    requires Clean(t, m) && NothingDeclared(t, m)
    ensures Verified(t, m, NO_FAULT)
  {
    forall p | p in t && p != []
      ensures Passes(t, m, p, NO_FAULT)
    {
      if p != [MARKER_DIR] && p != MARKER_PATH {
        assert Accounted(t, m, p);
        AccountedIsProven(t, m, p);
      }
      hide Proven, Recorded, Accounted;
    }
  }

  // ------------------------------------------------------- the exact effect of a write

  /** Nothing on the way to `rel` stops a directory from being there. */
  predicate Passable(t: Tree, rel: Path)
  {
    forall p | p in t && StrictlyBelow(p, rel) :: t[p] == Dir
  }

  predicate OwnDirAbove(p: Path, rel: Path)
  {
    p != [] && StrictlyBelow(p, rel)
  }

  /** `t'` is `t` with the directories above `rel`. */
  ghost predicate WithAncestors(t: Tree, t': Tree, rel: Path)
  {
    && (forall p :: p in t' <==> p in t || OwnDirAbove(p, rel))
    && (forall p | p in t' :: t'[p] == if p in t then t[p] else Dir)
  }

  lemma {:induction false} PrefixIsDir(t: Tree, p: Path, n: nat)
    requires WellFormed(t) && p in t && n < |p|
    ensures p[..n] in t && t[p[..n]].Dir?
  {
    PrefixIsThere(t, p, n + 1);
    assert Parent(p[..n + 1]) == p[..n];
  }

  /** A directory at one prefix: every shorter prefix is a directory too. */
  lemma ShorterIsDir(t: Tree, rel: Path, n: nat)
    requires WellFormed(t) && n <= |rel| && rel[..n] in t && t[rel[..n]] == Dir
    ensures forall p | StrictlyBelow(p, rel) && |p| <= n :: p in t && t[p] == Dir
  {
    forall p | StrictlyBelow(p, rel) && |p| <= n
      ensures p in t && t[p] == Dir
    {
      assert p == rel[..|p|] == rel[..n][..|p|];
      if |p| < n {
        PrefixIsDir(t, rel[..n], |p|);
      }
    }
  }

  lemma PrefixOfBoth(t: Tree, p: Path, rel: Path, n: nat)
    requires WellFormed(t) && p in t && (StrictlyBelow(p, rel) || p == rel) && n <= |p|
    ensures rel[..n] in t
  {
    PrefixIsThere(t, p, n);
    assert p[..n] == rel[..n];
  }

  /** Nothing at one prefix: nothing at any longer one. */
  lemma LongerIsMissing(t: Tree, rel: Path, n: nat)
    requires WellFormed(t) && n <= |rel| && rel[..n] !in t
    ensures forall p | p in t && StrictlyBelow(p, rel) :: |p| < n
    ensures rel !in t
  {
    forall p | p in t && (StrictlyBelow(p, rel) || p == rel)
      ensures |p| < n
    {
      if n <= |p| {
        PrefixOfBoth(t, p, rel, n);
      }
    }
  }

  /** With no fault, the directories above a path are made exactly when nothing else is in their place. */
  lemma {:induction false} AncestorsExactly(t: Tree, rel: Path, i: nat)
    requires WellFormed(t) && 1 <= i <= |rel|
    requires rel[..i - 1] in t && t[rel[..i - 1]] == Dir
    ensures var made := MakeAncestors(t, rel, i, NO_FAULT);
            && made.ok == Passable(t, rel)
            && (made.ok ==> WithAncestors(t, made.tree, rel))
            && (!made.ok ==> made.tree == t)
    decreases |rel| - i
  {
    hide WellFormed, StrictlyBelow, OwnDirAbove;
    if i == |rel| {
      AllAncestorsThere(t, rel);
    } else if rel[..i] in t {
      PrefixIsBelow(rel, i);
      if t[rel[..i]].Dir? {
        AncestorsExactly(t, rel, i + 1);
      }
    } else {
      assert Parent(rel[..i]) == rel[..i - 1];
      PutNodeKeepsForm(t, rel[..i], Dir);
      AncestorsExactly(t[rel[..i] := Dir], rel, i + 1);
      OneMoreDir(t, rel, i);
    }
  }

  lemma PrefixIsBelow(rel: Path, i: nat)
    requires i < |rel|
    ensures StrictlyBelow(rel[..i], rel) && (i > 0 ==> OwnDirAbove(rel[..i], rel))
  {
  }

  lemma AllAncestorsThere(t: Tree, rel: Path)
    requires WellFormed(t) && rel != []
    requires rel[..|rel| - 1] in t && t[rel[..|rel| - 1]] == Dir
    ensures Passable(t, rel) && WithAncestors(t, t, rel)
  {
    ShorterIsDir(t, rel, |rel| - 1);
  }

  /** Making the next missing directory neither helps nor hinders, and all that is still missing lies beyond it. */
  lemma OneMoreDir(t: Tree, rel: Path, i: nat)
    requires WellFormed(t) && 1 <= i < |rel|
    requires rel[..i - 1] in t && t[rel[..i - 1]] == Dir && rel[..i] !in t
    ensures var made := t[rel[..i] := Dir];
            && Passable(t, rel) && Passable(made, rel)
            && forall t': Tree | WithAncestors(made, t', rel) :: WithAncestors(t, t', rel)
  {
    ShorterIsDir(t, rel, i - 1);
    LongerIsMissing(t, rel, i);
    PrefixIsBelow(rel, i);
    hide WellFormed;
  }

  /** `t'` is `t` with `rel` written, the directories above it made, and the marker brought up to date. */
  ghost predicate Written(t: Tree, t': Tree, rel: Path, c: Content, m: Marker)
  {
    && (forall p :: p in t' <==> p in t || p == rel || OwnDirAbove(p, rel))
    && rel in t' && t'[rel] == File(c)
    && MARKER_PATH in t' && t'[MARKER_PATH] == File(Json(m))
    && (forall p | p in t' && p != rel && p != MARKER_PATH :: t'[p] == if p in t then t[p] else Dir)
  }

  /** What a write needs: a clear way, and nothing at its target but a file that the manifest proves. */
  predicate Writable(t: Tree, m: Marker, rel: Path)
  {
    Passable(t, rel) && (rel in t ==> t[rel].File? && Recorded(m, rel, t[rel].content))
  }

  function AfterWrite(m: Marker, rel: Path, c: Content): Marker
  {
    m.(files := WithRecord(m.files, Record(rel, Sha256(c))))
  }

  lemma PersistExactly(t: Tree, m0: Marker, m: Marker)
    requires MarkerInPlace(t, m0)
    ensures Persist(t, m, true, NO_FAULT) == Effect(t[MARKER_PATH := File(Json(m))], true)
  {
    MarkerIsItself(t);
    hide Resolve;
  }

  lemma FileExactly(t: Tree, m: Marker, rel: Path, c: Content)
    requires WellFormed(t) && ValidRel(rel) && Parent(rel) in t && t[Parent(rel)] == Dir
    ensures var clear := ClearTarget(t, m, rel, NO_FAULT);
            && clear.ok == (rel in t ==> t[rel].File? && Recorded(m, rel, t[rel].content))
            && (!clear.ok ==> clear.tree == t)
            && (clear.ok ==> CreateFile(clear.tree, rel, c, NO_FAULT) == Effect(t[rel := File(c)], true))
  {
    hide Recorded, FindRecord;
    if rel in t && t[rel].File? {
      assert (t - {rel})[rel := File(c)] == t[rel := File(c)];
    }
  }

  lemma ParentIsDir(t: Tree, ready: Tree, rel: Path)
    requires [] in t && t[[]] == Dir && rel != []
    requires Passable(t, rel) && WithAncestors(t, ready, rel)
    ensures Parent(rel) in ready && ready[Parent(rel)] == Dir
  {
    assert StrictlyBelow(Parent(rel), rel);
  }

  lemma TargetIsUntouched(t: Tree, ready: Tree, rel: Path)
    requires WithAncestors(t, ready, rel)
    ensures rel in ready <==> rel in t
    ensures rel in t ==> ready[rel] == t[rel]
  {
  }

  /** A refused target needed no directories. */
  lemma NothingToMake(t: Tree, ready: Tree, rel: Path)
    requires WellFormed(t) && WithAncestors(t, ready, rel) && rel in t
    ensures ready == t
  {
    forall p | OwnDirAbove(p, rel)
      ensures p in t
    {
      PrefixIsThere(t, rel, |p|);
    }
  }

  lemma MarkerIsUntouched(t: Tree, ready: Tree, rel: Path, c: Content, m: Marker)
    requires MarkerInPlace(t, m) && WithAncestors(t, ready, rel) && Ordinary(rel)
    ensures MarkerInPlace(ready[rel := File(c)], m)
  {
  }

  lemma WrittenThrough(t: Tree, ready: Tree, rel: Path, c: Content, m: Marker)
    requires WithAncestors(t, ready, rel) && MARKER_PATH in t && rel != MARKER_PATH
    ensures Written(t, ready[rel := File(c)][MARKER_PATH := File(Json(m))], rel, c, m)
  {
  }

  /**
    With no fault, a write succeeds exactly when its way is clear and its target is
    absent or proven; it then has exactly its effect, and otherwise none at all.
   */
  lemma WriteExactly(t: Tree, m: Marker, rel: Path, c: Content)
    requires WellFormed(t) && MarkerInPlace(t, m) && Ordinary(rel)
    ensures var wrote := WriteFile(t, Attempt(m, true), rel, c, NO_FAULT, NO_FAULT);
            && wrote.ok == Writable(t, m, rel)
            && (wrote.ok ==> wrote.marker == AfterWrite(m, rel, c) && Written(t, wrote.tree, rel, c, wrote.marker))
            && (!wrote.ok ==> wrote.marker == m && wrote.tree == t)
  {
    hide MakeAncestors, ClearTarget, CreateFile, Persist, WellFormed, WithAncestors, Written, Recorded, WithRecord;
    hide ValidName, Passable;
    assert rel[..0] == [];
    AncestorsExactly(t, rel, 1);
    AncestorsKeepForm(t, rel, 1, NO_FAULT);
    var ready := MakeAncestors(t, rel, 1, NO_FAULT);
    if ready.ok {
      ParentIsDir(t, ready.tree, rel);
      TargetIsUntouched(t, ready.tree, rel);
      if rel in t {
        NothingToMake(t, ready.tree, rel);
      }
      FileExactly(ready.tree, m, rel, c);
      MarkerIsUntouched(t, ready.tree, rel, c, m);
      PersistExactly(ready.tree[rel := File(c)], m, AfterWrite(m, rel, c));
      WrittenThrough(t, ready.tree, rel, c, AfterWrite(m, rel, c));
    }
  }

  // -------------------------------------------------------------- whole runs

  lemma WriteKeepsFiles(t: Tree, t': Tree, m: Marker, rel: Path, c: Content)
    requires MarkerInPlace(t, m) && FilesInPlace(t, m) && DistinctPaths(m.files)
    requires Ordinary(rel) && Written(t, t', rel, c, AfterWrite(m, rel, c))
    ensures MarkerInPlace(t', AfterWrite(m, rel, c))
    ensures FilesInPlace(t', AfterWrite(m, rel, c)) && DistinctPaths(AfterWrite(m, rel, c).files)
  {
    var m' := AfterWrite(m, rel, c);
    RecordingKeepsDistinct(m.files, Record(rel, Sha256(c)));
    forall r | r in m'.files
      ensures Ordinary(r.path) && r.path in t' && t'[r.path] == File(r.digest.of)
    {
      DistinctFinds(m'.files, r);
      if r.path != rel {
        assert r in m.files;
      }
    }
  }

  lemma WriteAccounts(t: Tree, t': Tree, m: Marker, rel: Path, c: Content)
    requires FilesInPlace(t, m) && NothingElse(t, m)
    requires Written(t, t', rel, c, AfterWrite(m, rel, c))
    ensures NothingElse(t', AfterWrite(m, rel, c))
  {
    var m' := AfterWrite(m, rel, c);
    assert FindRecord(m'.files, rel) == Some(Record(rel, Sha256(c)));
    forall p | p in t' && p != [] && p != [MARKER_DIR] && p != MARKER_PATH
      ensures Accounted(t', m', p)
    {
      if p in t && p != rel {
        assert Accounted(t, m, p);
        var r :| r in m.files && (p == r.path || (StrictlyBelow(p, r.path) && t[p] == Dir));
        if r.path != rel {
          assert r in m'.files;
        }
      }
    }
  }

  /** What a run does after its claim. */
  datatype Act = Put(rel: Path, contents: Content) | Declare(rel: Path)

  function Do(t: Tree, m: Marker, act: Act): Wrote
  {
    match act
    case Put(rel, contents) => WriteFile(t, Attempt(m, true), rel, contents, NO_FAULT, NO_FAULT)
    case Declare(rel) => Note(t, Attempt(m, true), rel, NO_FAULT)
  }

  /** Refused acts are passed over. */
  function DoAll(t: Tree, m: Marker, acts: seq<Act>): (Tree, Marker)
    decreases |acts|
  {
    if acts == [] then (t, m)
    else
      var done := Do(t, m, acts[0]);
      DoAll(done.tree, done.marker, acts[1..])
  }

  lemma PutKeepsClean(t: Tree, m: Marker, rel: Path, c: Content)
    requires Clean(t, m) && Ordinary(rel)
    ensures var done := Do(t, m, Put(rel, c)); Clean(done.tree, done.marker) && done.marker.createdRoot == m.createdRoot
  {
    hide WellFormed, MarkerInPlace, FilesInPlace, DistinctPaths, NothingElse, WriteFile, Written, Writable;
    hide Ordinary, WithRecord;
    WriteExactly(t, m, rel, c);
    WriteKeepsForm(t, Attempt(m, true), rel, c, NO_FAULT, NO_FAULT);
    var wrote := Do(t, m, Put(rel, c));
    if wrote.ok {
      WriteKeepsFiles(t, wrote.tree, m, rel, c);
      WriteAccounts(t, wrote.tree, m, rel, c);
    }
  }

  /** A new marker over the same records, written where the old one is. */
  lemma RemarkedIsClean(t: Tree, m: Marker, m': Marker)
    requires Clean(t, m) && m'.files == m.files
    ensures Clean(t[MARKER_PATH := File(Json(m'))], m')
  {
    var t' := t[MARKER_PATH := File(Json(m'))];
    RemarkedFiles(t, m, m');
    RemarkedAccounts(t, m, m');
    PutNodeKeepsForm(t, MARKER_PATH, File(Json(m')));
    hide WellFormed, FilesInPlace, DistinctPaths, NothingElse;
  }

  lemma RemarkedFiles(t: Tree, m: Marker, m': Marker)
    requires FilesInPlace(t, m) && m'.files == m.files
    ensures FilesInPlace(t[MARKER_PATH := File(Json(m'))], m')
  {
  }

  lemma RemarkedAccounts(t: Tree, m: Marker, m': Marker)
    requires NothingElse(t, m) && m'.files == m.files
    ensures NothingElse(t[MARKER_PATH := File(Json(m'))], m')
  {
    var t' := t[MARKER_PATH := File(Json(m'))];
    forall p | p in t' && p != [] && p != [MARKER_DIR] && p != MARKER_PATH
      ensures Accounted(t', m', p)
    {
      assert Accounted(t, m, p);
    }
  }

  lemma DeclareKeepsClean(t: Tree, m: Marker, rel: Path)
    requires Clean(t, m)
    ensures var done := Do(t, m, Declare(rel)); Clean(done.tree, done.marker) && done.marker.createdRoot == m.createdRoot
  {
    var m' := m.(unrecorded := m.unrecorded + [At(rel)]);
    PersistExactly(t, m, m');
    RemarkedIsClean(t, m, m');
    hide Clean, Persist, ValidRel;
  }

  lemma {:induction false} ActsKeepClean(t: Tree, m: Marker, acts: seq<Act>)
    requires Clean(t, m)
    requires forall act | act in acts && act.Put? :: Ordinary(act.rel)
    ensures var (t', m') := DoAll(t, m, acts); Clean(t', m') && m'.createdRoot == m.createdRoot
    decreases |acts|
  {
    hide Clean, Do, Ordinary;
    if acts != [] {
      match acts[0] {
        case Put(rel, contents) => PutKeepsClean(t, m, rel, contents);
        case Declare(rel) => DeclareKeepsClean(t, m, rel);
      }
      var done := Do(t, m, acts[0]);
      ActsKeepClean(done.tree, done.marker, acts[1..]);
    }
  }

  /** A folder that is missing or, where that is allowed, empty can be claimed; the claim leaves a clean tree. */
  lemma NewClaimIsClean(t: Tree, allowEmpty: bool)
    requires t == map[] || (allowEmpty && t == map[[] := Dir])
    ensures var m := Marker(t == map[], [], []);
            var claimed := Claim(t, allowEmpty, NO_FAULT, NO_FAULT, NO_FAULT);
            claimed.attempt == Some(Attempt(m, true)) && Clean(claimed.tree, m)
  {
    var m := Marker(t == map[], [], []);
    var empty: Tree := map[[] := Dir];
    assert t != map[] ==> t.Keys == {[]};
    assert t == map[] ==> [] !in t;
    assert ClaimMarker(t, allowEmpty, NO_FAULT, NO_FAULT).0 == Some(m);
    NewMarkerIsClean(m);
    assert t[[] := Dir] == empty;
    hide Persist, Clean, ClaimMarker;
  }

  lemma NewMarkerIsClean(m: Marker)
    requires m.files == []
    ensures var kept := Persist(map[[] := Dir], m, true, NO_FAULT); kept.ok && Clean(kept.tree, m)
  {
    var t: Tree := map[[] := Dir];
    var t1 := t[[MARKER_DIR] := Dir];
    assert CreateDir(t, [MARKER_DIR], NO_FAULT) == Effect(t1, true);
    var t2 := t1[MARKER_PATH := File(Json(m))];
    assert Parent(MARKER_PATH) == [MARKER_DIR];
    assert WriteMarker(t1, m, NO_FAULT) == Effect(t2, true);
  }

  /** The last clean tree of a run can be claimed again as it is, and cleaned up after. */
  lemma CleanIsClaimable(t: Tree, m: Marker, allowEmpty: bool)
    requires Clean(t, m) && NothingDeclared(t, m)
    ensures Claim(t, allowEmpty, NO_FAULT, NO_FAULT, NO_FAULT) == Claimed(t, Some(Attempt(m, true)), None)
  {
    hide Verified, NothingDeclared, FilesInPlace, NothingElse, WellFormed;
    CleanIsVerified(t, m);
    PersistExactly(t, m, m);
    assert t[MARKER_PATH := File(Json(m))] == t;
    assert ReadMarker(t, NO_FAULT) == Some(m);
    hide Persist, Clean;
  }

  /**
    Ownership is complete. Claim a missing or an empty folder, then write and declare
    in any order, some of it refused: as long as nothing declared is really there,
    the whole folder is proven, the same root can be claimed again with the same
    manifest, and cleanup removes it if the run made it and leaves it if not.
   */
  lemma OwnershipIsComplete(t: Tree, allowEmpty: bool, acts: seq<Act>, again: bool, aside: seq<Tree>)
    requires t == map[] || (allowEmpty && t == map[[] := Dir])
    requires forall act | act in acts && act.Put? :: Ordinary(act.rel)
    ensures var claimed := Claim(t, allowEmpty, NO_FAULT, NO_FAULT, NO_FAULT);
            && claimed.attempt.Some?
            && var (t', m') := DoAll(claimed.tree, claimed.attempt.value.marker, acts);
               NothingDeclared(t', m') ==>
                 && Verified(t', m', NO_FAULT)
                 && Claim(t', again, NO_FAULT, NO_FAULT, NO_FAULT) == Claimed(t', Some(Attempt(m', true)), None)
                 && Cleanup(World(t', aside), Attempt(m', true), NO_FAULT, NO_FAULT)
                      == (if t == map[] then Cleaned(World(map[], aside), Removed) else Cleaned(World(t', aside), Retained))
  {
    NewClaimIsClean(t, allowEmpty);
    var claimed := Claim(t, allowEmpty, NO_FAULT, NO_FAULT, NO_FAULT);
    var m := claimed.attempt.value.marker;
    ActsKeepClean(claimed.tree, m, acts);
    var (t', m') := DoAll(claimed.tree, m, acts);
    assert [] in t' && t'[[]] == Dir;
    if NothingDeclared(t', m') {
      CleanIsVerified(t', m');
      CleanIsClaimable(t', m', again);
    }
    hide Clean, Claim, DoAll, Verified, NothingDeclared, Ordinary, Remains;
  }

  // ------------------------------------------------------------------------ a limit

  const NOTES: Path := ["notes.txt"]

  /** The folder after someone put a file into it and made the marker's path a link to that file. */
  function Relinked(text: string): Tree
  {
    map[[] := Dir, [MARKER_DIR] := Dir, MARKER_PATH := Link(Inside(NOTES)), NOTES := File(Raw(text))]
  }

  /** Claim an empty folder; someone relinks the marker; the run then declares a path. */
  function LosingSteps(text: string): seq<Step>
  {
    [Claims(true, NO_FAULT, NO_FAULT, NO_FAULT), Outside(World(Relinked(text), [])), Notes(["node_modules"], NO_FAULT)]
  }

  lemma RelinkedLeads(text: string)
    ensures WellFormed(Relinked(text)) && MarkerLeadsTo(Relinked(text), NOTES)
  {
    var t := Relinked(text);
    assert Parent(MARKER_PATH) == [MARKER_DIR] && Parent([MARKER_DIR]) == [] && Parent(NOTES) == [];
    assert NOTES != MARKER_PATH && NOTES != [MARKER_DIR] && MARKER_PATH != [MARKER_DIR];
    assert MARKER_PATH[1..] == [MARKER_FILE] && [MARKER_FILE][1..] == [] && NOTES[1..] == [];
    assert [] + [MARKER_DIR] == [MARKER_DIR] && [MARKER_DIR] + [MARKER_FILE] == MARKER_PATH && [] + NOTES == NOTES;
    assert NOTES + [] == NOTES && [] + [NOTES[0]] == NOTES;
    assert Resolve(t, NOTES, [], 39) == There(NOTES);
    assert Resolve(t, [], NOTES, 39) == There(NOTES);
    assert Resolve(t, [MARKER_DIR], [MARKER_FILE], MAX_LINKS) == There(NOTES);
  }

  /**
    Without the condition on links, the promise fails: in this run nobody else touches
    the file after it was put there, nothing records it, and it is overwritten.
   */
  lemma ForeignCanBeLost(text: string) returns (states: seq<System>)
    ensures var steps := LosingSteps(text);
            && Run(states, steps) && |states| == 4
            && AtRoot(states[2].world, NOTES, Raw(text)) && !MarkerArea(NOTES)
            && !RecordedBy(states[2].attempt, NOTES, Raw(text)) && WritesThrough(states[2], steps[2], NOTES)
            && !Kept(states[3].world, NOTES, Raw(text))
  {
    hide Persist, Clean, Resolve, WellFormed, Claim, MarkerLeadsTo, Relinked, Verified;
    var steps := LosingSteps(text);
    var empty: Tree := map[[] := Dir];
    var s0 := System(World(empty, []), None);
    var s1 := Apply(s0, steps[0]);
    var s2 := Apply(s1, steps[1]);
    var s3 := Apply(s2, steps[2]);
    states := [s0, s1, s2, s3];
    assert [] in empty && empty != map[];
    NewClaimIsClean(empty, true);
    RelinkedLeads(text);
    RelinkedHolds(text);
    assert WellFormed(empty) by {
      EmptyRootIsWellFormed();
    }
    var m := Marker(false, [], []);
    assert s1.attempt == Some(Attempt(m, true)) && s2.world == World(Relinked(text), []);
    var marker := m.(unrecorded := [At(["node_modules"])]);
    assert m.unrecorded + [At(["node_modules"])] == [At(["node_modules"])];
    assert ValidRel(["node_modules"]);
    PersistSparesIff(Relinked(text), marker, true, NO_FAULT, NOTES);
    assert s3.world == World(Persist(Relinked(text), marker, true, NO_FAULT).tree, []);
    assert s3.world.tree[NOTES] == File(Json(marker));
  }

  lemma EmptyRootIsWellFormed()
    ensures WellFormed(map[[] := Dir])
  {
  }

  lemma RelinkedHolds(text: string)
    ensures HasFile(Relinked(text), NOTES, Raw(text)) && NOTES != MARKER_PATH && !MarkerArea(NOTES)
  {
    assert NOTES[0] != MARKER_DIR;
  }
}
