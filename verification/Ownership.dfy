/**
  Creation ownership (src-tauri/src/creation_ownership.rs): claiming a project
  folder, writing into it, and cleaning up after an abort, each as a function of
  the folder's tree and of which filesystem calls fail, and the class whose
  methods compute them step by step.

  A tree maps the paths below the project root, as segment lists, to what is
  there; [] is the root itself. Paths are canonical. SHA-256 is taken to be
  injective, and a marker file holds either the marker it was written from or
  something else.
 */
module Ownership {
  import opened Wrappers

  type Name = string
  type Path = seq<Name>

  const MARKER_DIR: Name := ".litria"
  const MARKER_FILE: Name := "scaffold-attempt.json"
  const MARKER_PATH: Path := [MARKER_DIR, MARKER_FILE]

  datatype Content = Raw(text: string) | Json(marker: Marker)

  /** Injective: the digest of a content determines it, length included. */
  datatype Digest = Sha256(of: Content)

  datatype Record = Record(path: Path, digest: Digest)

  /** Declared subprocess output; `Everything` is the code's ".". */
  datatype Unrecorded = Everything | At(path: Path)

  datatype Marker = Marker(createdRoot: bool, files: seq<Record>, unrecorded: seq<Unrecorded>)

  /** Where a link leads once whatever lies outside the tree is followed: to a path of the tree, or out of it. */
  datatype Leads = Inside(path: Path) | Beyond

  datatype Node = File(content: Content) | Dir | Link(to: Leads)

  type Tree = map<Path, Node>

  /** The project root, and the trees that were moved aside and are still there. */
  datatype World = World(tree: Tree, aside: seq<Tree>)

  // -------------------------------------------------------------- filesystem calls

  datatype Call =
    | Inspect(path: Path)
    | MakeParents
    | MakeDir(path: Path)
    | ReadDir(path: Path)
    | Read(path: Path)
    | Remove(path: Path)
    | Open(path: Path)
    | Write(path: Path)
    | MoveAside
    | MoveBack
    | RemoveTree

  /** Which calls fail, what a write that fails leaves in the file, and what a failed removal leaves. */
  datatype Io = Io(fails: Call -> bool, torn: Content, survives: Path -> bool)

  const NO_FAULT: Io := Io((_: Call) => false, Raw(""), (_: Path) => false)

  function Parent(p: Path): Path
    requires p != []
  {
    p[..|p| - 1]
  }

  /** What is in a tree is in a directory of the tree. */
  predicate WellFormed(t: Tree)
  {
    forall p | p in t && p != [] :: Parent(p) in t && t[Parent(p)].Dir?
  }

  predicate Free(t: Tree, p: Path)
  {
    p !in t && (p == [] || (Parent(p) in t && t[Parent(p)].Dir?))
  }

  function Stat(t: Tree, p: Path, io: Io): Option<Node>
  {
    if p in t && !io.fails(Inspect(p)) then Some(t[p]) else None
  }

  /** The tree after a call, and whether it succeeded. */
  datatype Effect = Effect(tree: Tree, ok: bool)

  function CreateDir(t: Tree, p: Path, io: Io): Effect
  {
    if Free(t, p) && !io.fails(MakeDir(p)) then Effect(t[p := Dir], true) else Effect(t, false)
  }

  function Fill(t: Tree, p: Path, c: Content, io: Io): Effect
  {
    if io.fails(Write(p)) then Effect(t[p := File(io.torn)], false) else Effect(t[p := File(c)], true)
  }

  /** `create_new`, then `write_all`. */
  function CreateFile(t: Tree, p: Path, c: Content, io: Io): Effect
  {
    if Free(t, p) && !io.fails(Open(p)) then Fill(t, p, c, io) else Effect(t, false)
  }

  // --------------------------------------------------------------------- manifest

  predicate ValidName(name: Name)
  {
    name != "" && name != "." && name != ".." && '/' !in name && '\\' !in name
  }

  predicate ValidRel(rel: Path)
  {
    rel != [] && forall i | 0 <= i < |rel| :: ValidName(rel[i])
  }

  function FindRecord(files: seq<Record>, rel: Path): (r: Option<Record>)
    ensures r.Some? ==> r.value in files && r.value.path == rel
    ensures r.None? ==> forall record | record in files :: record.path != rel
  {
    if files == [] then None
    else if files[0].path == rel then Some(files[0])
    else FindRecord(files[1..], rel)
  }

  /** The manifest proves that this content is the run's own output. */
  predicate Recorded(m: Marker, rel: Path, c: Content)
  {
    FindRecord(m.files, rel) == Some(Record(rel, Sha256(c)))
  }

  function WithRecord(files: seq<Record>, record: Record): (r: seq<Record>)
    ensures FindRecord(r, record.path) == Some(record)
    ensures forall rel | rel != record.path :: FindRecord(r, rel) == FindRecord(files, rel)
    ensures forall other | other in r :: other == record || other in files
    ensures forall other | other in files && other.path != record.path :: other in r
  {
    if files == [] then [record]
    else if files[0].path == record.path then [record] + files[1..]
    else [files[0]] + WithRecord(files[1..], record)
  }

  predicate StrictlyBelow(dir: Path, p: Path)
  {
    |dir| < |p| && p[..|dir|] == dir
  }

  predicate InMarkerDir(rel: Path)
  {
    StrictlyBelow([MARKER_DIR], rel)
  }

  /** At or below the marker's own path. */
  predicate MarkerArea(rel: Path)
  {
    rel == MARKER_PATH || StrictlyBelow(MARKER_PATH, rel)
  }

  predicate Declared(m: Marker, rel: Path)
  {
    Everything in m.unrecorded || At(rel) in m.unrecorded
  }

  /** What `verify_dir` wants of one entry. */
  predicate Proven(t: Tree, m: Marker, rel: Path)
    requires rel in t
  {
    !Declared(m, rel) &&
    match t[rel]
    case Link(_) => false
    case Dir => rel == [MARKER_DIR] || exists r | r in m.files :: StrictlyBelow(rel, r.path)
    case File(c) => Recorded(m, rel, c)
  }

  predicate Readable(t: Tree, rel: Path, io: Io)
    requires rel in t
  {
    && !io.fails(Inspect(rel))
    && (t[rel].Dir? ==> !io.fails(ReadDir(rel)))
    && (t[rel].File? ==> !io.fails(Read(rel)))
  }

  /** An entry passes: inside the marker directory only names are looked at, and only one level deep. */
  predicate Passes(t: Tree, m: Marker, rel: Path, io: Io)
    requires rel in t
  {
    if InMarkerDir(rel) then |rel| == 2 ==> rel[1] == MARKER_FILE
    else Readable(t, rel, io) && Proven(t, m, rel)
  }

  /** `verify_tree`: every entry passes. */
  predicate Verified(t: Tree, m: Marker, io: Io)
  {
    && [] in t && t[[]].Dir? && !io.fails(ReadDir([]))
    && forall rel | rel in t && rel != [] :: Passes(t, m, rel, io)
  }

  // ------------------------------------------------------------------- operations

  /** How many links one call follows. */
  const MAX_LINKS: nat := 40

  datatype Reached = There(path: Path) | Away | TooManyLinks

  /** The path that a call ends up at which follows links: `done` is walked, `rest` is to come. */
  function Resolve(t: Tree, done: Path, rest: Path, links: nat): Reached
    decreases links, |rest|
  {
    if rest == [] then There(done)
    else
      var next := done + [rest[0]];
      if next in t && t[next].Link? then
        if links == 0 then TooManyLinks
        else
          match t[next].to
          case Beyond => Away
          case Inside(q) => Resolve(t, [], q + rest[1..], links - 1)
      else Resolve(t, next, rest[1..], links)
  }

  /** Writing to a path that is there, without `create`: the call follows links, and truncates what it opens. */
  function Overwrite(t: Tree, p: Path, c: Content, io: Io): Effect
  {
    if io.fails(Open(p)) then Effect(t, false)
    else
      match Resolve(t, [], p, MAX_LINKS)
      case There(q) => if q in t && t[q].File? then Fill(t, q, c, io) else Effect(t, false)
      case Away => Effect(t, !io.fails(Write(p)))
      case TooManyLinks => Effect(t, false)
  }

  function WriteMarker(t: Tree, m: Marker, io: Io): Effect
  {
    match Stat(t, MARKER_PATH, io)
    case None => CreateFile(t, MARKER_PATH, Json(m), io)
    case Some(_) => Overwrite(t, MARKER_PATH, Json(m), io)
  }

  /** `persist_marker`. */
  function Persist(t: Tree, m: Marker, onDisk: bool, io: Io): Effect
  {
    if !onDisk then Effect(t, true)
    else if Stat(t, [MARKER_DIR], io).Some? && t[[MARKER_DIR]].Link? then Effect(t, false)
    else
      var made := if Stat(t, [MARKER_DIR], io).Some? then Effect(t, true) else CreateDir(t, [MARKER_DIR], io);
      if made.ok then WriteMarker(made.tree, m, io) else made
  }

  /** The directories above `rel`, from the `i`th on: missing ones are made, links and files refused. */
  function MakeAncestors(t: Tree, rel: Path, i: nat, io: Io): Effect
    decreases |rel| - i
  {
    if i >= |rel| then Effect(t, true)
    else
      match Stat(t, rel[..i], io)
      case Some(Dir) => MakeAncestors(t, rel, i + 1, io)
      case Some(_) => Effect(t, false)
      case None =>
        var made := CreateDir(t, rel[..i], io);
        if made.ok then MakeAncestors(made.tree, rel, i + 1, io) else made
  }

  /** Clears the way for a new file: only the run's own unchanged output is removed. */
  function ClearTarget(t: Tree, m: Marker, rel: Path, io: Io): Effect
  {
    match Stat(t, rel, io)
    case None => Effect(t, true)
    case Some(File(c)) =>
      if Recorded(m, rel, c) && !io.fails(Read(rel)) && !io.fails(Remove(rel)) then Effect(t - {rel}, true)
      else Effect(t, false)
    case Some(_) => Effect(t, false)
  }

  /** One attempt over the root: its manifest, and whether that is kept on disk. */
  datatype Attempt = Attempt(marker: Marker, onDisk: bool)

  datatype Wrote = Wrote(tree: Tree, marker: Marker, ok: bool)

  /** The part of `write_file` that writes the file: the directories above it, a clear way, then the file. */
  function PutFile(t: Tree, m: Marker, rel: Path, contents: Content, io: Io): Effect
  {
    var ready := MakeAncestors(t, rel, 1, io);
    if !ready.ok then ready
    else
      var clear := ClearTarget(ready.tree, m, rel, io);
      if !clear.ok then clear else CreateFile(clear.tree, rel, contents, io)
  }

  /** `write_file`; `ioMarker` are the calls that write the marker at its end. */
  function WriteFile(t: Tree, a: Attempt, rel: Path, contents: Content, io: Io, ioMarker: Io): Wrote
  {
    if !ValidRel(rel) then Wrote(t, a.marker, false)
    else
      var put := PutFile(t, a.marker, rel, contents, io);
      if !put.ok then Wrote(put.tree, a.marker, false)
      else
        var marker := a.marker.(files := WithRecord(a.marker.files, Record(rel, Sha256(contents))));
        var kept := Persist(put.tree, marker, a.onDisk, ioMarker);
        Wrote(kept.tree, marker, kept.ok)
  }

  /** `note_unrecorded`. */
  function Note(t: Tree, a: Attempt, rel: Path, io: Io): Wrote
  {
    if !ValidRel(rel) then Wrote(t, a.marker, false)
    else if At(rel) in a.marker.unrecorded then Wrote(t, a.marker, true)
    else
      var marker := a.marker.(unrecorded := a.marker.unrecorded + [At(rel)]);
      var kept := Persist(t, marker, a.onDisk, io);
      Wrote(kept.tree, marker, kept.ok)
  }

  datatype ClaimError = IsLink | NotDir | Unverified | NotEmpty | MakeFailed | MarkerFailed

  datatype Claimed = Claimed(tree: Tree, attempt: Option<Attempt>, error: Option<ClaimError>)

  /** `read_marker`. */
  function ReadMarker(t: Tree, io: Io): Option<Marker>
  {
    match Stat(t, MARKER_PATH, io)
    case Some(File(Json(m))) => if io.fails(Read(MARKER_PATH)) then None else Some(m)
    case _ => None
  }

  /** The manifest that a claim of this tree starts from, or why there is none. */
  function ClaimMarker(t: Tree, allowEmpty: bool, io: Io, ioVerify: Io): (r: (Option<Marker>, ClaimError))
  {
    match Stat(t, [], io)
    case Some(Link(_)) => (None, IsLink)
    case Some(File(_)) => (None, NotDir)
    case Some(Dir) =>
      (match ReadMarker(t, io)
       case Some(previous) => if Verified(t, previous, ioVerify) then (Some(previous), Unverified) else (None, Unverified)
       case None =>
         if allowEmpty && !io.fails(ReadDir([])) && t.Keys == {[]} then (Some(Marker(false, [], [])), NotEmpty)
         else (None, NotEmpty))
    case None =>
      if io.fails(MakeParents) || !CreateDir(t, [], io).ok then (None, MakeFailed)
      else (Some(Marker(true, [], [])), MakeFailed)
  }

  /** `claim_root`. */
  function Claim(t: Tree, allowEmpty: bool, io: Io, ioVerify: Io, ioMarker: Io): Claimed
  {
    var (found, error) := ClaimMarker(t, allowEmpty, io, ioVerify);
    match found
    case None => Claimed(t, None, Some(error))
    case Some(m) =>
      var made := if Stat(t, [], io).Some? then t else t[[] := Dir];
      var kept := Persist(made, m, true, ioMarker);
      if kept.ok then Claimed(kept.tree, Some(Attempt(m, true)), None)
      else Claimed(kept.tree, None, Some(MarkerFailed))
  }

  /** `external`: a create CLI makes the folder, and nothing it writes can be proven. */
  const EXTERNAL: Attempt := Attempt(Marker(true, [], [Everything]), false)

  datatype Outcome = Removed | Retained

  datatype Cleaned = Cleaned(world: World, outcome: Outcome)

  /** What a removal that fails leaves: some entries, with the directories above them. */
  function Remains(t: Tree, io: Io): Tree
  {
    map p | p in t && (exists q | q in t :: io.survives(q) && (p == q || StrictlyBelow(p, q))) :: t[p]
  }

  /** `cleanup_after_abort`; `ioVerify` are the calls of the verification. */
  function Cleanup(w: World, a: Attempt, io: Io, ioVerify: Io): Cleaned
  {
    match Stat(w.tree, [], io)
    case None => Cleaned(w, Removed)
    case Some(Link(_)) => Cleaned(w, Retained)
    case Some(_) =>
      if !a.marker.createdRoot || io.fails(MoveAside) then Cleaned(w, Retained)
      else if !Verified(w.tree, a.marker, ioVerify) then
        if io.fails(MoveBack) then Cleaned(World(map[], w.aside + [w.tree]), Retained) else Cleaned(w, Retained)
      else if io.fails(RemoveTree) then Cleaned(World(map[], w.aside + [Remains(w.tree, io)]), Retained)
      else Cleaned(World(map[], w.aside), Removed)
  }
}
