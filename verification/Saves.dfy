/** Conditional saves (src-tauri/src/project_ops.rs), and what the turns of a write, a create or a save mean. */
module Saves {
  import opened Wrappers
  import opened Writes

  /** `stamped`: the saved file's stamp is given. */
  datatype Outcome = Saved(revision: string, stamped: bool) | Changed(disk: Read) | CannotRead | CannotWrite(cause: Cause)

  /** Reading this name gives this text: a file holds it, or a link leads to one that does. */
  predicate Shows(d: Directory, name: Name, text: string)
  {
    name in d && (d[name].File? || (d[name].Link? && d[name].through.ToFile?)) &&
    text == if d[name].File? then d[name].text else d[name].through.text
  }

  predicate ShowsNothing(d: Directory, name: Name)
  {
    name !in d || d[name] == Link(Nowhere)
  }

  predicate LeadsToFolder(d: Directory, name: Name)
  {
    name in d && (d[name] == Folder || d[name] == Link(ToFolder))
  }

  /** What a read gives, by what the name stands for. */
  lemma SeenIff(d: Directory, name: Name)
    ensures forall text :: Seen(d, name) == Found(text) <==> Shows(d, name, text)
    ensures Seen(d, name) == Missing <==> ShowsNothing(d, name)
    ensures Seen(d, name) == Unreadable <==> LeadsToFolder(d, name)
    ensures IsFolder(d, name) <==> LeadsToFolder(d, name)
    ensures IsFile(d, name) <==> exists text :: Shows(d, name, text)
  {
    if Seen(d, name).Found? {
      assert Shows(d, name, Seen(d, name).text);
    }
  }

  /** The version that a save was based on: this very text, or no file at all. */
  predicate BaseThere(d: Directory, name: Name, base: Base)
  {
    match base
    case Text(text) => Shows(d, name, text)
    case Absent => ShowsNothing(d, name)
  }

  lemma HoldsIff(d: Directory, name: Name, base: Base)
    ensures Holds(base, Seen(d, name)) <==> BaseThere(d, name, base)
  {
    SeenIff(d, name);
  }

  /**
    The turns of a save that replaced its target: the base was there at the first
    call, and again at the check four calls before the end; then came the look for
    a folder, the rename, and the directory's fsync.
   */
  predicate SavedBy(turns: seq<Turn>, temp: Name, target: Name, base: Base, contents: string)
  {
    && |turns| >= 5
    && Holds(base, Seen(turns[0].before, target)) && Still(turns[0])
    && PutInPlace(turns, 0, temp, target, contents)
    && Holds(base, Seen(turns[|turns| - 4].before, target)) && Still(turns[|turns| - 4])
    && Still(turns[|turns| - 3])
  }

  /**
    `stamp_of`, kept only if the target then still holds what was saved; a stamp taken
    first and a content read after it are those of one file unless another write came
    between them.
   */
  method Stamp(op: Operation, contents: string) returns (stamped: bool)
    requires op.Valid()
    modifies op`entries, op`turns, op`faults
    ensures op.Valid() && old(op.turns) < op.turns && Untouched(op.turns, |old(op.turns)|, |op.turns|, op.temp)
    ensures SameAt(old(op.entries), op.entries, op.temp)
    ensures var n := |old(op.turns)|;
            if stamped then
              && |op.turns| == n + 2 && IsFile(op.turns[n].before, op.target)
              && Seen(op.turns[n + 1].before, op.target) == Found(contents)
            else
              || op.faults > old(op.faults) || !IsFile(op.turns[n].before, op.target)
              || (|op.turns| == n + 2 && Seen(op.turns[n + 1].before, op.target) != Found(contents))
  {
    var looked := op.Look();
    if !looked || !IsFile(op.entries, op.target) {
      return false;
    }
    var current := op.CurrentRevision();
    stamped := current == Found(contents);
  }

  /**
    `save_project_file_with`. A revision stands for the content it was taken of. `k` is
    the turn at which a change was seen, or how many turns a save took before its stamp.
   */
  method SaveProjectFile(op: Operation, contents: string, base: Base) returns (outcome: Outcome, ghost k: nat)
    requires op.Valid() && op.turns == [] && op.temp !in op.entries
    modifies op
    ensures op.Valid()
    ensures outcome == CannotWrite(NotSynced) ==> SavedBy(op.turns, op.temp, op.target, base, contents)
    ensures outcome.Saved? ==>
              && k < |op.turns| && SavedBy(op.turns[..k], op.temp, op.target, base, contents)
              && Untouched(op.turns, k, |op.turns|, op.temp) && outcome.revision == contents
              && (outcome.stamped ==> IsFile(op.turns[k].before, op.target)
                                      && Seen(Last(op.turns).before, op.target) == Found(contents))
              && (!outcome.stamped ==> || op.faults > old(op.faults) || !IsFile(op.turns[k].before, op.target)
                                       || Seen(Last(op.turns).before, op.target) != Found(contents))
    ensures !(outcome.Saved? || outcome == CannotWrite(NotSynced)) ==> Untouched(op.turns, 0, |op.turns|, op.temp)
    ensures outcome.Changed? ==> Checked(op.turns, 0, k, op.target, outcome.disk) && !Holds(base, outcome.disk)
    ensures outcome.Changed? && base.Text? ==> outcome.disk != Found(base.text)
    ensures outcome.Changed? && base.Absent? ==> outcome.disk != Missing
    ensures outcome.CannotRead? ==>
              op.faults > old(op.faults) || (|op.turns| == 1 && Seen(op.turns[0].before, op.target).Unreadable?)
    ensures outcome.CannotWrite? ==>
              || op.faults > old(op.faults)
              || (outcome.cause.CheckFailed? && Checked(op.turns, 0, k, op.target, Unreadable))
              || (outcome.cause.NotReplaced? && op.turns != [] && LeadsToFolder(Last(op.turns).before, op.target))
    ensures outcome == CannotWrite(NotReplaced) ==> At(op.entries, op.temp) == Some(File(contents, true))
    ensures outcome != CannotWrite(NotReplaced) && op.leftovers == old(op.leftovers) ==> op.temp !in op.entries
  {
    k := 0;
    var current := op.CurrentRevision();
    if current.Unreadable? {
      return CannotRead, k;
    }
    if !Holds(base, current) {
      return Changed(current), k;
    }
    var result, seen, check := op.AtomicWrite(contents, Some(base));
    k := check;
    match result
    case Done =>
      ghost var saved := op.turns;
      var stamped := Stamp(op, contents);
      assert op.turns[..|saved|] == saved;
      k := |saved|;
      outcome := Saved(contents, stamped);
    case Refused => outcome := Changed(seen);
    case Failed(cause) => outcome := CannotWrite(cause);
  }

  // ------------------------------------------------------------ what the turns mean

  /** What the operation does not touch is as the others leave it. */
  lemma {:induction false} UntouchedStays(turns: seq<Turn>, temp: Name, name: Name, i: nat, j: nat)
    requires i <= j < |turns| && name != temp
    requires Untouched(turns, i, j, temp) && LeftAlone(turns, name, i, j)
    ensures At(turns[j].before, name) == At(turns[i].before, name)
  {
    if i < j {
      UntouchedStays(turns, temp, name, i, j - 1);
      OnlyTempKeeps(turns[j - 1], temp, name);
      assert SameAt(turns[j - 1].after, turns[j].before, name);
    }
  }

  lemma OnlyTempKeeps(turn: Turn, temp: Name, name: Name)
    requires OnlyTemp(turn, temp) && name != temp
    ensures SameAt(turn.before, turn.after, name)
  {
    assert name in turn.before <==> name in turn.before - {temp};
    assert name in turn.after <==> name in turn.after - {temp};
    assert name in turn.before ==> turn.before[name] == (turn.before - {temp})[name];
    assert name in turn.after ==> turn.after[name] == (turn.after - {temp})[name];
  }

  /**
    Crash atomicity. However a write that replaces its target is cut off, the target
    is the old entry up to the rename and the whole new content from it on.
   */
  lemma CrashLeavesOldOrNew(turns: seq<Turn>, temp: Name, target: Name, text: string, i: nat)
    requires temp != target && PutInPlace(turns, 0, temp, target, text) && LeftAlone(turns, target, 0, |turns|)
    requires i < |turns|
    ensures var previous, whole := At(turns[0].before, target), Some(File(text, true));
            && At(turns[i].before, target) == (if i <= |turns| - 2 then previous else whole)
            && At(turns[i].after, target) == (if i < |turns| - 2 then previous else whole)
  {
    var n := |turns| - 2;
    if i <= n {
      UntouchedStays(turns, temp, target, 0, i);
      if i < n {
        OnlyTempKeeps(turns[i], temp, target);
      }
    } else {
      assert SameAt(turns[n].after, turns[n + 1].before, target);
    }
  }

  /** With others at work too: no call but one ever changes the target, and that one puts the whole content there. */
  lemma EveryTurnLeavesItWhole(turns: seq<Turn>, temp: Name, target: Name, text: string, i: nat)
    requires temp != target && PutInPlace(turns, 0, temp, target, text) && i < |turns|
    ensures SameAt(turns[i].before, turns[i].after, target) || At(turns[i].after, target) == Some(File(text, true))
    ensures forall name | name != temp && name != target :: SameAt(turns[i].before, turns[i].after, name)
  {
    if i < |turns| - 2 {
      OnlyTempKeeps(turns[i], temp, target);
    }
    forall name | name != temp && name != target
      ensures SameAt(turns[i].before, turns[i].after, name)
    {
      if i < |turns| - 2 {
        OnlyTempKeeps(turns[i], temp, name);
      }
    }
  }

  /**
    What a save replaced: exactly its base, unless another process changed the
    target in the two gaps between the last check and the rename.
   */
  lemma SaveReplacesItsBase(turns: seq<Turn>, temp: Name, target: Name, base: Base, contents: string)
    requires temp != target && SavedBy(turns, temp, target, base, contents)
    ensures BaseThere(turns[0].before, target, base) && BaseThere(turns[|turns| - 4].before, target, base)
    ensures var n := |turns| - 4;
            LeftAlone(turns, target, n, n + 2) ==> BaseThere(turns[n + 2].before, target, base)
    ensures !BaseThere(turns[|turns| - 2].before, target, base) ==> !LeftAlone(turns, target, |turns| - 4, |turns| - 2)
  {
    var n := |turns| - 4;
    HoldsIff(turns[0].before, target, base);
    HoldsIff(turns[n].before, target, base);
    HoldsIff(turns[n + 2].before, target, base);
    hide BaseThere;
    if LeftAlone(turns, target, n, n + 2) {
      UntouchedStays(turns, temp, target, n, n + 2);
    }
  }

  /**
    What the old entry was is lost only through the save's own rename, and only when
    it held the base: nothing newer that was there at the last check is overwritten.
   */
  lemma NewerIsNeverOverwritten(turns: seq<Turn>, temp: Name, target: Name, base: Base, contents: string, k: nat)
    requires temp != target && SavedBy(turns, temp, target, base, contents)
    requires k <= |turns| - 4 && LeftAlone(turns, target, k, |turns| - 2)
    ensures BaseThere(turns[k].before, target, base)
  {
    HoldsIff(turns[k].before, target, base);
    UntouchedStays(turns, temp, target, k, |turns| - 4);
  }

  /** A call that changes its target only when nothing has the name. */
  predicate NeverReplaces(turn: Turn, target: Name)
  {
    target in turn.before ==> SameAt(turn.before, turn.after, target)
  }

  /** A create never alters what has the name, whoever put it there and whenever. */
  lemma CreateNeverReplaces(turns: seq<Turn>, k: nat, temp: Name, target: Name, text: string, i: nat)
    requires temp != target && GivenName(turns, 0, k, temp, target, text) && i < |turns|
    ensures NeverReplaces(turns[i], target)
    ensures target !in turns[k].before && At(turns[k].after, target) == Some(File(text, true))
  {
    if i != k {
      OnlyTempKeeps(turns[i], temp, target);
    }
    assert target in turns[k].after - {temp};
  }

  /** An entry that has the name stays as long as the others let it. */
  lemma {:induction false} EntryStays(turns: seq<Turn>, target: Name, e: Entry, i: nat, j: nat)
    requires i <= j < |turns| && At(turns[i].before, target) == Some(e)
    requires forall m | i <= m < j :: NeverReplaces(turns[m], target)
    requires LeftAlone(turns, target, i, j)
    ensures At(turns[j].before, target) == Some(e)
  {
    if i < j {
      EntryStays(turns, target, e, i, j - 1);
      assert SameAt(turns[j - 1].after, turns[j].before, target);
    }
  }

  /** However a create is cut off, it leaves no file of its own or the whole one. */
  lemma CreateIsWholeOrNothing(turns: seq<Turn>, k: nat, temp: Name, target: Name, text: string, i: nat)
    requires temp != target && GivenName(turns, 0, k, temp, target, text) && i < |turns|
    requires LeftAlone(turns, target, 0, |turns|)
    ensures At(turns[i].after, target) == if i < k then None else Some(File(text, true))
  {
    UntouchedStays(turns, temp, target, 0, k);
    CreateNeverReplaces(turns, k, temp, target, text, k);
    if i < k {
      UntouchedStays(turns, temp, target, 0, i);
      OnlyTempKeeps(turns[i], temp, target);
    } else if k < i {
      assert SameAt(turns[k].after, turns[k + 1].before, target);
      UntouchedStays(turns, temp, target, k + 1, i);
      OnlyTempKeeps(turns[i], temp, target);
    }
  }

  // ------------------------------------------------------------ a create in place

  /** While a create works in place no call of it alters an entry that was there first, or that others put there since. */
  lemma InPlaceNeverReplaces(turns: seq<Turn>, k: nat, done: nat, lost: nat, temp: Name, target: Name, i: nat)
    requires temp != target && Filled(turns, 0, k, done, lost, temp, target) && i < done
    ensures i <= k ==> NeverReplaces(turns[i], target)
    ensures lost <= i ==> Still(turns[i])
  {
    if i < k {
      OnlyTempKeeps(turns[i], temp, target);
    } else if k < i {
      assert ByHandle(turns[i], target, i < lost);
    }
  }

  lemma InPlaceStands(turns: seq<Turn>, k: nat, done: nat, lost: nat, temp: Name, target: Name, i: nat)
    requires temp != target && Filled(turns, 0, k, done, lost, temp, target) && k <= i < done <= lost
    ensures HasFile(turns[i].after, target)
  {
    if i > k {
      assert ByHandle(turns[i], target, i < lost);
    }
  }

  /** Unlike with a commit, a crash can leave a part of the file; undisturbed, it is whole once the writing is over. */
  lemma InPlaceIsWholeAfterwards(turns: seq<Turn>, k: nat, done: nat, lost: nat, temp: Name, target: Name, text: string, i: nat)
    requires temp != target && MadeInPlace(turns, 0, k, done, lost, temp, target, text) && i < |turns| && done <= lost
    requires LeftAlone(turns, target, 0, |turns|)
    ensures if i < k then At(turns[i].after, target) == None
            else if i < done - 1 then HasFile(turns[i].after, target)
            else At(turns[i].after, target) == Some(File(text, true))
  {
    if i < k {
      UntouchedStays(turns, temp, target, i, k);
      OnlyTempKeeps(turns[i], temp, target);
      assert SameAt(turns[i].after, turns[i + 1].before, target);
      UntouchedStays(turns, temp, target, i + 1, k);
    } else if i < done {
      InPlaceStands(turns, k, done, lost, temp, target, i);
    } else {
      assert SameAt(turns[done - 1].after, turns[done].before, target);
      UntouchedStays(turns, temp, target, done, i);
      OnlyTempKeeps(turns[i], temp, target);
    }
  }

  /**
    A create in place that fails removes what has its name, its own half-written file or not:
    what others put there is lost exactly if they took the name over before that and the
    removal succeeds.
   */
  lemma WithdrawalTakesTheirsIff(turns: seq<Turn>, k: nat, done: nat, lost: nat, temp: Name, target: Name, i: nat)
    requires temp != target && Withdrawn(turns, 0, k, done, lost, temp, target)
    requires lost <= i < |turns| && target in turns[i].before
    ensures !SameAt(turns[i].before, turns[i].after, target) <==> i == done && turns[done].after != turns[done].before
  {
    if i < done {
      InPlaceNeverReplaces(turns, k, done, lost, temp, target, i);
    } else if i > done {
      OnlyTempKeeps(turns[i], temp, target);
    }
  }

  /** So a file of another process can go: it replaced the half-written one before the write failed. */
  lemma WithdrawalCanTakeTheirs()
    ensures var mine, theirs := map["a" := File("", false)], map["a" := File("theirs", true)];
            var turns := [Turn(map[], mine), Turn(theirs, theirs), Turn(theirs, map[])];
            Withdrawn(turns, 0, 0, 2, 1, "t", "a") && At(turns[2].before, "a") == Some(File("theirs", true)) && "a" !in turns[2].after
  {
    var mine: Directory, theirs: Directory := map["a" := File("", false)], map["a" := File("theirs", true)];
    var none: Directory := map[];
    var turns := [Turn(none, mine), Turn(theirs, theirs), Turn(theirs, none)];
    assert mine == none["a" := File("", false)];
    assert theirs - {"a"} == none;
    assert turns[0] == Turn(none, mine) && turns[1] == Turn(theirs, theirs) && turns[2] == Turn(theirs, none);
  }
}
