/**
  Atomic writes and creates (src-tauri/src/write_ops.rs), as calls on one
  directory that other processes change at the same time.

  Every call of the operation is one turn. Before a turn the other processes may
  do anything to the directory, except to the operation's own temporary name,
  which carries the process id, a time and a counter. Any call may fail. A crash
  is the end of the turns at any point, so a claim about every turn is a claim
  about every crash.
 */
module Writes {
  import opened Wrappers

  type Name = string

  /** Where a link leads at this moment. */
  datatype Through = Nowhere | ToFolder | ToFile(text: string)

  /** `durable`: its content was fsynced. */
  datatype Entry = File(text: string, durable: bool) | Folder | Link(through: Through)

  type Directory = map<Name, Entry>

  /** The directory as one call found it, and as it left it. */
  datatype Turn = Turn(before: Directory, after: Directory)

  function At(d: Directory, name: Name): Option<Entry>
  {
    if name in d then Some(d[name]) else None
  }

  predicate SameAt(d: Directory, d': Directory, name: Name)
  {
    At(d, name) == At(d', name)
  }

  /** A call that changed nothing but the temporary name. */
  predicate OnlyTemp(turn: Turn, temp: Name)
  {
    turn.before - {temp} == turn.after - {temp}
  }

  predicate Still(turn: Turn)
  {
    turn.before == turn.after
  }

  /** None of these calls touched anything but the temporary name. */
  predicate Untouched(turns: seq<Turn>, from: nat, to: nat, temp: Name)
  {
    forall i | from <= i < to && i < |turns| :: OnlyTemp(turns[i], temp)
  }

  /** The one call that puts the whole, durable content at its target. */
  predicate Renames(turn: Turn, temp: Name, target: Name, text: string)
  {
    && At(turn.before, temp) == Some(File(text, true))
    && turn.after == (turn.before - {temp})[target := File(text, true)]
  }

  /** The one call that gives the content a name that nothing had. */
  predicate Commits(turn: Turn, temp: Name, target: Name, text: string)
  {
    && target !in turn.before
    && At(turn.before, temp) == Some(File(text, true))
    && turn.after - {temp} == (turn.before - {temp})[target := File(text, true)]
  }

  /** Between calls the temporary name is left alone. */
  predicate Chained(turns: seq<Turn>, temp: Name)
  {
    forall i | 0 < i < |turns| :: SameAt(turns[i - 1].after, turns[i].before, temp)
  }

  /** From turn `i` to turn `j`, other processes leave this name alone. */
  predicate LeftAlone(turns: seq<Turn>, name: Name, i: nat, j: nat)
  {
    forall k | i < k <= j && k < |turns| :: SameAt(turns[k - 1].after, turns[k].before, name)
  }

  lemma LeftAloneBefore(turns: seq<Turn>, more: seq<Turn>, name: Name, k: nat)
    requires turns <= more && |more| == |turns| + 1 && k < |turns|
    ensures LeftAlone(more, name, k, |more| - 1) ==>
              LeftAlone(turns, name, k, |turns| - 1) && SameAt(turns[|turns| - 1].after, more[|turns|].before, name)
  {
    if LeftAlone(more, name, k, |more| - 1) {
      forall j | k < j <= |turns| - 1
        ensures SameAt(turns[j - 1].after, turns[j].before, name)
      {
        assert SameAt(more[j - 1].after, more[j].before, name);
      }
    }
  }

  /** One more call on the temporary name alone, before or after. */
  lemma FilledBetween(turns: seq<Turn>, more: seq<Turn>, from: nat, k: nat, done: nat, lost: nat, temp: Name, target: Name)
    requires from > 0 && Filled(turns, from, k, done, lost, temp, target)
    requires turns <= more && |more| <= |turns| + 1 && (|more| > |turns| ==> OnlyTemp(more[|turns|], temp)) && OnlyTemp(turns[from - 1], temp)
    ensures Filled(more, from - 1, k, done, lost, temp, target)
  {
  }

  lemma MadeBetween(turns: seq<Turn>, more: seq<Turn>, from: nat, k: nat, done: nat, lost: nat, temp: Name, target: Name, text: string)
    requires from > 0 && MadeInPlace(turns, from, k, done, lost, temp, target, text)
    requires turns <= more && |more| == |turns| + 1 && OnlyTemp(more[|turns|], temp) && OnlyTemp(turns[from - 1], temp)
    ensures MadeInPlace(more, from - 1, k, done, lost, temp, target, text)
  {
    hide Claims, ByHandle;
    FilledBetween(turns, more, from, k, done, lost, temp, target);
    if done <= lost && LeftAlone(more, target, k, done - 1) {
      forall j | k < j <= done - 1
        ensures SameAt(turns[j - 1].after, turns[j].before, target)
      {
        assert SameAt(more[j - 1].after, more[j].before, target);
      }
      assert LeftAlone(turns, target, k, done - 1);
    }
  }

  lemma WithdrawnBetween(turns: seq<Turn>, more: seq<Turn>, from: nat, k: nat, done: nat, lost: nat, temp: Name, target: Name)
    requires from > 0 && Withdrawn(turns, from, k, done, lost, temp, target)
    requires turns <= more && |more| == |turns| + 1 && OnlyTemp(more[|turns|], temp) && OnlyTemp(turns[from - 1], temp)
    ensures Withdrawn(more, from - 1, k, done, lost, temp, target)
  {
    hide Claims, ByHandle, RemovesName;
    FilledBetween(turns, more, from, k, done, lost, temp, target);
  }

  // -------------------------------------------------------- what a reader sees

  datatype Read = Found(text: string) | Missing | Unreadable

  /** `fs::read`, which follows links. */
  function Seen(d: Directory, name: Name): Read
  {
    match At(d, name)
    case None => Missing
    case Some(File(text, _)) => Found(text)
    case Some(Folder) => Unreadable
    case Some(Link(ToFile(text))) => Found(text)
    case Some(Link(ToFolder)) => Unreadable
    case Some(Link(Nowhere)) => Missing
  }

  /** `Path::is_dir`, which follows links. */
  predicate IsFolder(d: Directory, name: Name)
  {
    At(d, name) == Some(Folder) || At(d, name) == Some(Link(ToFolder))
  }

  /** `Metadata::is_file`, of what links lead to. */
  predicate IsFile(d: Directory, name: Name)
  {
    Seen(d, name).Found?
  }

  /** `SaveBase` (project_ops.rs). */
  datatype Base = Text(text: string) | Absent

  /** `holds`; a revision is an injective hash of the content it was taken of. */
  predicate Holds(base: Base, current: Read)
  {
    match base
    case Text(text) => current == Found(text)
    case Absent => current == Missing
  }

  datatype Cause = NoDirectory | NotPrepared | CheckFailed | NotReplaced | NotSynced

  datatype Replaced = Done | Refused | Failed(cause: Cause)

  datatype Created = Fresh | Exists | NotCreated | Unsupported

  predicate Adds(turns: seq<Turn>, turns': seq<Turn>)
  {
    |turns'| == |turns| + 1 && turns <= turns'
  }

  function Last(turns: seq<Turn>): Turn
    requires turns != []
  {
    turns[|turns| - 1]
  }

  /** What the last check makes of what it read. */
  function Verdict(base: Base, seen: Read): Replaced
  {
    if seen.Unreadable? then Failed(CheckFailed) else if Holds(base, seen) then Done else Refused
  }

  /** The `check`th call read the target, and this is what it saw. */
  predicate Checked(turns: seq<Turn>, from: nat, check: nat, target: Name, seen: Read)
  {
    from <= check < |turns| && Still(turns[check]) && seen == Seen(turns[check].before, target)
  }

  /** The calls since the `from`th ended by putting the content in place, and a directory fsync. */
  predicate PutInPlace(turns: seq<Turn>, from: nat, temp: Name, target: Name, text: string)
  {
    && |turns| >= from + 2
    && Untouched(turns, from, |turns| - 2, temp)
    && Renames(turns[|turns| - 2], temp, target, text)
    && Still(turns[|turns| - 1])
  }

  /** The calls since the `from`th gave the content its name, then dropped the temporary one. */
  predicate GivenName(turns: seq<Turn>, from: nat, k: nat, temp: Name, target: Name, text: string)
  {
    && from <= k < |turns|
    && Untouched(turns, from, k, temp)
    && Commits(turns[k], temp, target, text)
    && Untouched(turns, k + 1, |turns|, temp)
  }

  /** The call that gives a name that nothing had to an empty file. */
  predicate Claims(turn: Turn, target: Name)
  {
    target !in turn.before && turn.after == turn.before[target := File("", false)]
  }

  predicate HasFile(d: Directory, name: Name)
  {
    name in d && d[name].File?
  }

  /** A write through an open file: it changes what the file's name shows, as long as that is still its name. */
  predicate ByHandle(turn: Turn, target: Name, held: bool)
  {
    if held then HasFile(turn.before, target) && HasFile(turn.after, target) && turn.before - {target} == turn.after - {target}
    else Still(turn)
  }

  /** `remove_file` of the target, which removes whatever has the name, except a folder. */
  predicate RemovesName(turn: Turn, target: Name)
  {
    || Still(turn)
    || (target in turn.before && turn.before[target] != Folder && turn.after == turn.before - {target})
  }

  /**
    The name claimed by the `k`th call and written in place until the `done`th; from
    the `lost`th on, the name leads to something that others put there.
   */
  predicate Filled(turns: seq<Turn>, from: nat, k: nat, done: nat, lost: nat, temp: Name, target: Name)
  {
    && from <= k < done <= |turns| && k < lost
    && Untouched(turns, from, k, temp) && Claims(turns[k], target)
    && forall j | k < j < done :: ByHandle(turns[j], target, j < lost)
  }

  /** So the file was made in place, whole if the others left it alone. */
  predicate MadeInPlace(turns: seq<Turn>, from: nat, k: nat, done: nat, lost: nat, temp: Name, target: Name, text: string)
  {
    && Filled(turns, from, k, done, lost, temp, target) && Untouched(turns, done, |turns|, temp)
    && (done <= lost && LeftAlone(turns, target, k, done - 1) ==> At(turns[done - 1].after, target) == Some(File(text, true)))
  }

  /** Or it was not, and the name was removed again. */
  predicate Withdrawn(turns: seq<Turn>, from: nat, k: nat, done: nat, lost: nat, temp: Name, target: Name)
  {
    && Filled(turns, from, k, done, lost, temp, target)
    && done < |turns| && RemovesName(turns[done], target) && Untouched(turns, done + 1, |turns|, temp)
  }

  /** One write or create, on the directory that holds its target. */
  class Operation {
    const target: Name
    const temp: Name
    var entries: Directory
    ghost var turns: seq<Turn>
    /** The calls that failed, those that only discard the temporary file apart. */
    ghost var faults: nat
    ghost var leftovers: nat
    /** Whether the target's name leads to the file that this create claimed it for, and if not since which call. */
    var ours: bool
    ghost var lost: nat

    ghost predicate Valid()
      reads this
    {
      && temp != target
      && Chained(turns, temp)
      && (turns != [] ==> Last(turns).after == entries)
    }

    constructor (target: Name, temp: Name, entries: Directory)
      requires temp != target
      ensures Valid() && turns == [] && this.entries == entries && this.target == target && this.temp == temp && !ours
    {
      this.target, this.temp, this.entries := target, temp, entries;
      turns, faults, leftovers := [], 0, 0;
      ours, lost := false, 0;
    }

    /** Other processes act. */
    method Others()
      modifies this`entries
      ensures SameAt(old(entries), entries, temp)
    {
      var next: Directory := *;
      if At(next, temp) == At(entries, temp) {
        entries := next;
      }
    }

    /** A call that only looks or syncs, and may fail. */
    method Look() returns (ok: bool)
      requires Valid()
      modifies this`entries, this`turns, this`faults
      ensures Valid() && Adds(old(turns), turns) && Still(Last(turns))
      ensures SameAt(old(entries), entries, temp)
      ensures faults == old(faults) + if ok then 0 else 1
    {
      Others();
      turns := turns + [Turn(entries, entries)];
      ok := *;
      if !ok {
        faults := faults + 1;
      }
    }

    /** A call that sets the temporary file, and may fail. */
    method SetTemp(entry: Entry) returns (ok: bool)
      requires Valid()
      modifies this`entries, this`turns, this`faults
      ensures Valid() && Adds(old(turns), turns) && OnlyTemp(Last(turns), temp)
      ensures ok ==> At(entries, temp) == Some(entry)
      ensures !ok ==> At(entries, temp) == At(old(entries), temp)
      ensures faults == old(faults) + if ok then 0 else 1
    {
      Others();
      ghost var before := entries;
      ok := *;
      if ok {
        entries := entries[temp := entry];
      } else {
        faults := faults + 1;
      }
      turns := turns + [Turn(before, entries)];
      assert before - {temp} == entries - {temp};
    }

    /** `remove_file` of the temporary file, whose failure is passed over. */
    method RemoveTemp()
      requires Valid()
      modifies this`entries, this`turns, this`leftovers
      ensures Valid() && Adds(old(turns), turns) && OnlyTemp(Last(turns), temp)
      ensures leftovers >= old(leftovers)
      ensures leftovers == old(leftovers) ==> temp !in entries
    {
      Others();
      ghost var before := entries;
      var removed: bool := *;
      if removed {
        entries := entries - {temp};
      } else if temp in entries {
        leftovers := leftovers + 1;
      }
      turns := turns + [Turn(before, entries)];
      assert before - {temp} == entries - {temp};
    }

    /** `temp_path.exists()`, then `remove_file`. */
    method DiscardTemp()
      requires Valid()
      modifies this`entries, this`turns, this`leftovers
      ensures Valid() && old(turns) <= turns && Untouched(turns, |old(turns)|, |turns|, temp)
      ensures leftovers >= old(leftovers)
      ensures leftovers == old(leftovers) ==> temp !in entries
    {
      Others();
      turns := turns + [Turn(entries, entries)];
      var seen: bool := *;
      if temp !in entries {
        return;
      }
      if seen {
        RemoveTemp();
      } else {
        leftovers := leftovers + 1;
      }
    }

    /** Phase 1: the content, durable beside the target; `write_all` goes on until every part is written. */
    method Prepare(content: string) returns (ok: bool)
      requires Valid() && temp !in entries
      modifies this`entries, this`turns, this`faults
      ensures Valid() && old(turns) <= turns && Untouched(turns, |old(turns)|, |turns|, temp)
      ensures ok ==> At(entries, temp) == Some(File(content, true)) && faults == old(faults)
      ensures !ok ==> faults == old(faults) + 1
    {
      ok := SetTemp(File("", false));
      var written := 0;
      while ok && written < |content|
        invariant 0 <= written <= |content|
        invariant Valid() && old(turns) <= turns && Untouched(turns, |old(turns)|, |turns|, temp)
        invariant ok ==> At(entries, temp) == Some(File(content[..written], false)) && faults == old(faults)
        invariant !ok ==> faults == old(faults) + 1
        decreases |content| - written, ok
      {
        var part: nat := *;
        part := if 0 < part <= |content| - written then part else |content| - written;
        ok := SetTemp(File(content[..written + part], false));
        written := if ok then written + part else written;
      }
      if ok {
        ok := SetTemp(File(content, true));
      }
    }

    /** `rename`: replaces whatever has the name, except a folder; a failed one changes nothing. */
    method Rename() returns (ok: bool)
      requires Valid() && temp in entries
      modifies this`entries, this`turns, this`faults
      ensures faults >= old(faults)
      ensures Valid() && Adds(old(turns), turns)
      ensures SameAt(old(entries), Last(turns).before, temp)
      ensures ok ==> Last(turns).after == (Last(turns).before - {temp})[target := old(entries)[temp]] && faults == old(faults)
      ensures !ok ==> Still(Last(turns))
      ensures !ok ==> faults > old(faults) || IsFolder(Last(turns).before, target)
    {
      Others();
      ghost var before := entries;
      ok := *;
      if At(entries, target) == Some(Folder) {
        ok := false;
      } else if ok {
        entries := (entries - {temp})[target := entries[temp]];
      } else {
        faults := faults + 1;
      }
      turns := turns + [Turn(before, entries)];
    }

    /** `current_revision`: `Unreadable` for any error but a missing file. */
    method CurrentRevision() returns (current: Read)
      requires Valid()
      modifies this`entries, this`turns, this`faults
      ensures Valid() && Adds(old(turns), turns) && Still(Last(turns)) && SameAt(old(entries), entries, temp)
      ensures current == if faults == old(faults) then Seen(Last(turns).before, target) else Unreadable
      ensures faults >= old(faults)
    {
      var ok := Look();
      current := if ok then Seen(entries, target) else Unreadable;
    }

    /** Phase 1 and the last check of `replace_string_if`; `check` is the turn of that check. */
    method Ready(content: string, base: Option<Base>) returns (ready: Replaced, seen: Read, ghost check: nat)
      requires Valid() && temp !in entries
      modifies this`entries, this`turns, this`faults
      ensures faults >= old(faults)
      ensures Valid() && old(turns) <= turns && Untouched(turns, |old(turns)|, |turns|, temp)
      ensures ready.Done? ==> At(entries, temp) == Some(File(content, true)) && faults == old(faults)
      ensures ready == Failed(NotPrepared) ==> faults > old(faults)
      ensures ready.Failed? ==> ready.cause in {NotPrepared, CheckFailed}
      ensures base.Some? && ready != Failed(NotPrepared) ==>
                && check == |turns| - 1 && (faults > old(faults) || Checked(turns, |old(turns)|, check, target, seen))
                && (faults > old(faults) ==> seen.Unreadable?)
                && ready == Verdict(base.value, seen)
      ensures base.None? ==> ready in {Done, Failed(NotPrepared)}
    {
      seen, check := Missing, |turns|;
      var prepared := Prepare(content);
      if !prepared {
        return Failed(NotPrepared), seen, check;
      }
      if base.None? {
        return Done, seen, check;
      }
      check := |turns|;
      seen := CurrentRevision();
      ready := Verdict(base.value, seen);
    }

    /** Phase 2: `replace_file`, then the directory's fsync. */
    method Replace() returns (result: Replaced)
      requires Valid() && At(entries, temp).Some? && entries[temp].File? && entries[temp].durable
      modifies this`entries, this`turns, this`faults
      ensures faults >= old(faults)
      ensures Valid() && old(turns) <= turns
      ensures var n, text := |old(turns)|, old(entries)[temp].text;
              if result == Failed(NotReplaced) then
                && |turns| > n && Untouched(turns, n, |turns|, temp)
                && At(entries, temp) == Some(File(text, true))
                && (faults > old(faults) || IsFolder(Last(turns).before, target))
              else
                && |turns| == n + 3 && PutInPlace(turns, n, temp, target, text)
                && Still(turns[n]) && temp !in entries
                && (if result.Done? then true else result == Failed(NotSynced) && faults > old(faults))
    {
      var looked := Look();
      if looked && IsFolder(entries, target) {
        return Failed(NotReplaced);
      }
      var renamed := Rename();
      if !renamed {
        return Failed(NotReplaced);
      }
      var synced := Look();
      return if synced then Done else Failed(NotSynced);
    }

    /** `atomic_write_string_inner`, with the last check of `replace_string_if` when there is a base. */
    method AtomicWrite(content: string, base: Option<Base>) returns (result: Replaced, seen: Read, ghost check: nat)
      requires Valid() && temp !in entries
      modifies this`entries, this`turns, this`faults, this`leftovers
      ensures faults >= old(faults)
      ensures Valid() && old(turns) <= turns
      ensures result.Done? || result == Failed(NotSynced) ==> PutInPlace(turns, |old(turns)|, temp, target, content)
      ensures !(result.Done? || result == Failed(NotSynced)) ==> Untouched(turns, |old(turns)|, |turns|, temp)
      ensures result == Failed(NotReplaced) ==> At(entries, temp) == Some(File(content, true))
      ensures result != Failed(NotReplaced) && leftovers == old(leftovers) ==> temp !in entries
      ensures result.Failed? ==>
                || faults > old(faults)
                || (result.cause.CheckFailed? && Checked(turns, |old(turns)|, check, target, Unreadable))
                || (result.cause.NotReplaced? && turns != [] && IsFolder(Last(turns).before, target))
      ensures base.Some? && result.Refused? ==> Checked(turns, |old(turns)|, check, target, seen) && !Holds(base.value, seen)
      ensures base.Some? && (result.Done? || result == Failed(NotSynced)) ==>
                && Checked(turns, |old(turns)|, check, target, seen) && Holds(base.value, seen)
                && check == |turns| - 4 && Still(turns[check + 1])
      ensures base.None? ==> !result.Refused?
    {
      var parent: bool := *;
      if !parent {
        faults := faults + 1;
        return Failed(NoDirectory), Missing, 0;
      }
      result, seen, check := Ready(content, base);
      if !result.Done? {
        DiscardTemp();
        return;
      }
      result := Replace();
    }

    /**
      `commit_no_clobber`: a hard link on Unix, after which the temporary name goes,
      or a move on Windows; both fail when anything has the name.
     */
    method Commit(unix: bool) returns (result: Created)
      requires Valid() && At(entries, temp).Some? && entries[temp].File? && entries[temp].durable
      modifies this`entries, this`turns, this`faults, this`leftovers
      ensures Valid() && old(turns) < turns
      ensures var n := |old(turns)|;
              if result.Fresh? then
                && GivenName(turns, n, n, temp, target, old(entries)[temp].text)
                && faults == old(faults) && (leftovers == old(leftovers) ==> temp !in entries)
              else
                && |turns| == n + 1 && Still(turns[n]) && At(entries, temp) == At(old(entries), temp)
                && (if result.Exists? then target in turns[n].before else faults > old(faults))
      ensures leftovers >= old(leftovers) && faults >= old(faults)
    {
      Others();
      ghost var before := entries;
      var ok: bool := *;
      if !ok {
        faults := faults + 1;
        turns := turns + [Turn(before, entries)];
        var unsupported: bool := *;
        return if unix || unsupported then Unsupported else NotCreated;
      }
      if target in entries {
        turns := turns + [Turn(before, entries)];
        return Exists;
      }
      var committed := entries[target := entries[temp]];
      entries := if unix then committed else committed - {temp};
      assert entries - {temp} == (before - {temp})[target := before[temp]];
      turns := turns + [Turn(before, entries)];
      if unix {
        RemoveTemp();
      }
      return Fresh;
    }

    /** Phase 1 of a create, and the caller's last check that the parent is still the same; a failure discards the temporary file. */
    method ReadyNew(content: string) returns (ready: bool)
      requires Valid() && temp !in entries
      modifies this`entries, this`turns, this`faults, this`leftovers
      ensures Valid() && old(turns) <= turns && Untouched(turns, |old(turns)|, |turns|, temp)
      ensures leftovers >= old(leftovers) && faults >= old(faults)
      ensures ready ==> At(entries, temp) == Some(File(content, true))
      ensures !ready ==> faults > old(faults) && (leftovers == old(leftovers) ==> temp !in entries)
    {
      ready := Prepare(content);
      if ready {
        ready := Look();
      }
      if !ready {
        RemoveTemp();
      }
    }

    /** Other processes act, and may give the target's name to something else. */
    method Rivals()
      requires Valid() && (ours ==> HasFile(entries, target))
      modifies this`entries, this`ours, this`lost
      ensures SameAt(old(entries), entries, temp)
      ensures ours ==> old(ours) && HasFile(entries, target)
      ensures lost == if ours == old(ours) then old(lost) else |turns|
    {
      var next: Directory := *;
      var stays: bool := *;
      if At(next, temp) == At(entries, temp) {
        entries := next;
        if ours && !(stays && target in next && next[target].File?) {
          ours, lost := false, |turns|;
        }
      }
    }

    /** An exclusive create of the target. */
    method Claim() returns (result: Created)
      requires Valid() && !ours
      modifies this`entries, this`turns, this`faults, this`ours
      ensures Valid() && Adds(old(turns), turns) && SameAt(old(entries), entries, temp)
      ensures result.Fresh? <==> ours
      ensures result.Fresh? ==> Claims(Last(turns), target) && At(entries, target) == Some(File("", false)) && faults == old(faults)
      ensures !result.Fresh? ==> Still(Last(turns)) && (result.Exists? || result.NotCreated?)
      ensures result.Exists? ==> target in Last(turns).before
      ensures result.NotCreated? ==> faults > old(faults)
      ensures faults >= old(faults)
    {
      Others();
      ghost var before := entries;
      var ok: bool := *;
      if !ok {
        faults := faults + 1;
        result := NotCreated;
      } else if target in entries {
        result := Exists;
      } else {
        entries := entries[target := File("", false)];
        ours := true;
        result := Fresh;
      }
      turns := turns + [Turn(before, entries)];
    }

    /** One write through the claimed file, or its fsync; what others wrote into it leaves anything in it. */
    method WriteOn(from: string, to: string, durable: bool) returns (ok: bool)
      requires Valid() && (ours ==> HasFile(entries, target))
      modifies this`entries, this`turns, this`faults, this`ours, this`lost
      ensures Valid() && Adds(old(turns), turns) && ByHandle(Last(turns), target, ours)
      ensures SameAt(old(entries), entries, temp)
      ensures ours ==> old(ours) && HasFile(entries, target)
      ensures lost == if ours == old(ours) then old(lost) else |old(turns)|
      ensures faults == old(faults) + if ok then 0 else 1
      ensures ok && ours && HasFile(Last(turns).before, target) && Last(turns).before[target].text == from ==>
                At(entries, target) == Some(File(to, durable))
    {
      Rivals();
      ghost var before := entries;
      ok := *;
      if !ok {
        faults := faults + 1;
      } else if ours {
        var any: string := *;
        entries := entries[target := File(if entries[target].text == from then to else any, durable)];
      }
      turns := turns + [Turn(before, entries)];
      assert before - {target} == entries - {target} && (!ours ==> before == entries);
    }

    /** `write_all` and `sync_all` of the claimed file. */
    method Fill(content: string, ghost k: nat) returns (ok: bool)
      requires Valid() && ours && At(entries, target) == Some(File("", false)) && k + 1 == |turns|
      modifies this`entries, this`turns, this`faults, this`ours, this`lost
      ensures Valid() && old(turns) <= turns && k + 1 < |turns| && SameAt(old(entries), entries, temp)
      ensures ours ==> HasFile(entries, target)
      ensures !ours ==> k < lost < |turns|
      ensures forall j | k < j < |turns| :: ByHandle(turns[j], target, ours || j < lost)
      ensures ok ==> faults == old(faults)
      ensures ok && ours && LeftAlone(turns, target, k, |turns| - 1) ==> At(entries, target) == Some(File(content, true))
      ensures !ok ==> faults > old(faults)
    {
      hide LeftAlone, ByHandle, Chained;
      ok := true;
      var written := 0;
      while ok && written < |content|
        invariant 0 <= written <= |content|
        invariant Valid() && old(turns) <= turns && SameAt(old(entries), entries, temp)
        invariant ours ==> HasFile(entries, target)
        invariant !ours ==> k < lost < |turns|
        invariant forall j | k < j < |turns| :: ByHandle(turns[j], target, ours || j < lost)
        invariant ok ==> faults == old(faults)
        invariant !ok ==> faults > old(faults) && k + 1 < |turns|
        invariant ok && ours && LeftAlone(turns, target, k, |turns| - 1) ==> At(entries, target) == Some(File(content[..written], false))
        decreases |content| - written, ok
      {
        var part: nat := *;
        part := if 0 < part <= |content| - written then part else |content| - written;
        ghost var before := turns;
        ok := WriteOn(content[..written], content[..written + part], false);
        LeftAloneBefore(before, turns, target, k);
        written := if ok then written + part else written;
      }
      if ok {
        ghost var before := turns;
        ok := WriteOn(content, content, true);
        LeftAloneBefore(before, turns, target, k);
      }
    }

    /** `create_exclusive_in_place`: the name is claimed at turn `k`, and the writing over at turn `done`. */
    method CreateInPlace(content: string) returns (result: Created, ghost k: nat, ghost done: nat)
      requires Valid() && !ours
      modifies this`entries, this`turns, this`faults, this`ours, this`lost
      ensures Valid() && old(turns) < turns && SameAt(old(entries), entries, temp)
      ensures k == |old(turns)|
      ensures result.Fresh? ==> MadeInPlace(turns, k, k, done, lost, temp, target, content) && faults == old(faults)
      ensures result.Exists? ==> target in turns[k].before
      ensures result.NotCreated? ==> faults > old(faults)
      ensures !result.Fresh? ==> Untouched(turns, k, |turns|, temp) || (result.NotCreated? && Withdrawn(turns, k, k, done, lost, temp, target))
      ensures !result.Unsupported? && faults >= old(faults)
    {
      k, done := |turns|, |turns|;
      result := Claim();
      if !result.Fresh? {
        return;
      }
      var ok := Fill(content, k);
      done := |turns|;
      if ok {
        lost := if ours then done else lost;
        return;
      }
      RemoveTarget();
      result := NotCreated;
    }

    /** `remove_file` of the target, whose failure is passed over. */
    method RemoveTarget()
      requires Valid() && (ours ==> HasFile(entries, target))
      modifies this`entries, this`turns, this`ours, this`lost
      ensures Valid() && Adds(old(turns), turns) && RemovesName(Last(turns), target) && SameAt(old(entries), entries, temp)
      ensures !old(ours) ==> lost == old(lost)
      ensures old(ours) ==> lost == |old(turns)| || lost == |turns|
    {
      Rivals();
      ghost var before := entries;
      var removed: bool := *;
      if removed && target in entries && entries[target] != Folder {
        entries := entries - {target};
      }
      lost := if ours then |turns| + 1 else lost;
      ours := false;
      turns := turns + [Turn(before, entries)];
    }

    /** The create in place, after a commit that is not supported; then the temporary file goes. */
    method CreateInstead(content: string) returns (result: Created, ghost k: nat, ghost done: nat)
      requires Valid() && !ours && turns != [] && Still(Last(turns))
      modifies this`entries, this`turns, this`faults, this`leftovers, this`ours, this`lost
      ensures Valid() && |old(turns)| < |turns| && old(turns) <= turns && |old(turns)| <= k < |turns|
      ensures var n := |old(turns)| - 1;
              if result.Fresh? then MadeInPlace(turns, n, k, done, lost, temp, target, content)
              else
                && (Untouched(turns, n, |turns|, temp) || (result.NotCreated? && Withdrawn(turns, n, k, done, lost, temp, target)))
                && (result.Exists? ==> target in turns[k].before)
                && (result.NotCreated? ==> faults > old(faults))
      ensures faults >= old(faults) && leftovers >= old(leftovers) && !result.Unsupported?
      ensures leftovers == old(leftovers) ==> temp !in entries
    {
      hide MadeInPlace, Withdrawn;
      ghost var n := |turns|;
      result, k, done := CreateInPlace(content);
      ghost var created := turns;
      RemoveTemp();
      if result.Fresh? {
        MadeBetween(created, turns, n, k, done, lost, temp, target, content);
      } else if !Untouched(created, n, |created|, temp) {
        WithdrawnBetween(created, turns, n, k, done, lost, temp, target);
      }
    }

    /**
      Phase 2 of a create: the commit, or where it is not supported the create in place; then
      the directory's fsync, whose failure is passed over. Anything but a commit discards the
      temporary file.
     */
    method CommitNew(unix: bool) returns (result: Created, ghost k: nat, ghost done: nat)
      requires Valid() && At(entries, temp).Some? && entries[temp].File? && entries[temp].durable && !ours
      modifies this`entries, this`turns, this`faults, this`leftovers, this`ours, this`lost
      ensures Valid() && old(turns) < turns && |old(turns)| <= k < |turns|
      ensures var n, text := |old(turns)|, old(entries)[temp].text;
              if result.Fresh? then
                || GivenName(turns, n, k, temp, target, text)
                || (faults > old(faults) && MadeInPlace(turns, n, k, done, lost, temp, target, text))
              else
                && (Untouched(turns, n, |turns|, temp) || (result.NotCreated? && Withdrawn(turns, n, k, done, lost, temp, target)))
                && (result.Exists? ==> target in turns[k].before)
                && (result.NotCreated? ==> faults > old(faults))
      ensures faults >= old(faults) && leftovers >= old(leftovers) && !result.Unsupported?
      ensures leftovers == old(leftovers) ==> temp !in entries
    {
      k, done := |turns|, |turns|;
      result := Commit(unix);
      if result.Unsupported? {
        result, k, done := CreateInstead(entries[temp].text);
      } else if !result.Fresh? {
        RemoveTemp();
      }
      if result.Fresh? {
        var synced := Look();
      }
    }

    /** `create_new_string_inner`; `k` is the turn that gives the file its name, `done` the end of writing in place. */
    method CreateNew(content: string, unix: bool) returns (result: Created, ghost k: nat, ghost done: nat)
      requires Valid() && temp !in entries && !ours
      modifies this`entries, this`turns, this`faults, this`leftovers, this`ours, this`lost
      ensures Valid() && old(turns) <= turns
      ensures var n := |old(turns)|;
              if result.Fresh? then
                || GivenName(turns, n, k, temp, target, content)
                || (faults > old(faults) && MadeInPlace(turns, n, k, done, lost, temp, target, content))
              else
                && (Untouched(turns, n, |turns|, temp) || (result.NotCreated? && Withdrawn(turns, n, k, done, lost, temp, target)))
                && (result.Exists? ==> n <= k < |turns| && target in turns[k].before)
                && (result.NotCreated? ==> faults > old(faults))
      ensures !result.Unsupported? && faults >= old(faults) && leftovers >= old(leftovers)
      ensures leftovers == old(leftovers) ==> temp !in entries
    {
      k, done := |turns|, |turns|;
      var looked := Look();
      if looked && target in entries {
        return Exists, k, done;
      }
      var ready := ReadyNew(content);
      if !ready {
        return NotCreated, k, done;
      }
      result, k, done := CommitNew(unix);
    }
  }
}
