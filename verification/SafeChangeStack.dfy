/**
 Change sets applied one after another and rolled back in reverse order. They
 share the backup directory, so what matters is that their backup names do not
 meet.
 */
module SafeChangeStack {
  import opened SafeChange
  import opened SafeChangeEffects
  import opened SafeChangeProofs
  import opened Sequences
  import opened Text

  // ---------- a rollback later on ----------

  /** Every backup name of the change set stands for the same on both disks. */
  ghost predicate SameBackups(a: Adapter, cs: ChangeSet, disk: Disk, now: Disk) {
    forall i :: 0 <= i < |cs.operations| && NameAt(a, cs, i).Some? ==> SameBackup(disk, now, NameAt(a, cs, i).value)
  }

  lemma SameChecks(a: Adapter, cs: ChangeSet, disk: Disk, now: Disk, i: nat)
    requires i < |cs.operations| && now.files == disk.files && SameBackups(a, cs, disk, now)
    ensures RestorableAt(a, cs, i, now) <==> RestorableAt(a, cs, i, disk)
    ensures SavedAt(a, cs, i, now) == SavedAt(a, cs, i, disk)
  {
    assert NameAt(a, cs, i).Some? ==> SameBackup(disk, now, NameAt(a, cs, i).value);
  }

  /** A rollback depends on the files and on the set's own backups, and on nothing else. */
  lemma RollbackDependsOn(a: Adapter, cs: ChangeSet, disk: Disk, now: Disk)
    requires now.files == disk.files && SameBackups(a, cs, disk, now)
    ensures IsRolledBack(Rollback(a, cs, now).outcome) <==> IsRolledBack(Rollback(a, cs, disk).outcome)
    ensures IsRolledBack(Rollback(a, cs, disk).outcome) ==>
              Rollback(a, cs, now).disk.files == Rollback(a, cs, disk).disk.files
  {
    RolledBackExactlyWhenRestorable(a, cs, disk);
    RolledBackExactlyWhenRestorable(a, cs, now);
    forall i | 0 <= i < |cs.operations| ensures RestorableAt(a, cs, i, now) <==> RestorableAt(a, cs, i, disk) {
      SameChecks(a, cs, disk, now, i);
    }
    if IsRolledBack(Rollback(a, cs, disk).outcome) {
      SameUndone(a, cs, disk, now);
      SameReads(Rollback(a, cs, now).disk, Rollback(a, cs, disk).disk);
    }
  }

  lemma SameUndone(a: Adapter, cs: ChangeSet, disk: Disk, now: Disk)
    requires now.files == disk.files && SameBackups(a, cs, disk, now)
    requires UndoneUpTo(a, cs, |cs.operations|, disk, Rollback(a, cs, disk).disk)
    requires UndoneUpTo(a, cs, |cs.operations|, now, Rollback(a, cs, now).disk)
    ensures forall path :: Read(Rollback(a, cs, now).disk, path) == Read(Rollback(a, cs, disk).disk, path)
  {
    forall path ensures Read(Rollback(a, cs, now).disk, path) == Read(Rollback(a, cs, disk).disk, path) {
      assert Read(Rollback(a, cs, now).disk, path) == UndoneAt(a, cs, |cs.operations|, now, path);
      assert Read(Rollback(a, cs, disk).disk, path) == UndoneAt(a, cs, |cs.operations|, disk, path);
      match LastOn(a, cs, |cs.operations|, Some(path))
      case None =>
      case Some(j) => SameChecks(a, cs, disk, now, j);
    }
  }

  // ---------- one set after another ----------

  function AppliedAll(a: Adapter, sets: seq<ChangeSet>, disk: Disk): Disk {
    if sets == [] then disk else AppliedAll(a, sets[1..], Apply(a, sets[0], disk).disk)
  }

  predicate AllApplied(a: Adapter, sets: seq<ChangeSet>, disk: Disk) {
    sets == [] || (IsApplied(Apply(a, sets[0], disk).outcome) && AllApplied(a, sets[1..], Apply(a, sets[0], disk).disk))
  }

  /** Rolls the sets back, the last one first; none when one of them does not go through. */
  function UndoneAll(a: Adapter, sets: seq<ChangeSet>, disk: Disk): Option<Disk> {
    if sets == [] then Some(disk)
    else
      match UndoneAll(a, sets[1..], disk)
      case None => None
      case Some(now) =>
        var r := Rollback(a, sets[0], now);
        if IsRolledBack(r.outcome) then Some(r.disk) else None
  }

  /** Rolled back right after it is applied, the set restores the files. */
  ghost predicate Restores(a: Adapter, cs: ChangeSet, disk: Disk) {
    var r := Rollback(a, cs, Apply(a, cs, disk).disk);
    IsRolledBack(r.outcome) && r.disk.files == disk.files
  }

  ghost predicate AllRestore(a: Adapter, sets: seq<ChangeSet>, disk: Disk) {
    sets == [] || (Restores(a, sets[0], disk) && AllRestore(a, sets[1..], Apply(a, sets[0], disk).disk))
  }

  /** Rolled back in reverse order, every set restores the files that it was applied to. */
  ghost predicate AllUndone(a: Adapter, sets: seq<ChangeSet>, disk: Disk) {
    var end := UndoneAll(a, sets, AppliedAll(a, sets, disk));
    && end.Some? && end.value.files == disk.files
    && (sets != [] ==> AllUndone(a, sets[1..], Apply(a, sets[0], disk).disk))
  }

  /** No backup of one is named like a backup of the other. */
  ghost predicate Apart(a: Adapter, x: ChangeSet, y: ChangeSet) {
    forall i, j :: 0 <= i < |x.operations| && 0 <= j < |y.operations| && NameAt(a, x, i).Some? ==>
                     NameAt(a, x, i) != NameAt(a, y, j)
  }

  ghost predicate AllApart(a: Adapter, sets: seq<ChangeSet>) {
    forall m, n :: 0 <= m < n < |sets| ==> Apart(a, sets[m], sets[n])
  }

  // ---------- backups ----------

  lemma KeepsApartBackups(a: Adapter, x: ChangeSet, y: ChangeSet, disk: Disk)
    requires Apart(a, x, y) && IsApplied(Apply(a, y, disk).outcome)
    ensures SameBackups(a, x, disk, Apply(a, y, disk).disk)
  {
    AppliedExactlyWhenReady(a, y, disk);
    forall i | 0 <= i < |x.operations| && NameAt(a, x, i).Some?
      ensures SameBackup(disk, Apply(a, y, disk).disk, NameAt(a, x, i).value)
    {
      assert !NamedBefore(a, y, |y.operations|, NameAt(a, x, i).value);
    }
  }

  lemma SameBackupsTwice(a: Adapter, cs: ChangeSet, disk: Disk, now: Disk, end: Disk)
    requires SameBackups(a, cs, disk, now) && SameBackups(a, cs, now, end)
    ensures SameBackups(a, cs, disk, end)
  {
    forall i | 0 <= i < |cs.operations| && NameAt(a, cs, i).Some?
      ensures SameBackup(disk, end, NameAt(a, cs, i).value)
    {
      assert SameBackup(disk, now, NameAt(a, cs, i).value) && SameBackup(now, end, NameAt(a, cs, i).value);
    }
  }

  /** The sets applied later leave the backups of a set apart from them alone. */
  lemma {:induction false} LaterKeepBackups(a: Adapter, cs: ChangeSet, sets: seq<ChangeSet>, disk: Disk)
    requires AllApplied(a, sets, disk) && forall y :: y in sets ==> Apart(a, cs, y)
    ensures SameBackups(a, cs, disk, AppliedAll(a, sets, disk))
  {
    if sets == [] {
    } else {
      var next := Apply(a, sets[0], disk).disk;
      KeepsApartBackups(a, cs, sets[0], disk);
      LaterKeepBackups(a, cs, sets[1..], next);
      SameBackupsTwice(a, cs, disk, next, AppliedAll(a, sets, disk));
    }
  }

  /** Rolling back touches no backup. */
  lemma {:induction false} UndoingKeepsBackups(a: Adapter, sets: seq<ChangeSet>, disk: Disk)
    requires UndoneAll(a, sets, disk).Some?
    ensures UndoneAll(a, sets, disk).value.backups == disk.backups
  {
    if sets == [] {
    } else {
      UndoingKeepsBackups(a, sets[1..], disk);
      RolledBackExactlyWhenRestorable(a, sets[0], UndoneAll(a, sets[1..], disk).value);
    }
  }

  // ---------- the stack ----------

  /** When the sets above it have been undone, a set is rolled back as if they had never been applied. */
  lemma BottomRollsBack(a: Adapter, cs: ChangeSet, rest: seq<ChangeSet>, disk: Disk)
    requires IsApplied(Apply(a, cs, disk).outcome) && AllApplied(a, rest, Apply(a, cs, disk).disk)
    requires forall y :: y in rest ==> Apart(a, cs, y)
    requires AllUndone(a, rest, Apply(a, cs, disk).disk)
    ensures var end := UndoneAll(a, [cs] + rest, AppliedAll(a, [cs] + rest, disk));
            Restores(a, cs, disk) <==> end.Some? && end.value.files == disk.files
  {
    var middle := Apply(a, cs, disk).disk;
    var top := AppliedAll(a, rest, middle);
    var now := UndoneAll(a, rest, top).value;
    assert ([cs] + rest)[1..] == rest;
    LaterKeepBackups(a, cs, rest, middle);
    UndoingKeepsBackups(a, rest, top);
    RollbackDependsOn(a, cs, middle, now);
  }

  /**
   Any number of change sets whose backup names do not meet, applied one after another and rolled back in
   reverse order: every set restores the files that it was applied to exactly when every set, rolled back
   right after it was applied, would have done so. They may all change the same files.
   */
  lemma {:induction false} StackRestoresExactly(a: Adapter, sets: seq<ChangeSet>, disk: Disk)
    requires AllApart(a, sets) && AllApplied(a, sets, disk)
    ensures AllUndone(a, sets, disk) <==> AllRestore(a, sets, disk)
  {
    if sets == [] {
    } else {
      var cs, rest := sets[0], sets[1..];
      assert sets == [cs] + rest;
      StackRestoresExactly(a, rest, Apply(a, cs, disk).disk);
      if AllUndone(a, rest, Apply(a, cs, disk).disk) {
        forall y | y in rest ensures Apart(a, cs, y) {
          var n :| 0 <= n < |rest| && rest[n] == y;
          assert y == sets[n + 1];
        }
        BottomRollsBack(a, cs, rest, disk);
      }
    }
  }

  // ---------- ids ----------

  /** As proposals are given them: ids of one length, no two alike. */
  ghost predicate FreshIds(sets: seq<ChangeSet>) {
    forall m, n :: 0 <= m < n < |sets| ==> |sets[m].id| == |sets[n].id| && sets[m].id != sets[n].id
  }

  lemma NameTellsId(x: string, y: string, i: nat, j: nat, p: Path, q: Path)
    requires |x| == |y| && BackupName(x, i, p) == BackupName(y, j, q)
    ensures x == y
  {
    assert BackupName(x, i, p)[..|x|] == x && BackupName(y, j, q)[..|y|] == y;
  }

  /** Different ids of one length keep the backups of two sets apart. */
  lemma FreshIdsApart(a: Adapter, sets: seq<ChangeSet>)
    requires FreshIds(sets)
    ensures AllApart(a, sets)
  {
    forall m, n, i, j | 0 <= m < n < |sets| && 0 <= i < |sets[m].operations| && 0 <= j < |sets[n].operations|
                        && NameAt(a, sets[m], i).Some?
      ensures NameAt(a, sets[m], i) != NameAt(a, sets[n], j)
    {
      if NameAt(a, sets[m], i) == NameAt(a, sets[n], j) {
        NameTellsId(sets[m].id, sets[n].id, i, j, PathAt(a, sets[m], i).value, PathAt(a, sets[n], j).value);
      }
    }
  }

  lemma {:induction false} DistinctRestore(a: Adapter, sets: seq<ChangeSet>, disk: Disk)
    requires AllApplied(a, sets, disk) && forall cs :: cs in sets ==> Proposed(cs) && DistinctPaths(a, cs)
    ensures AllRestore(a, sets, disk)
  {
    if sets == [] {
    } else {
      RollbackRestoresAll(a, sets[0], disk);
      DistinctRestore(a, sets[1..], Apply(a, sets[0], disk).disk);
    }
  }

  /** Proposed change sets on distinct files each, applied one after another, are undone completely in reverse order. */
  lemma StackRestoresAll(a: Adapter, sets: seq<ChangeSet>, disk: Disk)
    requires FreshIds(sets) && AllApplied(a, sets, disk)
    requires forall cs :: cs in sets ==> Proposed(cs) && DistinctPaths(a, cs)
    ensures var end := UndoneAll(a, sets, AppliedAll(a, sets, disk)); end.Some? && end.value.files == disk.files
  {
    FreshIdsApart(a, sets);
    DistinctRestore(a, sets, disk);
    StackRestoresExactly(a, sets, disk);
  }

  // ---------- names that meet ----------

  /** Ids of different lengths do not keep backups apart. */
  lemma NamesCanMeet(directory: string)
    ensures BackupName("a", 0, Path(directory, "0-b")) == BackupName("a-0", 0, Path(directory, "b"))
  {
    assert Decimal(0) == "0";
  }

  lemma SingleApplied(a: Adapter, cs: ChangeSet, disk: Disk, path: Path)
    requires |cs.operations| == 1 && PathAt(a, cs, 0) == Some(path) && IsApplied(Apply(a, cs, disk).outcome)
    ensures var op, now, name := cs.operations[0], Apply(a, cs, disk).disk, BackupName(cs.id, 0, path);
            && op.expected == HashOf(a, Read(disk, path)) && op.after == HashOf(a, op.replacement)
            && Read(now, path) == op.replacement
            && (forall p :: p != path ==> Read(now, p) == Read(disk, p))
            && (path in disk.files ==> name in now.backups && now.backups[name] == disk.files[path])
  {
    var now := Apply(a, cs, disk).disk;
    AppliedExactlyWhenReady(a, cs, disk);
    assert ReadyAt(a, cs, 0, disk) && BackedUp(a, cs, 0, disk, now);
    assert forall p :: Read(now, p) == ContentAt(a, cs, 1, disk, p);
  }

  lemma AppliedTwo(a: Adapter, x: ChangeSet, y: ChangeSet, disk: Disk)
    requires AllApplied(a, [x, y], disk)
    ensures IsApplied(Apply(a, x, disk).outcome) && IsApplied(Apply(a, y, Apply(a, x, disk).disk).outcome)
    ensures AppliedAll(a, [x, y], disk) == Apply(a, y, Apply(a, x, disk).disk).disk
  {
    var middle := Apply(a, x, disk).disk;
    assert [x, y][1..] == [y];
    assert AllApplied(a, [y], middle) && AppliedAll(a, [x, y], disk) == AppliedAll(a, [y], middle);
    assert [y][1..] == [];
  }

  lemma FirstProposed(cs: ChangeSet)
    requires Proposed(cs) && cs.operations != []
    ensures cs.operations[0].expected == cs.operations[0].before
  {
  }

  lemma SingleRolledBack(a: Adapter, cs: ChangeSet, disk: Disk, path: Path)
    requires |cs.operations| == 1 && PathAt(a, cs, 0) == Some(path)
    ensures var r, op, name := Rollback(a, cs, disk), cs.operations[0], BackupName(cs.id, 0, path);
            && (IsRolledBack(r.outcome) <==>
                  && op.after == HashOf(a, Read(disk, path))
                  && (op.before.Some? ==> name in disk.backups && a.hash(disk.backups[name]) == op.before.value))
            && (IsRolledBack(r.outcome) ==>
                  && r.disk.backups == disk.backups
                  && Read(r.disk, path) == (if op.before.Some? then Some(disk.backups[name]) else None)
                  && forall p :: p != path ==> Read(r.disk, p) == Read(disk, p))
  {
    RolledBackExactlyWhenRestorable(a, cs, disk);
    assert NameAt(a, cs, 0) == Some(BackupName(cs.id, 0, path));
    assert IsRolledBack(Rollback(a, cs, disk).outcome) <==> RestorableAt(a, cs, 0, disk);
    assert IsRolledBack(Rollback(a, cs, disk).outcome) ==>
        forall p :: Read(Rollback(a, cs, disk).disk, p) == UndoneAt(a, cs, 1, disk, p);
  }

  /**
   When the backups of two sets that replace different files have one name, the later one's backup takes
   the earlier one's place. The later set is still undone, and the earlier one goes through exactly when
   both old contents have the same hash: its file then holds the old content of the other.
   */
  lemma MeetingNames(a: Adapter, x: ChangeSet, y: ChangeSet, disk: Disk, p: Path, q: Path)
    requires |x.operations| == 1 && PathAt(a, x, 0) == Some(p) && Proposed(x)
    requires |y.operations| == 1 && PathAt(a, y, 0) == Some(q) && Proposed(y)
    requires p != q && p in disk.files && q in disk.files && BackupName(x.id, 0, p) == BackupName(y.id, 0, q)
    requires AllApplied(a, [x, y], disk)
    ensures var later := Rollback(a, y, AppliedAll(a, [x, y], disk));
            var earlier := Rollback(a, x, later.disk);
            && IsRolledBack(later.outcome) && Read(later.disk, q) == Read(disk, q)
            && (IsRolledBack(earlier.outcome) <==> a.hash(disk.files[p]) == a.hash(disk.files[q]))
            && (IsRolledBack(earlier.outcome) ==> Read(earlier.disk, p) == Read(disk, q))
  {
    AppliedTwo(a, x, y, disk);
    var middle := Apply(a, x, disk).disk;
    SingleApplied(a, x, disk, p);
    SingleApplied(a, y, middle, q);
    assert Read(middle, q) == Read(disk, q) && q in middle.files;
    FirstProposed(x);
    FirstProposed(y);
    var top := Apply(a, y, middle).disk;
    SingleRolledBack(a, y, top, q);
    SingleRolledBack(a, x, Rollback(a, y, top).disk, p);
  }
}
