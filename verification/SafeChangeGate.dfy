/** What stands between a change set and the files: the conditions of apply written out, and what can change at all. */
module SafeChangeGate {
  import opened Redaction
  import opened RedactionProofs
  import opened SafeChange
  import opened SafeChangeEffects
  import opened SafeChangeProofs
  import opened Sequences

  /**
   An operation passes validation exactly when its target may be written and its replacement is clean and well
   formed.
   */
  lemma ValidExactlyWhen(a: Adapter, op: Operation)
    ensures ValidOperation(a, op) <==>
            && a.resolve(op.target).Some? && a.writable(a.resolve(op.target).value)
            && op.replacement.Some?
            && KeysClean(KEYS, op.replacement.value) && NoBearer(op.replacement.value)
            && a.wellFormed(a.resolve(op.target).value, op.replacement.value)
  {
    if op.replacement.Some? {
      UnchangedExactlyWhenClean(op.replacement.value);
    }
  }

  /**
   A change set is applied exactly when it is not empty and every operation names a file that may be
   written, replaces it with clean and well-formed text, and finds what it expects.
   */
  lemma AppliedExactlyWhenAllowed(a: Adapter, cs: ChangeSet, disk: Disk)
    ensures IsApplied(Apply(a, cs, disk).outcome) <==>
            && cs.operations != []
            && forall i :: 0 <= i < |cs.operations| ==>
                 var op := cs.operations[i];
                 && a.resolve(op.target).Some? && a.writable(a.resolve(op.target).value)
                 && op.replacement.Some?
                 && KeysClean(KEYS, op.replacement.value) && NoBearer(op.replacement.value)
                 && a.wellFormed(a.resolve(op.target).value, op.replacement.value)
                 && !op.kind.DeleteFile?
                 && op.expected == Found(a, cs, i, disk) && op.after == Some(a.hash(op.replacement.value))
  {
    AppliedExactlyWhenReady(a, cs, disk);
    forall i | 0 <= i < |cs.operations|
      ensures ValidOperation(a, cs.operations[i]) && ReadyAt(a, cs, i, disk) <==>
              var op := cs.operations[i];
              && a.resolve(op.target).Some? && a.writable(a.resolve(op.target).value)
              && op.replacement.Some?
              && KeysClean(KEYS, op.replacement.value) && NoBearer(op.replacement.value)
              && a.wellFormed(a.resolve(op.target).value, op.replacement.value)
              && !op.kind.DeleteFile?
              && op.expected == Found(a, cs, i, disk) && op.after == Some(a.hash(op.replacement.value))
    {
      ValidExactlyWhen(a, cs.operations[i]);
    }
  }

  // ---------- what can change ----------

  /** Some operation of the set names the file. */
  ghost predicate Names(a: Adapter, cs: ChangeSet, path: Path) {
    exists op :: op in cs.operations && a.resolve(op.target) == Some(path)
  }

  /** No file but those the set names is different. */
  ghost predicate OnlyNamed(a: Adapter, cs: ChangeSet, disk: Disk, now: Disk) {
    forall path :: Read(now, path) != Read(disk, path) ==> Names(a, cs, path)
  }

  lemma OnlyNamedTwice(a: Adapter, cs: ChangeSet, disk: Disk, now: Disk, end: Disk)
    requires OnlyNamed(a, cs, disk, now) && OnlyNamed(a, cs, now, end)
    ensures OnlyNamed(a, cs, disk, end)
  {
    forall path | Read(end, path) != Read(disk, path) ensures Names(a, cs, path) {
      assert Read(now, path) != Read(disk, path) || Read(end, path) != Read(now, path);
    }
  }

  lemma ApplyOneNames(a: Adapter, cs: ChangeSet, k: nat, disk: Disk)
    requires k < |cs.operations|
    ensures OnlyNamed(a, cs, disk, StepDisk(ApplyOne(a, cs.id, k, cs.operations[k], disk)))
  {
    assert cs.operations[k] in cs.operations;
  }

  lemma {:induction false} ApplyFromNames(a: Adapter, cs: ChangeSet, k: nat, disk: Disk, receipt: Receipt)
    requires k <= |cs.operations|
    ensures OnlyNamed(a, cs, disk, ApplyFrom(a, cs, k, disk, receipt).disk)
    decreases |cs.operations| - k
  {
    if k == |cs.operations| {
    } else {
      ApplyOneNames(a, cs, k, disk);
      match ApplyOne(a, cs.id, k, cs.operations[k], disk)
      case Stopped(result) =>
      case Advanced(next, backup, before, after) =>
        ApplyFromNames(a, cs, k + 1, next, Extended(receipt, backup, before, after));
        OnlyNamedTwice(a, cs, disk, next, ApplyFrom(a, cs, k, disk, receipt).disk);
    }
  }

  /**
   Whatever the outcome, apply changes only files that the set names and that may be written; a set with one
   operation on a file that may not be written changes nothing.
   */
  lemma OnlyWritableChange(a: Adapter, cs: ChangeSet, disk: Disk)
    ensures forall path :: Read(Apply(a, cs, disk).disk, path) != Read(disk, path) ==>
                             Names(a, cs, path) && a.writable(path)
    ensures forall op ::
              op in cs.operations && a.resolve(op.target).Some? && !a.writable(a.resolve(op.target).value) ==>
                Apply(a, cs, disk) == Result(disk, Failed)
  {
    forall op | op in cs.operations
      ensures ValidOperation(a, op) ==> a.resolve(op.target).Some? && a.writable(a.resolve(op.target).value)
    {
      ValidExactlyWhen(a, op);
    }
    ApplyFromNames(a, cs, 0, disk, Receipt(Applied, [], [], []));
  }

  lemma RollbackOneNames(a: Adapter, cs: ChangeSet, k: nat, disk: Disk)
    requires k < |cs.operations|
    ensures OnlyNamed(a, cs, disk, StepDisk(RollbackOne(a, cs.id, k, cs.operations[k], disk)))
    ensures StepDisk(RollbackOne(a, cs.id, k, cs.operations[k], disk)).backups == disk.backups
  {
    assert cs.operations[k] in cs.operations;
  }

  lemma {:induction false} RollbackFromNames(a: Adapter, cs: ChangeSet, k: nat, disk: Disk, receipt: Receipt)
    requires k <= |cs.operations|
    ensures OnlyNamed(a, cs, disk, RollbackFrom(a, cs, k, disk, receipt).disk)
    ensures RollbackFrom(a, cs, k, disk, receipt).disk.backups == disk.backups
    decreases |cs.operations| - k
  {
    if k == |cs.operations| {
    } else {
      RollbackOneNames(a, cs, k, disk);
      match RollbackOne(a, cs.id, k, cs.operations[k], disk)
      case Stopped(result) =>
      case Advanced(next, backup, before, after) =>
        RollbackFromNames(a, cs, k + 1, next, Extended(receipt, backup, before, after));
        OnlyNamedTwice(a, cs, disk, next, RollbackFrom(a, cs, k, disk, receipt).disk);
    }
  }

  /** Whatever the outcome, a rollback changes only files that the set names, and no backup. */
  lemma RollbackChangesOnlyNamed(a: Adapter, cs: ChangeSet, disk: Disk)
    ensures forall path :: Read(Rollback(a, cs, disk).disk, path) != Read(disk, path) ==> Names(a, cs, path)
    ensures Rollback(a, cs, disk).disk.backups == disk.backups
  {
    RollbackFromNames(a, cs, 0, disk, Receipt(RolledBack, [], [], []));
  }

  // ---------- receipts ----------

  /** A conflict's receipt tells the hash found and nothing else. */
  lemma ConflictReceipt(a: Adapter, cs: ChangeSet, disk: Disk) returns (m: nat)
    requires IsConflict(Apply(a, cs, disk).outcome)
    ensures m < |cs.operations| && a.resolve(cs.operations[m].target).Some?
    ensures var r, path := Apply(a, cs, disk), a.resolve(cs.operations[m].target).value;
            var receipt := r.outcome.receipt;
            && cs.operations[m].expected != HashOf(a, Read(r.disk, path))
            && receipt.backups == [] && receipt.after == []
            && receipt.before == if path in r.disk.files then [a.hash(r.disk.files[path])] else []
  {
    m := ConflictFromTells(a, cs, 0, disk, Receipt(Applied, [], [], []));
  }

  lemma {:induction false} ConflictFromTells(a: Adapter, cs: ChangeSet, k: nat, disk: Disk, receipt: Receipt)
    returns (m: nat)
    requires k <= |cs.operations| && receipt.status.Applied? && IsConflict(ApplyFrom(a, cs, k, disk, receipt).outcome)
    ensures m < |cs.operations| && a.resolve(cs.operations[m].target).Some?
    ensures var r, path := ApplyFrom(a, cs, k, disk, receipt), a.resolve(cs.operations[m].target).value;
            && cs.operations[m].expected != HashOf(a, Read(r.disk, path))
            && r.outcome.receipt.backups == [] && r.outcome.receipt.after == []
            && r.outcome.receipt.before == if path in r.disk.files then [a.hash(r.disk.files[path])] else []
    decreases |cs.operations| - k
  {
    match ApplyOne(a, cs.id, k, cs.operations[k], disk)
    case Stopped(result) => m := k;
    case Advanced(next, backup, before, after) =>
      m := ConflictFromTells(a, cs, k + 1, next, Extended(receipt, backup, before, after));
  }

  /** The backup of some operation from `k` on has the name, and it is there. */
  ghost predicate HasBackup(a: Adapter, cs: ChangeSet, k: nat, disk: Disk, name: string)
    requires k <= |cs.operations|
  {
    name in disk.backups && exists i :: k <= i < |cs.operations| && NameAt(a, cs, i) == Some(name)
  }

  lemma HasBackupNext(a: Adapter, cs: ChangeSet, k: nat, disk: Disk, name: string)
    requires k < |cs.operations|
    ensures HasBackup(a, cs, k, disk, name) <==>
            (name in disk.backups && NameAt(a, cs, k) == Some(name)) || HasBackup(a, cs, k + 1, disk, name)
  {
  }

  lemma {:induction false} ExistingExactly(a: Adapter, cs: ChangeSet, k: nat, disk: Disk, name: string)
    requires k <= |cs.operations|
    ensures name in ExistingBackups(a, cs, k, disk) <==> HasBackup(a, cs, k, disk, name)
    decreases |cs.operations| - k
  {
    if k < |cs.operations| {
      ExistingExactly(a, cs, k + 1, disk, name);
      HasBackupNext(a, cs, k, disk, name);
    }
  }

  lemma {:induction false} RolledBackBackups(a: Adapter, cs: ChangeSet, k: nat, disk: Disk, receipt: Receipt)
    requires k <= |cs.operations| && IsRolledBack(RollbackFrom(a, cs, k, disk, receipt).outcome)
    ensures var r := RollbackFrom(a, cs, k, disk, receipt);
            r.outcome.receipt.backups == ExistingBackups(a, cs, 0, r.disk)
    decreases |cs.operations| - k
  {
    if k < |cs.operations| {
      RestorableAdvances(a, cs.id, k, cs.operations[k], disk);
      match RollbackOne(a, cs.id, k, cs.operations[k], disk)
      case Stopped(result) =>
      case Advanced(next, backup, before, after) =>
        RolledBackBackups(a, cs, k + 1, next, Extended(receipt, backup, before, after));
    }
  }

  /** The receipt of a rollback names exactly the backups of the set's operations that are there. */
  lemma RollbackReceiptNames(a: Adapter, cs: ChangeSet, disk: Disk, name: string)
    requires IsRolledBack(Rollback(a, cs, disk).outcome)
    ensures name in Rollback(a, cs, disk).outcome.receipt.backups <==> HasBackup(a, cs, 0, disk, name)
  {
    RolledBackBackups(a, cs, 0, disk, Receipt(RolledBack, [], [], []));
    RollbackChangesOnlyNamed(a, cs, disk);
    ExistingExactly(a, cs, 0, Rollback(a, cs, disk).disk, name);
  }
}
