/**
 When a change set is applied or rolled back, and what that leaves, for change
 sets of any length. Operations may name one file any number of times: each
 finds the file as the operation before it on that file has left it.
 */
module SafeChangeEffects {
  import opened Sequences
  import opened SafeChange
  import opened Text

  // ---------- backup names ----------

  lemma UntilDash(a: string, b: string, x: string, y: string)
    requires a + "-" + x == b + "-" + y
    requires (forall i :: 0 <= i < |a| ==> a[i] != '-') && (forall i :: 0 <= i < |b| ==> b[i] != '-')
    ensures a == b
  {
    var s, t := a + "-" + x, b + "-" + y;
    assert s[|a|] == '-' && t[|b|] == '-';
    assert forall i :: 0 <= i < |a| ==> s[i] == a[i];
    assert forall i :: 0 <= i < |b| ==> t[i] == b[i];
    assert a == s[..|a|] && b == t[..|b|];
  }

  /** Within one change set no two operations share a backup file, whatever their targets are called. */
  lemma BackupNamesDistinct(id: string, i: nat, j: nat, p: Path, q: Path)
    requires BackupName(id, i, p) == BackupName(id, j, q)
    ensures i == j
  {
    var x, y := p.name + ".bak", q.name + ".bak";
    var a, b := Decimal(i) + "-" + x, Decimal(j) + "-" + y;
    assert BackupName(id, i, p) == (id + "-") + a;
    assert BackupName(id, j, q) == (id + "-") + b;
    assert a == ((id + "-") + a)[|id| + 1..] && b == ((id + "-") + b)[|id| + 1..];
    DecimalReads(i);
    DecimalReads(j);
    UntilDash(Decimal(i), Decimal(j), x, y);
  }

  // ---------- operations on one file ----------

  function PathAt(a: Adapter, cs: ChangeSet, i: nat): Option<Path>
    requires i < |cs.operations|
  {
    a.resolve(cs.operations[i].target)
  }

  /** The last of the first `k` operations that names the file. */
  function LastOn(a: Adapter, cs: ChangeSet, k: nat, path: Option<Path>): (r: Option<nat>)
    requires k <= |cs.operations|
    ensures r.Some? ==> r.value < k && PathAt(a, cs, r.value) == path
    ensures r.Some? ==> forall j :: r.value < j < k ==> PathAt(a, cs, j) != path
    ensures r.None? ==> forall j :: 0 <= j < k ==> PathAt(a, cs, j) != path
  {
    if k == 0 then None
    else if PathAt(a, cs, k - 1) == path then Some(k - 1)
    else LastOn(a, cs, k - 1, path)
  }

  /** The nearest earlier operation on the file of operation `i`. */
  function Previous(a: Adapter, cs: ChangeSet, i: nat): (r: Option<nat>)
    requires i < |cs.operations|
    ensures r.Some? ==> r.value < i
  {
    LastOn(a, cs, i, PathAt(a, cs, i))
  }

  function NameAt(a: Adapter, cs: ChangeSet, i: nat): Option<string>
    requires i < |cs.operations|
  {
    if PathAt(a, cs, i).Some? then Some(BackupName(cs.id, i, PathAt(a, cs, i).value)) else None
  }

  // ---------- apply ----------

  predicate IsApplied(outcome: Outcome) {
    outcome.Done? && outcome.receipt.status.Applied?
  }

  /** What the file holds when the first `k` operations have been applied. */
  function ContentAt(a: Adapter, cs: ChangeSet, k: nat, disk: Disk, path: Path): Option<string>
    requires k <= |cs.operations|
  {
    match LastOn(a, cs, k, Some(path))
    case None => Read(disk, path)
    case Some(j) => cs.operations[j].replacement
  }

  /** The hash that operation `i` finds: recorded by the previous operation on its file, or of the file itself. */
  function Found(a: Adapter, cs: ChangeSet, i: nat, disk: Disk): Option<Hash>
    requires i < |cs.operations|
  {
    match Previous(a, cs, i)
    case Some(j) => cs.operations[j].after
    case None => if PathAt(a, cs, i).Some? then HashOf(a, Read(disk, PathAt(a, cs, i).value)) else None
  }

  /** The operation expects what it will find, and says truly what it will make of it. */
  predicate ReadyAt(a: Adapter, cs: ChangeSet, i: nat, disk: Disk)
    requires i < |cs.operations|
  {
    var op := cs.operations[i];
    && !op.kind.DeleteFile?
    && PathAt(a, cs, i).Some?
    && op.expected == Found(a, cs, i, disk)
    && op.replacement.Some?
    && op.after == HashOf(a, op.replacement)
  }

  /** The file as it was before operation `i` is in the operation's backup. */
  ghost predicate BackedUp(a: Adapter, cs: ChangeSet, i: nat, disk: Disk, now: Disk)
    requires i < |cs.operations|
  {
    && PathAt(a, cs, i).Some?
    && var path := PathAt(a, cs, i).value;
       var before := ContentAt(a, cs, i, disk, path);
       before.Some? ==>
         BackupName(cs.id, i, path) in now.backups && now.backups[BackupName(cs.id, i, path)] == before.value
  }

  ghost predicate NamedBefore(a: Adapter, cs: ChangeSet, k: nat, name: string)
    requires k <= |cs.operations|
  {
    exists i :: 0 <= i < k && NameAt(a, cs, i) == Some(name)
  }

  ghost predicate SameBackup(disk: Disk, now: Disk, name: string) {
    (name in now.backups <==> name in disk.backups)
      && (name in disk.backups ==> now.backups[name] == disk.backups[name])
  }

  ghost predicate ContentsAre(a: Adapter, cs: ChangeSet, k: nat, disk: Disk, now: Disk)
    requires k <= |cs.operations|
  {
    forall path :: Read(now, path) == ContentAt(a, cs, k, disk, path)
  }

  ghost predicate BackupsAre(a: Adapter, cs: ChangeSet, k: nat, disk: Disk, now: Disk)
    requires k <= |cs.operations|
  {
    && (forall i :: 0 <= i < k ==> BackedUp(a, cs, i, disk, now))
    && (forall name :: !NamedBefore(a, cs, k, name) ==> SameBackup(disk, now, name))
  }

  /** The first `k` operations have been applied: every file, every backup, and nothing else has changed. */
  ghost predicate AppliedUpTo(a: Adapter, cs: ChangeSet, k: nat, disk: Disk, now: Disk)
    requires k <= |cs.operations|
  {
    && (forall i :: 0 <= i < k ==> ReadyAt(a, cs, i, disk))
    && ContentsAre(a, cs, k, disk, now)
    && BackupsAre(a, cs, k, disk, now)
  }

  /** The file is as the operation expects, and the operation says truly what it will make of it. */
  predicate Ready(a: Adapter, op: Operation, disk: Disk) {
    && !op.kind.DeleteFile?
    && a.resolve(op.target).Some?
    && op.expected == HashOf(a, Read(disk, a.resolve(op.target).value))
    && op.replacement.Some?
    && op.after == HashOf(a, op.replacement)
  }

  lemma ReadyAdvances(a: Adapter, id: string, k: nat, op: Operation, disk: Disk)
    ensures ApplyOne(a, id, k, op, disk).Advanced? <==> Ready(a, op, disk)
    ensures ApplyOne(a, id, k, op, disk).Stopped? ==> !IsApplied(ApplyOne(a, id, k, op, disk).result.outcome)
    ensures Ready(a, op, disk) ==>
              var path, next := a.resolve(op.target).value, ApplyOne(a, id, k, op, disk).disk;
              && Read(next, path) == op.replacement
              && (forall q :: q != path ==> Read(next, q) == Read(disk, q))
              && (path in disk.files ==> BackupName(id, k, path) in next.backups
                                         && next.backups[BackupName(id, k, path)] == disk.files[path])
              && (forall name :: name != BackupName(id, k, path) ==> SameBackup(disk, next, name))
  {
  }

  /** What an operation finds is what the operations before it have recorded. */
  lemma FoundIsThere(a: Adapter, cs: ChangeSet, k: nat, disk: Disk, now: Disk)
    requires k < |cs.operations| && AppliedUpTo(a, cs, k, disk, now)
    ensures Ready(a, cs.operations[k], now) <==> ReadyAt(a, cs, k, disk)
  {
    if PathAt(a, cs, k).Some? {
      var path := PathAt(a, cs, k).value;
      assert Read(now, path) == ContentAt(a, cs, k, disk, path);
      match Previous(a, cs, k)
      case None =>
      case Some(j) => assert ReadyAt(a, cs, j, disk);
    }
  }

  lemma ContentNext(a: Adapter, cs: ChangeSet, k: nat, disk: Disk, now: Disk)
    requires k < |cs.operations| && ContentsAre(a, cs, k, disk, now) && Ready(a, cs.operations[k], now)
    ensures ContentsAre(a, cs, k + 1, disk, ApplyOne(a, cs.id, k, cs.operations[k], now).disk)
  {
    var next := ApplyOne(a, cs.id, k, cs.operations[k], now).disk;
    ReadyAdvances(a, cs.id, k, cs.operations[k], now);
    forall path ensures Read(next, path) == ContentAt(a, cs, k + 1, disk, path) {
      assert Read(now, path) == ContentAt(a, cs, k, disk, path);
    }
  }

  /** A later backup never overwrites an earlier one. */
  lemma BackupStays(a: Adapter, cs: ChangeSet, k: nat, i: nat, disk: Disk, now: Disk)
    requires i < k < |cs.operations| && BackedUp(a, cs, i, disk, now) && Ready(a, cs.operations[k], now)
    ensures BackedUp(a, cs, i, disk, ApplyOne(a, cs.id, k, cs.operations[k], now).disk)
  {
    ReadyAdvances(a, cs.id, k, cs.operations[k], now);
    var p, q := PathAt(a, cs, i).value, PathAt(a, cs, k).value;
    if BackupName(cs.id, i, p) == BackupName(cs.id, k, q) {
      BackupNamesDistinct(cs.id, i, k, p, q);
    } else {
      assert SameBackup(now, ApplyOne(a, cs.id, k, cs.operations[k], now).disk, BackupName(cs.id, i, p));
    }
  }

  lemma BackupsNext(a: Adapter, cs: ChangeSet, k: nat, disk: Disk, now: Disk)
    requires k < |cs.operations| && ContentsAre(a, cs, k, disk, now) && BackupsAre(a, cs, k, disk, now)
    requires Ready(a, cs.operations[k], now)
    ensures BackupsAre(a, cs, k + 1, disk, ApplyOne(a, cs.id, k, cs.operations[k], now).disk)
  {
    var next, path := ApplyOne(a, cs.id, k, cs.operations[k], now).disk, PathAt(a, cs, k).value;
    ReadyAdvances(a, cs.id, k, cs.operations[k], now);
    forall i | 0 <= i < k + 1 ensures BackedUp(a, cs, i, disk, next) {
      if i < k {
        BackupStays(a, cs, k, i, disk, now);
      } else {
        assert Read(now, path) == ContentAt(a, cs, k, disk, path);
      }
    }
    forall name | !NamedBefore(a, cs, k + 1, name) ensures SameBackup(disk, next, name) {
      assert NameAt(a, cs, k) == Some(BackupName(cs.id, k, path)) != Some(name);
      assert !NamedBefore(a, cs, k, name) && SameBackup(disk, now, name) && SameBackup(now, next, name);
    }
  }

  lemma {:induction false} ApplyFromUpTo(a: Adapter, cs: ChangeSet, k: nat, disk: Disk, now: Disk, receipt: Receipt)
    requires k <= |cs.operations| && AppliedUpTo(a, cs, k, disk, now) && receipt.status.Applied?
    ensures var r := ApplyFrom(a, cs, k, now, receipt);
            && (IsApplied(r.outcome) <==> forall i :: k <= i < |cs.operations| ==> ReadyAt(a, cs, i, disk))
            && (IsApplied(r.outcome) ==> AppliedUpTo(a, cs, |cs.operations|, disk, r.disk))
    decreases |cs.operations| - k
  {
    if k == |cs.operations| {
    } else {
      ReadyAdvances(a, cs.id, k, cs.operations[k], now);
      FoundIsThere(a, cs, k, disk, now);
      match ApplyOne(a, cs.id, k, cs.operations[k], now)
      case Stopped(result) =>
      case Advanced(next, backup, before, after) =>
        ContentNext(a, cs, k, disk, now);
        BackupsNext(a, cs, k, disk, now);
        ApplyFromUpTo(a, cs, k + 1, disk, next, Extended(receipt, backup, before, after));
    }
  }

  lemma NothingAppliedYet(a: Adapter, cs: ChangeSet, disk: Disk)
    ensures AppliedUpTo(a, cs, 0, disk, disk)
  {
  }

  /**
   A change set is applied exactly when every operation is valid and expects what it will find: what the
   operation before it on the same file says it leaves, or else the content there. Then every file holds
   the last replacement made for it, every operation that replaced a content has a backup of it, and
   nothing else has changed.
   */
  lemma AppliedExactlyWhenReady(a: Adapter, cs: ChangeSet, disk: Disk)
    ensures IsApplied(Apply(a, cs, disk).outcome) <==>
            && cs.operations != []
            && forall i :: 0 <= i < |cs.operations| ==> ValidOperation(a, cs.operations[i]) && ReadyAt(a, cs, i, disk)
    ensures IsApplied(Apply(a, cs, disk).outcome) ==>
              AppliedUpTo(a, cs, |cs.operations|, disk, Apply(a, cs, disk).disk)
  {
    NothingAppliedYet(a, cs, disk);
    ApplyFromUpTo(a, cs, 0, disk, disk, Receipt(Applied, [], [], []));
  }

  // ---------- roll back ----------

  predicate IsRolledBack(outcome: Outcome) {
    outcome.Done? && outcome.receipt.status.RolledBack?
  }

  /** What the file of operation `i` held before it, according to its backup. */
  function SavedAt(a: Adapter, cs: ChangeSet, i: nat, disk: Disk): Option<string>
    requires i < |cs.operations|
  {
    var name := NameAt(a, cs, i);
    if cs.operations[i].before.Some? && name.Some? && name.value in disk.backups then
      Some(disk.backups[name.value])
    else None
  }

  /** What the file holds when the first `k` operations have been rolled back. */
  function UndoneAt(a: Adapter, cs: ChangeSet, k: nat, disk: Disk, path: Path): Option<string>
    requires k <= |cs.operations|
  {
    match LastOn(a, cs, k, Some(path))
    case None => Read(disk, path)
    case Some(j) => SavedAt(a, cs, j, disk)
  }

  /**
   The hash that rolling back operation `i` meets: the one that the previous operation on its file was undone
   to, or of the file itself.
   */
  function Met(a: Adapter, cs: ChangeSet, i: nat, disk: Disk): Option<Hash>
    requires i < |cs.operations|
  {
    match Previous(a, cs, i)
    case Some(j) => cs.operations[j].before
    case None => if PathAt(a, cs, i).Some? then HashOf(a, Read(disk, PathAt(a, cs, i).value)) else None
  }

  /** The operation's backup, if it needs one, is there and true. */
  predicate BackupTrue(a: Adapter, cs: ChangeSet, i: nat, disk: Disk)
    requires i < |cs.operations|
  {
    cs.operations[i].before.Some? ==>
      && NameAt(a, cs, i).Some? && NameAt(a, cs, i).value in disk.backups
      && a.hash(disk.backups[NameAt(a, cs, i).value]) == cs.operations[i].before.value
  }

  predicate RestorableAt(a: Adapter, cs: ChangeSet, i: nat, disk: Disk)
    requires i < |cs.operations|
  {
    PathAt(a, cs, i).Some? && cs.operations[i].after == Met(a, cs, i, disk) && BackupTrue(a, cs, i, disk)
  }

  ghost predicate UndoneUpTo(a: Adapter, cs: ChangeSet, k: nat, disk: Disk, now: Disk)
    requires k <= |cs.operations|
  {
    && now.backups == disk.backups
    && (forall i :: 0 <= i < k ==> RestorableAt(a, cs, i, disk))
    && (forall path :: Read(now, path) == UndoneAt(a, cs, k, disk, path))
  }

  /** The file is as the operation left it, and its backup is there and true. */
  predicate Restorable(a: Adapter, id: string, i: nat, op: Operation, disk: Disk) {
    && a.resolve(op.target).Some?
    && var path := a.resolve(op.target).value;
       && op.after == HashOf(a, Read(disk, path))
       && (op.before.Some? ==> BackupName(id, i, path) in disk.backups
                               && a.hash(disk.backups[BackupName(id, i, path)]) == op.before.value)
  }

  lemma RestorableAdvances(a: Adapter, id: string, k: nat, op: Operation, disk: Disk)
    ensures RollbackOne(a, id, k, op, disk).Advanced? <==> Restorable(a, id, k, op, disk)
    ensures RollbackOne(a, id, k, op, disk).Stopped? ==> !IsRolledBack(RollbackOne(a, id, k, op, disk).result.outcome)
    ensures Restorable(a, id, k, op, disk) ==>
              var path, next := a.resolve(op.target).value, RollbackOne(a, id, k, op, disk).disk;
              && next.backups == disk.backups
              && Read(next, path) == (if op.before.Some? then Some(disk.backups[BackupName(id, k, path)]) else None)
              && forall q :: q != path ==> Read(next, q) == Read(disk, q)
  {
  }

  lemma MetIsThere(a: Adapter, cs: ChangeSet, k: nat, disk: Disk, now: Disk)
    requires k < |cs.operations| && UndoneUpTo(a, cs, k, disk, now)
    ensures Restorable(a, cs.id, k, cs.operations[k], now) <==> RestorableAt(a, cs, k, disk)
  {
    if PathAt(a, cs, k).Some? {
      var path := PathAt(a, cs, k).value;
      assert Read(now, path) == UndoneAt(a, cs, k, disk, path);
      match Previous(a, cs, k)
      case None =>
      case Some(j) => assert RestorableAt(a, cs, j, disk);
    }
  }

  lemma UndoneNext(a: Adapter, cs: ChangeSet, k: nat, disk: Disk, now: Disk)
    requires k < |cs.operations| && UndoneUpTo(a, cs, k, disk, now) && RestorableAt(a, cs, k, disk)
    requires Restorable(a, cs.id, k, cs.operations[k], now)
    ensures UndoneUpTo(a, cs, k + 1, disk, RollbackOne(a, cs.id, k, cs.operations[k], now).disk)
  {
    var next := RollbackOne(a, cs.id, k, cs.operations[k], now).disk;
    RestorableAdvances(a, cs.id, k, cs.operations[k], now);
    forall path ensures Read(next, path) == UndoneAt(a, cs, k + 1, disk, path) {
      assert Read(now, path) == UndoneAt(a, cs, k, disk, path);
    }
  }

  lemma {:induction false} RollbackFromUpTo(a: Adapter, cs: ChangeSet, k: nat, disk: Disk, now: Disk, receipt: Receipt)
    requires k <= |cs.operations| && UndoneUpTo(a, cs, k, disk, now) && receipt.status.RolledBack?
    ensures var r := RollbackFrom(a, cs, k, now, receipt);
            && (IsRolledBack(r.outcome) <==> forall i :: k <= i < |cs.operations| ==> RestorableAt(a, cs, i, disk))
            && (IsRolledBack(r.outcome) ==> UndoneUpTo(a, cs, |cs.operations|, disk, r.disk))
    decreases |cs.operations| - k
  {
    if k == |cs.operations| {
    } else {
      RestorableAdvances(a, cs.id, k, cs.operations[k], now);
      MetIsThere(a, cs, k, disk, now);
      match RollbackOne(a, cs.id, k, cs.operations[k], now)
      case Stopped(result) =>
      case Advanced(next, backup, before, after) =>
        UndoneNext(a, cs, k, disk, now);
        RollbackFromUpTo(a, cs, k + 1, disk, next, Extended(receipt, backup, before, after));
    }
  }

  lemma NothingUndoneYet(a: Adapter, cs: ChangeSet, disk: Disk)
    ensures UndoneUpTo(a, cs, 0, disk, disk)
  {
  }

  /**
   A change set is rolled back exactly when every operation meets the hash it left and every needed
   backup is true; a file named again is met as the operation before was undone to. Then every file
   holds what the last backup made of it holds, and the backups are untouched.
   */
  lemma RolledBackExactlyWhenRestorable(a: Adapter, cs: ChangeSet, disk: Disk)
    ensures IsRolledBack(Rollback(a, cs, disk).outcome) <==>
            cs.operations != [] && forall i :: 0 <= i < |cs.operations| ==> RestorableAt(a, cs, i, disk)
    ensures IsRolledBack(Rollback(a, cs, disk).outcome) ==>
              UndoneUpTo(a, cs, |cs.operations|, disk, Rollback(a, cs, disk).disk)
  {
    NothingUndoneYet(a, cs, disk);
    RollbackFromUpTo(a, cs, 0, disk, disk, Receipt(RolledBack, [], [], []));
  }
}
