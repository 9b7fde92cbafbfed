/** What apply and rollback guarantee together, for change sets of any length. */
module SafeChangeProofs {
  import opened Sequences
  import opened Redaction
  import opened RedactionProofs
  import opened SafeChange
  import opened SafeChangeEffects
  import opened Text

  // ---------- round trip ----------

  /** As a proposal builds them: the expected content is the recorded previous content. */
  ghost predicate Proposed(cs: ChangeSet) {
    forall i :: 0 <= i < |cs.operations| ==> cs.operations[i].expected == cs.operations[i].before
  }

  lemma SameReads(a: Disk, b: Disk)
    requires forall path :: Read(a, path) == Read(b, path)
    ensures a.files == b.files
  {
    forall path ensures path in a.files <==> path in b.files {
      assert Read(a, path) == Read(b, path);
    }
    forall path | path in a.files ensures a.files[path] == b.files[path] {
      assert Read(a, path) == Read(b, path);
    }
  }

  /** The hash that rolling back operation `i` of an applied change set meets, as the change set records it. */
  function Recorded(a: Adapter, cs: ChangeSet, i: nat): Option<Hash>
    requires i < |cs.operations|
  {
    match Previous(a, cs, i)
    case Some(j) => cs.operations[j].before
    case None =>
      var last := LastOn(a, cs, |cs.operations|, PathAt(a, cs, i));
      cs.operations[last.value].after
  }

  ghost predicate Undoable(a: Adapter, cs: ChangeSet) {
    forall i :: 0 <= i < |cs.operations| ==> cs.operations[i].after == Recorded(a, cs, i)
  }

  /** What a rollback leaves in a file: what it held before the last operation on it. */
  function LeftContent(a: Adapter, cs: ChangeSet, disk: Disk, path: Path): Option<string> {
    match LastOn(a, cs, |cs.operations|, Some(path))
    case None => Read(disk, path)
    case Some(j) => ContentAt(a, cs, j, disk, path)
  }

  /** Every backup that a rollback of an applied change set needs is there and true. */
  lemma BackupsTrue(a: Adapter, cs: ChangeSet, disk: Disk, middle: Disk, i: nat)
    requires i < |cs.operations| && Proposed(cs) && AppliedUpTo(a, cs, |cs.operations|, disk, middle)
    ensures PathAt(a, cs, i).Some? && BackupTrue(a, cs, i, middle)
    ensures SavedAt(a, cs, i, middle) == ContentAt(a, cs, i, disk, PathAt(a, cs, i).value)
  {
    assert ReadyAt(a, cs, i, disk) && BackedUp(a, cs, i, disk, middle);
    match Previous(a, cs, i)
    case None =>
    case Some(j) => assert ReadyAt(a, cs, j, disk);
  }

  /** What the rollback meets is what is recorded. */
  lemma MetIsRecorded(a: Adapter, cs: ChangeSet, disk: Disk, middle: Disk, i: nat)
    requires i < |cs.operations| && Proposed(cs) && AppliedUpTo(a, cs, |cs.operations|, disk, middle)
    ensures PathAt(a, cs, i).Some? && Met(a, cs, i, middle) == Recorded(a, cs, i)
  {
    assert ReadyAt(a, cs, i, disk);
    if Previous(a, cs, i).None? {
      var path := PathAt(a, cs, i).value;
      var last := LastOn(a, cs, |cs.operations|, Some(path));
      assert Read(middle, path) == ContentAt(a, cs, |cs.operations|, disk, path);
      assert ReadyAt(a, cs, last.value, disk);
    }
  }

  /**
   Rolling an applied change set back goes through exactly when every operation's new hash is the one
   recorded where the rollback will meet it: as the old hash of the operation before it on the same file,
   or, for the first on a file, as the new hash of the last. It then leaves in every file what it held
   before the last operation on it. Files may be named any number of times.
   */
  lemma RollbackOfApplied(a: Adapter, cs: ChangeSet, disk: Disk)
    requires Proposed(cs) && IsApplied(Apply(a, cs, disk).outcome)
    ensures var r := Rollback(a, cs, Apply(a, cs, disk).disk);
            && (IsRolledBack(r.outcome) <==> Undoable(a, cs))
            && (IsRolledBack(r.outcome) ==> forall path :: Read(r.disk, path) == LeftContent(a, cs, disk, path))
  {
    var middle := Apply(a, cs, disk).disk;
    AppliedExactlyWhenReady(a, cs, disk);
    RolledBackExactlyWhenRestorable(a, cs, middle);
    forall i | 0 <= i < |cs.operations|
      ensures RestorableAt(a, cs, i, middle) <==> cs.operations[i].after == Recorded(a, cs, i)
    {
      BackupsTrue(a, cs, disk, middle, i);
      MetIsRecorded(a, cs, disk, middle, i);
    }
    if IsRolledBack(Rollback(a, cs, middle).outcome) {
      UndoneIsLeft(a, cs, disk, middle, Rollback(a, cs, middle).disk);
    }
  }

  lemma UndoneIsLeft(a: Adapter, cs: ChangeSet, disk: Disk, middle: Disk, end: Disk)
    requires Proposed(cs) && AppliedUpTo(a, cs, |cs.operations|, disk, middle)
    requires UndoneUpTo(a, cs, |cs.operations|, middle, end)
    ensures forall path :: Read(end, path) == LeftContent(a, cs, disk, path)
  {
    forall path ensures Read(end, path) == LeftContent(a, cs, disk, path) {
      assert Read(end, path) == UndoneAt(a, cs, |cs.operations|, middle, path);
      match LastOn(a, cs, |cs.operations|, Some(path))
      case None => assert Read(middle, path) == ContentAt(a, cs, |cs.operations|, disk, path);
      case Some(j) => BackupsTrue(a, cs, disk, middle, j);
    }
  }

  /** Before its last operation, every file that is named again holds its original content. */
  ghost predicate LastStartsFromOriginal(a: Adapter, cs: ChangeSet, disk: Disk) {
    forall j :: 0 <= j < |cs.operations| ==> StartsFromOriginal(a, cs, disk, j)
  }

  ghost predicate StartsFromOriginal(a: Adapter, cs: ChangeSet, disk: Disk, j: nat)
    requires j < |cs.operations|
  {
    && PathAt(a, cs, j).Some?
    && LastOn(a, cs, |cs.operations|, PathAt(a, cs, j)) == Some(j)
    && Previous(a, cs, j).Some? ==>
      cs.operations[Previous(a, cs, j).value].replacement == Read(disk, PathAt(a, cs, j).value)
  }

  /**
   A rollback restores every file of an applied change set exactly when it goes through and no repeated file
   differs before its last operation.
   */
  lemma RollbackRestoresExactly(a: Adapter, cs: ChangeSet, disk: Disk)
    requires Proposed(cs) && IsApplied(Apply(a, cs, disk).outcome)
    ensures var r := Rollback(a, cs, Apply(a, cs, disk).disk);
            IsRolledBack(r.outcome) && r.disk.files == disk.files <==>
            Undoable(a, cs) && LastStartsFromOriginal(a, cs, disk)
  {
    RollbackOfApplied(a, cs, disk);
    var end := Rollback(a, cs, Apply(a, cs, disk).disk).disk;
    if Undoable(a, cs) {
      if LastStartsFromOriginal(a, cs, disk) {
        forall path ensures Read(end, path) == Read(disk, path) {
          LeftIsOriginal(a, cs, disk, path);
        }
        SameReads(end, disk);
      }
      if end.files == disk.files {
        forall j | 0 <= j < |cs.operations| ensures StartsFromOriginal(a, cs, disk, j) {
          if PathAt(a, cs, j).Some? {
            var path := PathAt(a, cs, j).value;
            assert Read(end, path) == LeftContent(a, cs, disk, path) && Read(end, path) == Read(disk, path);
          }
        }
      }
    }
  }

  lemma LeftIsOriginal(a: Adapter, cs: ChangeSet, disk: Disk, path: Path)
    requires LastStartsFromOriginal(a, cs, disk)
    ensures LeftContent(a, cs, disk, path) == Read(disk, path)
  {
    match LastOn(a, cs, |cs.operations|, Some(path))
    case None =>
    case Some(j) => assert StartsFromOriginal(a, cs, disk, j);
  }

  // ---------- distinct files ----------

  ghost predicate DistinctPaths(a: Adapter, cs: ChangeSet) {
    forall i, j :: 0 <= i < j < |cs.operations| && PathAt(a, cs, i).Some? ==> PathAt(a, cs, i) != PathAt(a, cs, j)
  }

  lemma DistinctOrder(a: Adapter, cs: ChangeSet, i: nat)
    requires DistinctPaths(a, cs) && i < |cs.operations| && PathAt(a, cs, i).Some?
    ensures Previous(a, cs, i).None? && LastOn(a, cs, |cs.operations|, PathAt(a, cs, i)) == Some(i)
    ensures Recorded(a, cs, i) == cs.operations[i].after
  {
    var last := LastOn(a, cs, |cs.operations|, PathAt(a, cs, i));
    assert last.Some? && PathAt(a, cs, last.value) == PathAt(a, cs, i);
    assert last.value == i;
  }

  lemma DistinctIsUndoable(a: Adapter, cs: ChangeSet, disk: Disk)
    requires DistinctPaths(a, cs) && forall i :: 0 <= i < |cs.operations| ==> PathAt(a, cs, i).Some?
    ensures Undoable(a, cs) && LastStartsFromOriginal(a, cs, disk)
  {
    forall i | 0 <= i < |cs.operations|
      ensures cs.operations[i].after == Recorded(a, cs, i) && StartsFromOriginal(a, cs, disk, i)
    {
      DistinctOrder(a, cs, i);
    }
  }

  /** Rolling an applied change set on distinct files back restores every file, and removes those it created. */
  lemma RollbackRestoresAll(a: Adapter, cs: ChangeSet, disk: Disk)
    requires DistinctPaths(a, cs) && Proposed(cs) && IsApplied(Apply(a, cs, disk).outcome)
    ensures var r := Rollback(a, cs, Apply(a, cs, disk).disk);
            IsRolledBack(r.outcome) && r.disk.files == disk.files
  {
    AppliedExactlyWhenReady(a, cs, disk);
    forall i | 0 <= i < |cs.operations| ensures PathAt(a, cs, i).Some? {
      assert ReadyAt(a, cs, i, disk);
    }
    DistinctIsUndoable(a, cs, disk);
    RollbackRestoresExactly(a, cs, disk);
  }

  /** A proposal applies as long as the file's hash has not changed, and can then be rolled back completely. */
  lemma ProposalRoundTrip(a: Adapter, id: string, request: ChangeRequest, seen: Disk, disk: Disk)
    requires Propose(a, id, request, seen).Some?
    ensures var cs := Propose(a, id, request, seen).value;
            var path := a.resolve(request.target).value;
            && a.resolve(request.target).Some?
            && (IsApplied(Apply(a, cs, disk).outcome) <==> HashOf(a, Read(disk, path)) == HashOf(a, Read(seen, path)))
            && (IsApplied(Apply(a, cs, disk).outcome) ==>
                  && Read(Apply(a, cs, disk).disk, path) == request.replacement
                  && IsRolledBack(Rollback(a, cs, Apply(a, cs, disk).disk).outcome)
                  && Rollback(a, cs, Apply(a, cs, disk).disk).disk.files == disk.files)
  {
    var cs := Propose(a, id, request, seen).value;
    AppliedExactlyWhenReady(a, cs, disk);
    assert cs.operations[0] == cs.operations[|cs.operations| - 1];
    assert Previous(a, cs, 0).None?;
    if IsApplied(Apply(a, cs, disk).outcome) {
      var path := a.resolve(request.target).value;
      assert Read(Apply(a, cs, disk).disk, path) == ContentAt(a, cs, 1, disk, path);
      RollbackRestoresAll(a, cs, disk);
    }
  }

  /**
   What a proposal says: one operation, to create a missing file or replace a present one, from the hash of
   the content seen to the hash of a replacement that shows no secret.
   */
  lemma ProposalSays(a: Adapter, id: string, request: ChangeRequest, seen: Disk)
    requires Propose(a, id, request, seen).Some?
    ensures var cs := Propose(a, id, request, seen).value;
            && cs.id == id && |cs.operations| == 1 && Proposed(cs)
            && var op := cs.operations[0];
               && op.target == request.target && a.resolve(op.target).Some?
               && var path := a.resolve(op.target).value;
                  && a.writable(path)
                  && (op.kind == if path in seen.files then ReplaceText else CreateText)
                  && op.before == HashOf(a, Read(seen, path))
                  && request.expected in {None, op.before}
                  && op.replacement == request.replacement && op.replacement.Some?
                  && op.after == HashOf(a, op.replacement)
                  && KeysClean(KEYS, op.replacement.value) && NoBearer(op.replacement.value)
  {
    UnchangedExactlyWhenClean(request.replacement.value);
  }

  /**
   A change is proposed exactly when the target may be written, nothing is deleted, the file is as
   expected, and the replacement is small, shows no secret and is well formed.
   */
  lemma ProposedExactlyWhen(a: Adapter, id: string, request: ChangeRequest, seen: Disk)
    ensures Propose(a, id, request, seen).Some? <==>
            && request.providerId == "codex" && !Blank(request.hostId)
            && a.resolve(request.target).Some? && a.writable(a.resolve(request.target).value)
            && !request.kind.DeleteFile?
            && request.expected in {None, HashOf(a, Read(seen, a.resolve(request.target).value))}
            && request.replacement.Some? && |request.replacement.value| <= 1_000_000
            && KeysClean(KEYS, request.replacement.value) && NoBearer(request.replacement.value)
            && a.wellFormed(a.resolve(request.target).value, request.replacement.value)
  {
    if request.replacement.Some? {
      UnchangedExactlyWhenClean(request.replacement.value);
    }
  }

  // ---------- receipts ----------

  function ExpectedHash(op: Operation): Option<Hash> {
    op.expected
  }

  function BeforeHash(op: Operation): Option<Hash> {
    op.before
  }

  function AfterHash(op: Operation): Option<Hash> {
    op.after
  }

  /** The hashes that the operations from `k` on name, in order. */
  function Hashes(cs: ChangeSet, k: nat, hash: Operation -> Option<Hash>): seq<Hash>
    requires k <= |cs.operations|
    decreases |cs.operations| - k
  {
    if k == |cs.operations| then [] else Listed(hash(cs.operations[k])) + Hashes(cs, k + 1, hash)
  }

  /** The backups of the operations from `k` on that replace a file, in order. */
  function Backups(a: Adapter, cs: ChangeSet, k: nat): seq<string>
    requires k <= |cs.operations|
    decreases |cs.operations| - k
  {
    if k == |cs.operations| then []
    else
      var op := cs.operations[k];
      var path := a.resolve(op.target);
      (if op.expected.Some? && path.Some? then [BackupName(cs.id, k, path.value)] else []) + Backups(a, cs, k + 1)
  }

  lemma {:induction false} ApplyFromReceipt(a: Adapter, cs: ChangeSet, k: nat, disk: Disk, receipt: Receipt)
    requires k <= |cs.operations| && IsApplied(ApplyFrom(a, cs, k, disk, receipt).outcome)
    ensures var r := ApplyFrom(a, cs, k, disk, receipt).outcome.receipt;
            && r.before == receipt.before + Hashes(cs, k, ExpectedHash)
            && r.after == receipt.after + Hashes(cs, k, AfterHash)
            && r.backups == receipt.backups + Backups(a, cs, k)
    decreases |cs.operations| - k
  {
    if k == |cs.operations| {
    } else {
      var op := cs.operations[k];
      ReadyAdvances(a, cs.id, k, op, disk);
      match ApplyOne(a, cs.id, k, op, disk)
      case Stopped(result) =>
      case Advanced(next, backup, before, after) =>
        ApplyFromReceipt(a, cs, k + 1, next, Extended(receipt, backup, before, after));
        Associative(receipt.before, Listed(before), Hashes(cs, k + 1, ExpectedHash));
        Associative(receipt.after, Listed(after), Hashes(cs, k + 1, AfterHash));
        Associative(receipt.backups, Listed(backup), Backups(a, cs, k + 1));
    }
  }

  lemma {:induction false} RollbackFromReceipt(a: Adapter, cs: ChangeSet, k: nat, disk: Disk, receipt: Receipt)
    requires k <= |cs.operations| && IsRolledBack(RollbackFrom(a, cs, k, disk, receipt).outcome)
    ensures var r := RollbackFrom(a, cs, k, disk, receipt).outcome.receipt;
            && r.before == receipt.before + Hashes(cs, k, AfterHash)
            && r.after == receipt.after + Hashes(cs, k, BeforeHash)
    decreases |cs.operations| - k
  {
    if k == |cs.operations| {
    } else {
      RestorableAdvances(a, cs.id, k, cs.operations[k], disk);
      match RollbackOne(a, cs.id, k, cs.operations[k], disk)
      case Stopped(result) =>
      case Advanced(next, backup, before, after) =>
        RollbackFromReceipt(a, cs, k + 1, next, Extended(receipt, backup, before, after));
        Associative(receipt.before, Listed(before), Hashes(cs, k + 1, AfterHash));
        Associative(receipt.after, Listed(after), Hashes(cs, k + 1, BeforeHash));
    }
  }

  /** The receipt of an applied change names every replaced content, every new content and every backup, in order. */
  lemma AppliedReceipt(a: Adapter, cs: ChangeSet, disk: Disk)
    requires IsApplied(Apply(a, cs, disk).outcome)
    ensures Apply(a, cs, disk).outcome.receipt ==
            Receipt(Applied, Backups(a, cs, 0), Hashes(cs, 0, ExpectedHash), Hashes(cs, 0, AfterHash))
  {
    ApplyFromReceipt(a, cs, 0, disk, Receipt(Applied, [], [], []));
  }

  lemma {:induction false} SameHashes(cs: ChangeSet, k: nat)
    requires Proposed(cs) && k <= |cs.operations|
    ensures Hashes(cs, k, ExpectedHash) == Hashes(cs, k, BeforeHash)
    decreases |cs.operations| - k
  {
    if k == |cs.operations| {
    } else {
      SameHashes(cs, k + 1);
    }
  }

  /** The receipts of a change and of its rollback mirror each other. */
  lemma ReceiptsMirror(a: Adapter, cs: ChangeSet, disk: Disk, later: Disk)
    requires Proposed(cs) && IsApplied(Apply(a, cs, disk).outcome) && IsRolledBack(Rollback(a, cs, later).outcome)
    ensures Rollback(a, cs, later).outcome.receipt.before == Apply(a, cs, disk).outcome.receipt.after
    ensures Rollback(a, cs, later).outcome.receipt.after == Apply(a, cs, disk).outcome.receipt.before
  {
    AppliedReceipt(a, cs, disk);
    RollbackFromReceipt(a, cs, 0, later, Receipt(RolledBack, [], [], []));
    SameHashes(cs, 0);
  }

  // ---------- conflicts ----------

  function Truncated(cs: ChangeSet, m: nat): ChangeSet
    requires m <= |cs.operations|
  {
    cs.(operations := cs.operations[..m])
  }

  predicate IsConflict(outcome: Outcome) {
    outcome.Done? && outcome.receipt.status.Conflict?
  }

  lemma {:induction false} ConflictFrom(a: Adapter, cs: ChangeSet, k: nat, disk: Disk, receipt: Receipt)
    returns (m: nat)
    requires k <= |cs.operations| && receipt.status.Applied? && IsConflict(ApplyFrom(a, cs, k, disk, receipt).outcome)
    ensures k <= m < |cs.operations|
    ensures var r := ApplyFrom(a, Truncated(cs, m), k, disk, receipt);
            && IsApplied(r.outcome)
            && r.disk == ApplyFrom(a, cs, k, disk, receipt).disk
            && a.resolve(cs.operations[m].target).Some?
            && cs.operations[m].expected != HashOf(a, Read(r.disk, a.resolve(cs.operations[m].target).value))
    decreases |cs.operations| - k
  {
    match ApplyOne(a, cs.id, k, cs.operations[k], disk)
    case Stopped(result) =>
      m := k;
    case Advanced(next, backup, before, after) =>
      m := ConflictFrom(a, cs, k + 1, next, Extended(receipt, backup, before, after));
      assert Truncated(cs, m).operations[k] == cs.operations[k];
  }

  /**
   A conflict at operation `m` leaves exactly what applying the operations before it leaves, and it is
   the first whose file is not as expected then. Distinct files are not needed for this.
   */
  lemma ConflictLeavesPrefix(a: Adapter, cs: ChangeSet, disk: Disk) returns (m: nat)
    requires IsConflict(Apply(a, cs, disk).outcome)
    ensures m < |cs.operations|
    ensures var end := Apply(a, cs, disk).disk;
            && (if m == 0 then end == disk
                else
                  && IsApplied(Apply(a, Truncated(cs, m), disk).outcome)
                  && Apply(a, Truncated(cs, m), disk).disk == end)
            && a.resolve(cs.operations[m].target).Some?
            && cs.operations[m].expected != HashOf(a, Read(end, a.resolve(cs.operations[m].target).value))
  {
    m := ConflictFrom(a, cs, 0, disk, Receipt(Applied, [], [], []));
    assert forall op <- cs.operations[..m] :: op in cs.operations;
  }

  /** A set that does not pass validation changes no file, however many of its operations are valid. */
  lemma InvalidTouchesNothing(a: Adapter, cs: ChangeSet, disk: Disk, i: nat)
    requires i < |cs.operations| && !ValidOperation(a, cs.operations[i])
    ensures Apply(a, cs, disk) == Result(disk, Failed)
  {
    assert cs.operations[i] in cs.operations;
  }

  // ---------- runs interleaved with other writers ----------

  /** What can happen to the disk: a step of an apply or a rollback, or anything anybody else writes. */
  datatype Move =
    | ApplyStep(id: string, index: nat, op: Operation)
    | RollbackStep(id: string, index: nat, op: Operation)
    | ExternalWrite(path: Path, content: Option<string>)

  function StepDisk(step: Step): Disk {
    match step
    case Advanced(disk, _, _, _) => disk
    case Stopped(result) => result.disk
  }

  function Moved(a: Adapter, disk: Disk, move: Move): Disk {
    match move
    case ApplyStep(id, index, op) => StepDisk(ApplyOne(a, id, index, op, disk))
    case RollbackStep(id, index, op) => StepDisk(RollbackOne(a, id, index, op, disk))
    case ExternalWrite(path, content) =>
      disk.(files := if content.Some? then disk.files[path := content.value] else disk.files - {path})
  }

  function DiskAfter(a: Adapter, disk: Disk, moves: seq<Move>): Disk {
    if moves == [] then disk else Moved(a, DiskAfter(a, disk, moves[..|moves| - 1]), moves[|moves| - 1])
  }

  /** The adapter changes the content of `path` only where it is what the operation says it must be. */
  ghost predicate Guarded(a: Adapter, disk: Disk, move: Move, path: Path) {
    match move
    case ApplyStep(_, _, op) =>
      && a.resolve(op.target) == Some(path)
      && HashOf(a, Read(disk, path)) == op.expected
      && Read(Moved(a, disk, move), path) == op.replacement
    case RollbackStep(_, _, op) =>
      && a.resolve(op.target) == Some(path)
      && HashOf(a, Read(disk, path)) == op.after
      && HashOf(a, Read(Moved(a, disk, move), path)) == op.before
    case ExternalWrite(p, content) => p == path && Read(Moved(a, disk, move), path) == content
  }

  /** In every run, whatever others write in between, each change of a file's content is guarded at that moment. */
  lemma ChangesAreGuarded(a: Adapter, disk: Disk, moves: seq<Move>, n: nat, path: Path)
    requires n < |moves|
    ensures Read(DiskAfter(a, disk, moves[..n + 1]), path) != Read(DiskAfter(a, disk, moves[..n]), path) ==>
              Guarded(a, DiskAfter(a, disk, moves[..n]), moves[n], path)
  {
    assert moves[..n + 1][..n] == moves[..n];
    if moves[n].RollbackStep? {
      RestorableAdvances(a, moves[n].id, moves[n].index, moves[n].op, DiskAfter(a, disk, moves[..n]));
    }
  }

  // ---------- repeated files ----------

  ghost predicate OneFile(a: Adapter, cs: ChangeSet) {
    forall i :: 0 <= i < |cs.operations| ==> PathAt(a, cs, i) == PathAt(a, cs, 0)
  }

  lemma OneFileOrder(a: Adapter, cs: ChangeSet, i: nat)
    requires OneFile(a, cs) && i < |cs.operations|
    ensures Previous(a, cs, i) == if i == 0 then None else Some(i - 1)
    ensures LastOn(a, cs, |cs.operations|, PathAt(a, cs, i)) == Some(|cs.operations| - 1)
  {
    assert PathAt(a, cs, i) == PathAt(a, cs, 0) == PathAt(a, cs, |cs.operations| - 1);
    assert i > 0 ==> PathAt(a, cs, i - 1) == PathAt(a, cs, 0);
  }

  /** Every edit turns the content back that the edit before it made, the last the first. */
  ghost predicate GoesBack(cs: ChangeSet) {
    && (cs.operations != [] ==> cs.operations[0].after == cs.operations[|cs.operations| - 1].after)
    && forall i :: 0 <= i < |cs.operations| - 1 ==> cs.operations[i + 1].after == cs.operations[i].before
  }

  lemma OneFileUndoable(a: Adapter, cs: ChangeSet)
    requires OneFile(a, cs)
    ensures Undoable(a, cs) <==> GoesBack(cs)
  {
    forall i | 0 <= i < |cs.operations|
      ensures Recorded(a, cs, i) ==
              if i == 0 then cs.operations[|cs.operations| - 1].after else cs.operations[i - 1].before
    {
      OneFileOrder(a, cs, i);
    }
    if GoesBack(cs) {
      forall i | 0 <= i < |cs.operations| ensures cs.operations[i].after == Recorded(a, cs, i) {
        assert i > 0 ==> cs.operations[(i - 1) + 1].after == cs.operations[i - 1].before;
      }
    }
    if Undoable(a, cs) {
      forall i | 0 <= i < |cs.operations| - 1 ensures cs.operations[i + 1].after == cs.operations[i].before {
        assert cs.operations[i + 1].after == Recorded(a, cs, i + 1);
      }
    }
  }

  lemma OneFileLeft(a: Adapter, cs: ChangeSet, disk: Disk, path: Path)
    requires OneFile(a, cs) && cs.operations != [] && PathAt(a, cs, 0) == Some(path)
    ensures LeftContent(a, cs, disk, path) ==
            if |cs.operations| == 1 then Read(disk, path) else cs.operations[|cs.operations| - 2].replacement
  {
    OneFileOrder(a, cs, |cs.operations| - 1);
    assert PathAt(a, cs, |cs.operations| - 1) == PathAt(a, cs, 0);
  }

  /** Any number of edits of one file and nothing else. */
  lemma EditsOfOneFile(a: Adapter, cs: ChangeSet, disk: Disk)
    requires OneFile(a, cs) && Proposed(cs) && IsApplied(Apply(a, cs, disk).outcome)
    ensures cs.operations != [] && PathAt(a, cs, 0).Some?
    ensures var r := Rollback(a, cs, Apply(a, cs, disk).disk);
            && (IsRolledBack(r.outcome) <==> GoesBack(cs))
            && (IsRolledBack(r.outcome) ==>
                  Read(r.disk, PathAt(a, cs, 0).value) ==
                  if |cs.operations| == 1 then Read(disk, PathAt(a, cs, 0).value)
                  else cs.operations[|cs.operations| - 2].replacement)
  {
    AppliedExactlyWhenReady(a, cs, disk);
    assert ReadyAt(a, cs, 0, disk);
    RollbackOfApplied(a, cs, disk);
    OneFileUndoable(a, cs);
    OneFileLeft(a, cs, disk, PathAt(a, cs, 0).value);
  }

  /**
   Two edits of one file and nothing else: the rollback goes through only if neither edit changed the
   file's hash, and then leaves the first replacement in place.
   */
  lemma TwoEditsOfOneFile(a: Adapter, cs: ChangeSet, disk: Disk)
    requires |cs.operations| == 2 && Proposed(cs) && IsApplied(Apply(a, cs, disk).outcome)
    requires a.resolve(cs.operations[0].target) == a.resolve(cs.operations[1].target)
    ensures var first, second := cs.operations[0], cs.operations[1];
            var r := Rollback(a, cs, Apply(a, cs, disk).disk);
            && a.resolve(first.target).Some?
            && (IsRolledBack(r.outcome) <==> first.before == first.after == second.after)
            && (IsRolledBack(r.outcome) ==> Read(r.disk, a.resolve(first.target).value) == first.replacement)
  {
    assert PathAt(a, cs, 0) == PathAt(a, cs, 1);
    EditsOfOneFile(a, cs, disk);
    AppliedExactlyWhenReady(a, cs, disk);
    assert ReadyAt(a, cs, 1, disk) && Previous(a, cs, 1) == Some(0);
    assert GoesBack(cs) <==> cs.operations[0].after == cs.operations[1].after == cs.operations[0].before;
  }

  /** Three edits of one file and nothing else that go back and forth are undone completely. */
  lemma BackAndForthIsUndone(a: Adapter, cs: ChangeSet, disk: Disk)
    requires |cs.operations| == 3 && OneFile(a, cs) && Proposed(cs) && IsApplied(Apply(a, cs, disk).outcome)
    requires cs.operations[0].replacement == cs.operations[2].replacement
    requires PathAt(a, cs, 0).Some? ==> cs.operations[1].replacement == Read(disk, PathAt(a, cs, 0).value)
    ensures var r := Rollback(a, cs, Apply(a, cs, disk).disk); IsRolledBack(r.outcome) && r.disk.files == disk.files
  {
    AppliedExactlyWhenReady(a, cs, disk);
    forall i | 0 <= i < 3 ensures ReadyAt(a, cs, i, disk) && cs.operations[i].after == Recorded(a, cs, i) {
      assert ReadyAt(a, cs, 0, disk) && ReadyAt(a, cs, 1, disk) && ReadyAt(a, cs, 2, disk);
      OneFileOrder(a, cs, 0);
      OneFileOrder(a, cs, 1);
      OneFileOrder(a, cs, 2);
    }
    forall j | 0 <= j < 3 ensures StartsFromOriginal(a, cs, disk, j) {
      OneFileOrder(a, cs, j);
    }
    RollbackRestoresExactly(a, cs, disk);
  }
}
