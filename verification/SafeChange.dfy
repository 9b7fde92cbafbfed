/**
 The safe-change workflow: a change set is proposed against the current content,
 applied with a backup of every file it replaces, and can be rolled back.
 Every operation's check and write are one step.
 */
module SafeChange {
  import opened Sequences
  import opened Redaction
  import opened Text

  type Hash = string

  /** A canonical path: a canonical directory and a file name in it. */
  datatype Path = Path(directory: string, name: string)

  datatype Kind = CreateText | ReplaceText | DeleteFile

  datatype Operation = Operation(
    target: string,
    kind: Kind,
    expected: Option<Hash>,
    before: Option<Hash>,
    after: Option<Hash>,
    replacement: Option<string>)

  datatype ChangeSet = ChangeSet(id: string, operations: seq<Operation>)

  datatype ChangeRequest = ChangeRequest(
    providerId: string, hostId: string, target: string, kind: Kind, expected: Option<Hash>, replacement: Option<string>)

  datatype Status = Applied | Conflict | RolledBack

  datatype Receipt = Receipt(status: Status, backups: seq<string>, before: seq<Hash>, after: seq<Hash>)

  datatype Outcome = Done(receipt: Receipt) | Failed

  datatype Disk = Disk(files: map<Path, string>, backups: map<string, string>)

  datatype Result = Result(disk: Disk, outcome: Outcome)

  /**
   What the adapter takes from its surroundings: the content hash, the resolution of an authorized
   target to its canonical path, the trust gate, and the syntax check of configuration documents.
   */
  datatype Adapter = Adapter(
    hash: string -> Hash,
    resolve: string -> Option<Path>,
    writable: Path -> bool,
    wellFormed: (Path, string) -> bool)

  const MAX_REPLACEMENT: nat := 1000000

  function Read(disk: Disk, path: Path): Option<string> {
    if path in disk.files then Some(disk.files[path]) else None
  }

  function HashOf(a: Adapter, content: Option<string>): Option<Hash> {
    match content
    case None => None
    case Some(text) => Some(a.hash(text))
  }

  function Listed<T>(value: Option<T>): seq<T> {
    match value
    case None => []
    case Some(v) => [v]
  }

  function BackupName(id: string, index: nat, path: Path): string {
    id + "-" + Decimal(index) + "-" + path.name + ".bak"
  }

  // ---------- propose ----------

  function Propose(a: Adapter, id: string, request: ChangeRequest, disk: Disk): Option<ChangeSet> {
    if request.providerId != "codex" || Blank(request.hostId) then None
    else match a.resolve(request.target)
      case None => None
      case Some(path) =>
        var before := HashOf(a, Read(disk, path));
        if !a.writable(path) || request.kind.DeleteFile? then None
        else if request.expected.Some? && before != request.expected then None
        else match request.replacement
          case None => None
          case Some(text) =>
            if |text| > MAX_REPLACEMENT || RedactText(text) != text || !a.wellFormed(path, text) then None
            else
              var kind := if before.None? then CreateText else ReplaceText;
              var expected := if request.expected.Some? then request.expected else before;
              Some(ChangeSet(id, [Operation(request.target, kind, expected, before, Some(a.hash(text)), Some(text))]))
  }

  // ---------- apply ----------

  predicate ValidOperation(a: Adapter, op: Operation) {
    match a.resolve(op.target)
    case None => false
    case Some(path) =>
      && a.writable(path)
      && op.replacement.Some?
      && RedactText(op.replacement.value) == op.replacement.value
      && a.wellFormed(path, op.replacement.value)
  }

  datatype Step =
    | Advanced(disk: Disk, backup: Option<string>, before: Option<Hash>, after: Option<Hash>)
    | Stopped(result: Result)

  function ConflictAt(current: Option<Hash>): Outcome {
    Done(Receipt(Conflict, [], Listed(current), []))
  }

  /** One operation of an apply: check, back up, replace, verify. */
  function ApplyOne(a: Adapter, id: string, index: nat, op: Operation, disk: Disk): Step {
    if op.kind.DeleteFile? || a.resolve(op.target).None? then Stopped(Result(disk, Failed))
    else
      var path := a.resolve(op.target).value;
      var current := HashOf(a, Read(disk, path));
      if op.expected != current then Stopped(Result(disk, ConflictAt(current)))
      else if op.replacement.None? then Stopped(Result(disk, Failed))
      else
        var text := op.replacement.value;
        var name := BackupName(id, index, path);
        var backups := if path in disk.files then disk.backups[name := disk.files[path]] else disk.backups;
        var next := Disk(disk.files[path := text], backups);
        if op.after != Some(a.hash(text)) then Stopped(Result(next, Failed))
        else Advanced(next, if path in disk.files then Some(name) else None, current, op.after)
  }

  /** The operations from `k` on, with the receipt filled by those before. */
  function ApplyFrom(a: Adapter, cs: ChangeSet, k: nat, disk: Disk, receipt: Receipt): Result
    requires k <= |cs.operations|
    decreases |cs.operations| - k
  {
    if k == |cs.operations| then Result(disk, Done(receipt))
    else match ApplyOne(a, cs.id, k, cs.operations[k], disk)
      case Stopped(result) => result
      case Advanced(next, backup, before, after) =>
        ApplyFrom(a, cs, k + 1, next, Extended(receipt, backup, before, after))
  }

  function Extended(r: Receipt, backup: Option<string>, before: Option<Hash>, after: Option<Hash>): Receipt {
    Receipt(r.status, r.backups + Listed(backup), r.before + Listed(before), r.after + Listed(after))
  }

  function Apply(a: Adapter, cs: ChangeSet, disk: Disk): Result {
    if cs.operations == [] || exists op <- cs.operations :: !ValidOperation(a, op) then Result(disk, Failed)
    else ApplyFrom(a, cs, 0, disk, Receipt(Applied, [], [], []))
  }

  // ---------- roll back ----------

  /** One operation of a rollback: check, restore or remove, verify. */
  function RollbackOne(a: Adapter, id: string, index: nat, op: Operation, disk: Disk): Step {
    if a.resolve(op.target).None? then Stopped(Result(disk, Failed))
    else
      var path := a.resolve(op.target).value;
      var current := HashOf(a, Read(disk, path));
      var name := BackupName(id, index, path);
      if op.after != current then Stopped(Result(disk, ConflictAt(current)))
      else if op.before.Some? && (name !in disk.backups || a.hash(disk.backups[name]) != op.before.value) then
        Stopped(Result(disk, Failed))
      else
        var next :=
          disk.(files := if op.before.Some? then disk.files[path := disk.backups[name]] else disk.files - {path});
        var restored := HashOf(a, Read(next, path));
        if restored != op.before then Stopped(Result(next, Failed))
        else Advanced(next, None, current, restored)
  }

  function RollbackFrom(a: Adapter, cs: ChangeSet, k: nat, disk: Disk, receipt: Receipt): Result
    requires k <= |cs.operations|
    decreases |cs.operations| - k
  {
    if k == |cs.operations| then Result(disk, Done(receipt.(backups := ExistingBackups(a, cs, 0, disk))))
    else match RollbackOne(a, cs.id, k, cs.operations[k], disk)
      case Stopped(result) => result
      case Advanced(next, backup, before, after) =>
        RollbackFrom(a, cs, k + 1, next, Extended(receipt, backup, before, after))
  }

  /** The backups of the set's operations that are there. */
  function ExistingBackups(a: Adapter, cs: ChangeSet, k: nat, disk: Disk): seq<string>
    requires k <= |cs.operations|
    decreases |cs.operations| - k
  {
    if k == |cs.operations| then []
    else
      var path := a.resolve(cs.operations[k].target);
      var rest := ExistingBackups(a, cs, k + 1, disk);
      if path.Some? && BackupName(cs.id, k, path.value) in disk.backups then
        [BackupName(cs.id, k, path.value)] + rest
      else rest
  }

  function Rollback(a: Adapter, cs: ChangeSet, disk: Disk): Result {
    if cs.operations == [] then Result(disk, Failed)
    else RollbackFrom(a, cs, 0, disk, Receipt(RolledBack, [], [], []))
  }

  // ---------- the store ----------

  /** The provider's files and the backup directory. */
  class Store {
    var files: map<Path, string>
    var backups: map<string, string>
    const adapter: Adapter

    constructor (adapter: Adapter, files: map<Path, string>, backups: map<string, string>)
      ensures this.adapter == adapter && Contents() == Disk(files, backups)
    {
      this.adapter, this.files, this.backups := adapter, files, backups;
    }

    function Contents(): Disk
      reads this
    {
      Disk(files, backups)
    }

    /** Carries one operation out on the files; `stop` is the outcome of the whole change when it cannot go on. */
    method ApplyOperation(id: string, index: nat, op: Operation)
      returns (stop: Option<Outcome>, backup: Option<string>, before: Option<Hash>, after: Option<Hash>)
      modifies this
      ensures ApplyOne(adapter, id, index, op, old(Contents())) ==
              if stop.Some? then Stopped(Result(Contents(), stop.value))
              else Advanced(Contents(), backup, before, after)
    {
      backup, before, after := None, None, None;
      var target := adapter.resolve(op.target);
      if op.kind.DeleteFile? || target.None? {
        return Some(Failed), None, None, None;
      }
      var path := target.value;
      before := HashOf(adapter, if path in files then Some(files[path]) else None);
      if op.expected != before {
        return Some(ConflictAt(before)), None, None, None;
      }
      if op.replacement.None? {
        return Some(Failed), None, None, None;
      }
      if path in files {
        var name := BackupName(id, index, path);
        backups := backups[name := files[path]];
        backup := Some(name);
      }
      files := files[path := op.replacement.value];
      after := Some(adapter.hash(files[path]));
      stop := if op.after != after then Some(Failed) else None;
    }

    /** The validation pass, which touches no file. */
    method Validate(cs: ChangeSet) returns (valid: bool)
      ensures valid <==> forall op <- cs.operations :: ValidOperation(adapter, op)
    {
      for i := 0 to |cs.operations|
        invariant forall k :: 0 <= k < i ==> ValidOperation(adapter, cs.operations[k])
      {
        if !ValidOperation(adapter, cs.operations[i]) {
          assert cs.operations[i] in cs.operations;
          return false;
        }
      }
      return true;
    }

    method ApplyChange(cs: ChangeSet) returns (outcome: Outcome)
      modifies this
      ensures Result(Contents(), outcome) == Apply(adapter, cs, old(Contents()))
    {
      if cs.operations == [] {
        return Failed;
      }
      var valid := Validate(cs);
      if !valid {
        return Failed;
      }
      var receipt := Receipt(Applied, [], [], []);
      for k := 0 to |cs.operations|
        invariant ApplyFrom(adapter, cs, k, Contents(), receipt) == Apply(adapter, cs, old(Contents()))
      {
        var stop, backup, before, after := ApplyOperation(cs.id, k, cs.operations[k]);
        if stop.Some? {
          return stop.value;
        }
        receipt := Extended(receipt, backup, before, after);
      }
      return Done(receipt);
    }

    /** Undoes one operation on the files. */
    method RollbackOperation(id: string, index: nat, op: Operation)
      returns (stop: Option<Outcome>, before: Option<Hash>, after: Option<Hash>)
      modifies this
      ensures RollbackOne(adapter, id, index, op, old(Contents())) ==
              if stop.Some? then Stopped(Result(Contents(), stop.value)) else Advanced(Contents(), None, before, after)
    {
      before, after := None, None;
      var target := adapter.resolve(op.target);
      if target.None? {
        return Some(Failed), None, None;
      }
      var path := target.value;
      before := HashOf(adapter, if path in files then Some(files[path]) else None);
      if op.after != before {
        return Some(ConflictAt(before)), None, None;
      }
      if op.before.Some? {
        var name := BackupName(id, index, path);
        if name !in backups || adapter.hash(backups[name]) != op.before.value {
          return Some(Failed), None, None;
        }
        files := files[path := backups[name]];
      } else if path in files {
        files := files - {path};
      }
      after := HashOf(adapter, if path in files then Some(files[path]) else None);
      stop := if after != op.before then Some(Failed) else None;
    }

    method RollbackChange(cs: ChangeSet) returns (outcome: Outcome)
      modifies this
      ensures Result(Contents(), outcome) == Rollback(adapter, cs, old(Contents()))
    {
      if cs.operations == [] {
        return Failed;
      }
      var receipt := Receipt(RolledBack, [], [], []);
      for k := 0 to |cs.operations|
        invariant RollbackFrom(adapter, cs, k, Contents(), receipt) == Rollback(adapter, cs, old(Contents()))
      {
        var stop, before, after := RollbackOperation(cs.id, k, cs.operations[k]);
        if stop.Some? {
          return stop.value;
        }
        receipt := Extended(receipt, None, before, after);
      }
      return Done(receipt.(backups := ExistingBackups(adapter, cs, 0, Contents())));
    }
  }
}
