/** The four tables behind the drive, and the effect of each use case on them. Physical files
    (FileInfo) are shared by logical files (UserFile); a trashed UserFile keeps its row. */
module Storage {
  import opened Basics
  import Directory

  /** A uuid. Fresh ones are drawn from the counter `next` of the state. */
  type Id = nat

  datatype FileInfo = FileInfo(name: string, size: nat, isEnc: bool, signature: string, fileHash: string,
                               first: string, second: string, third: string)

  datatype UserFile = UserFile(user: string, file: Id, name: string, dir: string, isPublic: bool, trashed: bool)

  datatype Recycled = Recycled(user: string, userFile: Id, file: Id, createdAt: int)

  /** `space` is the quota, unlimited when not positive; `free` is what is left of it. */
  datatype User = User(space: int, free: int)

  datatype State = State(userFiles: map<Id, UserFile>, fileInfos: map<Id, FileInfo>, recycled: map<Id, Recycled>,
                         users: map<string, User>, dirs: Directory.Tree, next: Id)

  /** What GetByUserAndUfID answers for a trashed row: the repository interface hides such rows, the
      adapter in internal/infrastructure/persistence returns them. */
  datatype Lookup = LiveOnly | AnyRow

  datatype Outcome = Ok | NotFound | Forbidden | NoRoot | EmptyName | NameConflict | EncryptedPublic | Failed

  // ----- queries -----

  predicate IsLive(s: State, x: Id) {
    x in s.userFiles && !s.userFiles[x].trashed
  }

  /** GetByUserAndUfID finds the row. */
  predicate Finds(s: State, lk: Lookup, user: string, x: Id) {
    x in s.userFiles && s.userFiles[x].user == user && (lk.AnyRow? || !s.userFiles[x].trashed)
  }

  function LiveRefs(s: State, file: Id): set<Id> {
    set x | x in s.userFiles && !s.userFiles[x].trashed && s.userFiles[x].file == file
  }

  /** CountActiveUserFiles. */
  function ActiveRefs(s: State, file: Id): nat {
    |LiveRefs(s, file)|
  }

  function Matches(s: State, signature: string, size: int): set<Id> {
    set f | f in s.fileInfos && s.fileInfos[f].signature == signature && s.fileInfos[f].size == size
  }

  /** GetByChunkSignature fails unless exactly one row matches. */
  function BySignature(s: State, signature: string, size: int): (r: Option<Id>)
    ensures r.Some? ==> r.value in s.fileInfos && s.fileInfos[r.value].size == size
  {
    var m := Matches(s, signature, size);
    if |m| != 1 then None
    else
      SingletonIsUnique(m);
      var f :| f in m;
      Some(f)
  }

  lemma SingletonIsUnique(m: set<Id>)
    requires |m| == 1
    ensures forall x, y | x in m && y in m :: x == y
  {
    var x :| x in m;
    assert m == {x} + (m - {x});
  }

  // ----- upload -----

  /** `original` names the stored file: as sent for a whole-file upload, as prechecked for a merge. */
  datatype UploadReq = UploadReq(original: string, name: string, dir: string, size: nat, isEnc: bool, signature: string, md5s: seq<string>)

  datatype UploadFaults = UploadFaults(info: bool, link: bool)

  function HashAt(md5s: seq<string>, i: nat): string {
    if i < |md5s| then md5s[i] else ""
  }

  function NewInfo(q: UploadReq): FileInfo {
    FileInfo(q.original, q.size, q.isEnc, q.signature, "", HashAt(q.md5s, 0), HashAt(q.md5s, 1), HashAt(q.md5s, 2))
  }

  function Link(s: State, user: string, file: Id, name: string, dir: string): State {
    s.(userFiles := s.userFiles[s.next := UserFile(user, file, name, dir, false, false)], next := s.next + 1)
  }

  /** The two rows that a finished upload creates, by either the single-file or the merge path. */
  function Upload(s: State, user: string, q: UploadReq, f: UploadFaults): (State, Outcome) {
    if f.info then (s, Failed)
    else
      var file := s.next;
      var s := s.(fileInfos := s.fileInfos[file := NewInfo(q)], next := s.next + 1);
      if f.link then (s, Failed) else (Link(s, user, file, q.name, q.dir), Ok)
  }

  datatype PrecheckReq = PrecheckReq(name: string, dir: string, size: nat, signature: string, md5s: seq<string>)

  /** `task` and `cache` are the writes that open an upload when nothing could be shared. */
  datatype PrecheckFaults = PrecheckFaults(link: bool, debit: bool, rollback: bool, task: bool, cache: bool)

  datatype PrecheckOutcome = UserMissing | InsufficientSpace | AlreadyDone | Proceed | NotOpened

  predicate SameContent(c: FileInfo, md5s: seq<string>) {
    if |md5s| >= 3 then c.first == md5s[0] && c.second == md5s[1] && c.third == md5s[2]
    else |md5s| == 1 && c.fileHash == md5s[0]
  }

  /** The stored file that an instant upload may share. */
  function Candidate(s: State, q: PrecheckReq): Option<Id> {
    if q.signature == "" then None
    else
      match BySignature(s, q.signature, q.size)
      case None => None
      case Some(c) =>
        if s.fileInfos[c].isEnc || !SameContent(s.fileInfos[c], q.md5s) then None else Some(c)
  }

  /** The upload task is created and the request cached, outside the four tables. */
  function Opened(f: PrecheckFaults): PrecheckOutcome {
    if f.task || f.cache then NotOpened else Proceed
  }

  function Precheck(s: State, user: string, q: PrecheckReq, f: PrecheckFaults): (State, PrecheckOutcome) {
    if user !in s.users then (s, UserMissing)
    else if s.users[user].space > 0 && s.users[user].free < q.size then (s, InsufficientSpace)
    else
      match Candidate(s, q)
      case None => (s, Opened(f))
      case Some(c) =>
        if f.link then (s, Opened(f))
        else
          var linked := Link(s, user, c, q.name, q.dir);
          if s.users[user].space <= 0 then (linked, AlreadyDone)
          else if !f.debit then
            (linked.(users := s.users[user := s.users[user].(free := s.users[user].free - q.size)]), AlreadyDone)
          else if f.rollback then (linked, Opened(f))
          else (SoftDelete(linked, s.next), Opened(f))
  }

  // ----- trash -----

  function SoftDelete(s: State, x: Id): State
    requires x in s.userFiles
  {
    s.(userFiles := s.userFiles[x := s.userFiles[x].(trashed := true)])
  }

  datatype TrashFaults = TrashFaults(soft: bool, record: bool)

  function MoveToRecycled(s: State, lk: Lookup, user: string, x: Id, now: int, f: TrashFaults): (State, Outcome) {
    if !Finds(s, lk, user, x) then (s, NotFound)
    else if f.soft then (s, Failed)
    else
      var s := SoftDelete(s, x);
      if f.record then (s, Failed)
      else (s.(recycled := s.recycled[s.next := Recycled(user, x, s.userFiles[x].file, now)], next := s.next + 1), Ok)
  }

  datatype RestoreFaults = RestoreFaults(clear: bool, record: bool)

  /** The file's directory text names a positive number that is no longer a directory. */
  predicate DirGone(s: State, dir: string) {
    dir != "" && dir != "0" && ScanInt(dir).Some? && ScanInt(dir).value > 0 && ScanInt(dir).value !in s.dirs.rows
  }

  /** Where a restored file goes: its old directory, or the root when that is gone. */
  function Target(s: State, dir: string, root: Option<nat>): Option<string> {
    if !DirGone(s, dir) then Some(dir)
    else if root.Some? then Some(Itoa(root.value))
    else None
  }

  function Restore(s: State, user: string, rid: Id, root: Option<nat>, f: RestoreFaults): (State, Outcome) {
    if rid !in s.recycled then (s, NotFound)
    else if s.recycled[rid].user != user then (s, Forbidden)
    else
      var x := s.recycled[rid].userFile;
      if x !in s.userFiles then (s, NotFound)
      else
        match Target(s, s.userFiles[x].dir, root)
        case None => (s, NoRoot)
        case Some(dir) =>
          if f.clear then (s, Failed)
          else
            var s := s.(userFiles := s.userFiles[x := s.userFiles[x].(trashed := false, dir := dir)]);
            if f.record then (s, Failed) else (s.(recycled := s.recycled - {rid}), Ok)
  }

  datatype PurgeFaults = PurgeFaults(count: bool, credit: bool, info: bool, link: bool, record: bool)

  const NO_FAULTS: PurgeFaults := PurgeFaults(false, false, false, false, false)

  /** returnSpace, whose failure is only logged. */
  function ReturnSpace(s: State, user: string, size: nat, fails: bool): State {
    if user !in s.users || s.users[user].space <= 0 || fails then s
    else s.(users := s.users[user := s.users[user].(free := s.users[user].free + size)])
  }

  function DropRecord(s: State, rid: Id, f: PurgeFaults): (State, Outcome) {
    if rid !in s.recycled then (s, NotFound)
    else if f.record then (s, Failed)
    else (s.(recycled := s.recycled - {rid}), Ok)
  }

  /** No live file shares the physical file, and its row still exists. */
  predicate Unshared(s: State, file: Id) {
    ActiveRefs(s, file) == 0 && file in s.fileInfos
  }

  function PermanentlyDelete(s: State, rid: Id, r: Recycled, f: PurgeFaults): (State, Outcome) {
    if r.userFile !in s.userFiles then DropRecord(s, rid, f)
    else
      var file := s.userFiles[r.userFile].file;
      if f.count then (s, Failed)
      else
        var unshared := Unshared(s, file);
        var s := if unshared then ReturnSpace(s, r.user, s.fileInfos[file].size, f.credit) else s;
        if unshared && f.info then (s, Failed)
        else
          var s := if unshared then s.(fileInfos := s.fileInfos - {file}) else s;
          if f.link then (s, Failed)
          else DropRecord(s.(userFiles := s.userFiles - {r.userFile}), rid, f)
  }

  function Purge(s: State, rid: Id, f: PurgeFaults): (State, Outcome) {
    if rid !in s.recycled then (s, NotFound) else PermanentlyDelete(s, rid, s.recycled[rid], f)
  }

  // ----- edits of one file -----

  function MoveFile(s: State, lk: Lookup, user: string, x: Id, dir: string, fails: bool): (State, Outcome) {
    if !Finds(s, lk, user, x) then (s, NotFound)
    else if fails then (s, Failed)
    else (s.(userFiles := s.userFiles[x := s.userFiles[x].(dir := dir)]), Ok)
  }

  predicate InDirectory(s: State, user: string, dir: string, x: Id) {
    IsLive(s, x) && s.userFiles[x].user == user && s.userFiles[x].dir == dir
  }

  /** ListByVirtualPath without paging; `order` is the fixed order of the rows. */
  function FilesIn(s: State, order: seq<Id>, user: string, dir: string): seq<Id> {
    if order == [] then []
    else (if InDirectory(s, user, dir, order[0]) then [order[0]] else []) + FilesIn(s, order[1..], user, dir)
  }

  /** `order` is the fixed order in which the database returns rows. */
  ghost predicate Enumerates(order: seq<Id>, s: State) {
    NoDuplicates(order) && forall x :: x in order <==> x in s.userFiles
  }

  predicate HasName(s: State, y: Id, name: string) {
    y in s.userFiles && s.userFiles[y].name == name
  }

  const NAME_LIMIT: nat := 10000

  /** The files that RenameFile compares the new name with. */
  function Siblings(s: State, order: seq<Id>, user: string, x: Id): seq<Id>
    requires x in s.userFiles
  {
    First(FilesIn(s, order, user, s.userFiles[x].dir), NAME_LIMIT)
  }

  predicate NameTaken(s: State, order: seq<Id>, user: string, x: Id, name: string)
    requires x in s.userFiles
  {
    exists y <- Siblings(s, order, user, x) :: HasName(s, y, name) && y != x
  }

  function RenameFile(s: State, lk: Lookup, order: seq<Id>, user: string, x: Id, name: string, fails: bool): (State, Outcome) {
    if Trim(name) == "" then (s, EmptyName)
    else if !Finds(s, lk, user, x) then (s, NotFound)
    else if NameTaken(s, order, user, x, Trim(name)) then (s, NameConflict)
    else if fails then (s, Failed)
    else (s.(userFiles := s.userFiles[x := s.userFiles[x].(name := Trim(name))]), Ok)
  }

  function SetPublic(s: State, lk: Lookup, user: string, x: Id, public: bool, fails: bool): (State, Outcome) {
    if !Finds(s, lk, user, x) then (s, NotFound)
    else
      var file := s.userFiles[x].file;
      if public && file in s.fileInfos && s.fileInfos[file].isEnc then (s, EncryptedPublic)
      else if fails then (s, Failed)
      else (s.(userFiles := s.userFiles[x := s.userFiles[x].(isPublic := public)]), Ok)
  }

  lemma {:induction false} FilesInExactly(s: State, order: seq<Id>, user: string, dir: string)
    requires NoDuplicates(order)
    ensures forall x :: x in FilesIn(s, order, user, dir) <==> x in order && InDirectory(s, user, dir, x)
    ensures NoDuplicates(FilesIn(s, order, user, dir))
  {
    if order != [] {
      var rest := FilesIn(s, order[1..], user, dir);
      FilesInExactly(s, order[1..], user, dir);
      forall i | 0 <= i < |rest| ensures rest[i] != order[0] {
        assert rest[i] in rest && rest[i] in order[1..];
      }
    }
  }

  /** In a directory of at most 10000 of the user's live files, a rename goes through exactly when the name
      is not blank, the file is found, the write succeeds, and no other live file there has the name. */
  lemma {:induction false} RenameRefusesExactly(s: State, lk: Lookup, order: seq<Id>, user: string, x: Id, name: string, fails: bool)
    requires Enumerates(order, s) && x in s.userFiles && |FilesIn(s, order, user, s.userFiles[x].dir)| <= NAME_LIMIT
    ensures RenameFile(s, lk, order, user, x, name, fails).1.Ok?
            <==> && Trim(name) != "" && Finds(s, lk, user, x) && !fails
                 && forall y :: InDirectory(s, user, s.userFiles[x].dir, y) && y != x ==> s.userFiles[y].name != Trim(name)
  {
    FilesInExactly(s, order, user, s.userFiles[x].dir);
    assert NameTaken(s, order, user, x, Trim(name))
      <==> exists y :: InDirectory(s, user, s.userFiles[x].dir, y) && y != x && HasName(s, y, Trim(name));
  }

  // ----- the state machine -----

  datatype Op =
    | DoUpload(user: string, upload: UploadReq, uf: UploadFaults)
    | DoPrecheck(user: string, check: PrecheckReq, cf: PrecheckFaults)
    | DoTrash(user: string, x: Id, now: int, tf: TrashFaults)
    | DoRestore(user: string, rid: Id, root: Option<nat>, rf: RestoreFaults)
    | DoPurge(rid: Id, pf: PurgeFaults)
    | DoMove(user: string, x: Id, dir: string, fails: bool)
    | DoRename(user: string, x: Id, name: string, order: seq<Id>, fails: bool)
    | DoSetPublic(user: string, x: Id, public: bool, fails: bool)
    | DoTree(edit: Directory.DirOp)
  {
    predicate FailureFree() {
      match this
      case DoUpload(_, _, f) => !f.info && !f.link
      case DoPrecheck(_, _, f) => !f.link && !f.debit && !f.task && !f.cache
      case DoTrash(_, _, _, f) => !f.soft && !f.record
      case DoRestore(_, _, _, f) => !f.clear && !f.record
      case DoPurge(_, f) => f == NO_FAULTS
      case DoMove(_, _, _, fails) => !fails
      case DoRename(_, _, _, _, fails) => !fails
      case DoSetPublic(_, _, _, fails) => !fails
      case DoTree(_) => true
    }
  }

  ghost function Step(s: State, lk: Lookup, op: Op): State {
    match op
    case DoUpload(u, q, f) => Upload(s, u, q, f).0
    case DoPrecheck(u, q, f) => Precheck(s, u, q, f).0
    case DoTrash(u, x, now, f) => MoveToRecycled(s, lk, u, x, now, f).0
    case DoRestore(u, rid, root, f) => Restore(s, u, rid, root, f).0
    case DoPurge(rid, f) => Purge(s, rid, f).0
    case DoMove(u, x, dir, fails) => MoveFile(s, lk, u, x, dir, fails).0
    case DoRename(u, x, name, order, fails) => RenameFile(s, lk, order, u, x, name, fails).0
    case DoSetPublic(u, x, public, fails) => SetPublic(s, lk, u, x, public, fails).0
    case DoTree(edit) => s.(dirs := Directory.Apply(s.dirs, edit))
  }

  ghost function Run(s: State, lk: Lookup, ops: seq<Op>): State
    decreases |ops|
  {
    if ops == [] then s else Run(Step(s, lk, ops[0]), lk, ops[1..])
  }

  /** The state before the k-th step of a run. */
  ghost function At(s: State, lk: Lookup, ops: seq<Op>, k: nat): State
    requires k <= |ops|
  {
    Run(s, lk, ops[..k])
  }

  predicate AllFailureFree(ops: seq<Op>) {
    forall i | 0 <= i < |ops| :: ops[i].FailureFree()
  }

  lemma {:induction false} RunAppend(s: State, lk: Lookup, a: seq<Op>, b: seq<Op>)
    ensures Run(s, lk, a + b) == Run(Run(s, lk, a), lk, b)
    decreases |a|
  {
    if a == [] {
      assert a + b == b;
    } else {
      assert (a + b)[1..] == a[1..] + b;
      RunAppend(Step(s, lk, a[0]), lk, a[1..], b);
    }
  }

  lemma {:induction false} RunSnoc(s: State, lk: Lookup, ops: seq<Op>, op: Op)
    ensures Run(s, lk, ops + [op]) == Step(Run(s, lk, ops), lk, op)
  {
    RunAppend(s, lk, ops, [op]);
    var t := Run(s, lk, ops);
    assert Run(t, lk, [op]) == Run(Step(t, lk, op), lk, []);
  }

  lemma AtSnoc(s: State, lk: Lookup, ops: seq<Op>, k: nat)
    requires k < |ops|
    ensures At(s, lk, ops, k + 1) == Step(At(s, lk, ops, k), lk, ops[k])
  {
    assert ops[..k + 1] == ops[..k] + [ops[k]];
    RunSnoc(s, lk, ops[..k], ops[k]);
  }

  /** Before anyone has stored anything: users with no debt, and no files. */
  ghost predicate Initial(s: State) {
    && s.userFiles == map[] && s.fileInfos == map[] && s.recycled == map[]
    && forall u <- s.users :: s.users[u].free >= 0
  }

  /** Every identifier in use was drawn from the counter. */
  ghost predicate Known(s: State) {
    && (forall x <- s.userFiles :: x < s.next && s.userFiles[x].file < s.next)
    && (forall f <- s.fileInfos :: f < s.next)
    && (forall r <- s.recycled :: r < s.next && s.recycled[r].userFile < s.next)
  }
}
