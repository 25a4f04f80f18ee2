/** What each use case on the four tables answers and writes, told row by row from the tables before the call. */
module Results {
  import opened Basics
  import opened Texts
  import opened Storage

  /** The caller may act on the row: it is theirs, and live unless the lookup returns trashed rows too. */
  predicate OwnRow(s: State, lk: Lookup, user: string, x: Id) {
    x in s.userFiles && s.userFiles[x].user == user && (s.userFiles[x].trashed ==> lk == AnyRow)
  }

  // ----- restore -----

  /** The directory text starts with a positive number that no directory has. */
  ghost predicate PointsNowhere(s: State, dir: string) {
    exists n :: ReadsAs(dir, n) && n > 0 && n !in s.dirs.rows
  }

  lemma GoneExactly(s: State, dir: string)
    ensures DirGone(s, dir) <==> PointsNowhere(s, dir)
  {
    if ScanInt(dir).Some? {
      ScanIntExactly(dir, ScanInt(dir).value);
    }
    forall n | ReadsAs(dir, n) ensures ScanInt(dir) == Some(n) {
      ScanIntExactly(dir, n);
    }
    ZeroReads();
  }

  lemma ZeroReads()
    ensures ScanInt("").None? && ScanInt("0") == Some(0)
  {
    ItoaReadsBack(0);
  }

  /** A row of the caller's record comes back live, in its directory if that is still there or if its text
      names none, and else in the root. Refusals and failures change nothing but what was written first. */
  lemma {:induction false} RestoreExactly(s: State, user: string, rid: Id, root: Option<nat>, f: RestoreFaults)
    ensures var (t, r) := Restore(s, user, rid, root, f);
            if rid !in s.recycled then t == s && r == NotFound
            else if s.recycled[rid].user != user then t == s && r == Forbidden
            else if s.recycled[rid].userFile !in s.userFiles then t == s && r == NotFound
            else
              var x := s.recycled[rid].userFile;
              var dir := s.userFiles[x].dir;
              if PointsNowhere(s, dir) && root.None? then t == s && r == NoRoot
              else if f.clear then t == s && r == Failed
              else
                && t == s.(userFiles := t.userFiles, recycled := if f.record then s.recycled else s.recycled - {rid})
                && t.userFiles == s.userFiles[x := s.userFiles[x].(trashed := false,
                     dir := if PointsNowhere(s, dir) then Itoa(root.value) else dir)]
                && r == if f.record then Failed else Ok
  {
    if rid in s.recycled && s.recycled[rid].userFile in s.userFiles {
      GoneExactly(s, s.userFiles[s.recycled[rid].userFile].dir);
      hide DirGone, PointsNowhere;
    }
  }

  /** For a file whose directory text is that of an identifier: it keeps the directory if there is a row for it,
      goes to the root if not, and is refused if there is no root either. */
  lemma {:induction false} RestoreByNumber(s: State, user: string, rid: Id, root: Option<nat>, n: nat)
    requires rid in s.recycled && s.recycled[rid].user == user && s.recycled[rid].userFile in s.userFiles
    requires s.userFiles[s.recycled[rid].userFile].dir == Itoa(n) && 0 < n <= MAX_INT64
    ensures var (t, r) := Restore(s, user, rid, root, RestoreFaults(false, false));
            var x := s.recycled[rid].userFile;
            if n in s.dirs.rows then
              r == Ok && t.userFiles == s.userFiles[x := s.userFiles[x].(trashed := false, dir := Itoa(n))]
            else if root.Some? then
              r == Ok && t.userFiles == s.userFiles[x := s.userFiles[x].(trashed := false, dir := Itoa(root.value))]
            else r == NoRoot && t == s
  {
    RestoreExactly(s, user, rid, root, RestoreFaults(false, false));
    NowhereByNumber(s, n);
    hide Restore, PointsNowhere;
  }

  lemma NowhereByNumber(s: State, n: nat)
    requires 0 < n <= MAX_INT64
    ensures PointsNowhere(s, Itoa(n)) <==> n !in s.dirs.rows
  {
    ItoaReads(n, n);
    forall m | ReadsAs(Itoa(n), m) ensures m == n {
      ItoaReads(n, m);
    }
  }

  /** With the root in the table, a restored file is in a directory that exists. */
  lemma {:induction false} RestoredIsSomewhere(s: State, user: string, rid: Id, root: nat, n: nat)
    requires rid in s.recycled && s.recycled[rid].user == user && s.recycled[rid].userFile in s.userFiles
    requires s.userFiles[s.recycled[rid].userFile].dir == Itoa(n) && 0 < n <= MAX_INT64 && root in s.dirs.rows
    ensures var (t, r) := Restore(s, user, rid, Some(root), RestoreFaults(false, false));
            r == Ok && exists m: nat :: m in t.dirs.rows && t.userFiles[s.recycled[rid].userFile].dir == Itoa(m)
  {
    var t := Restore(s, user, rid, Some(root), RestoreFaults(false, false)).0;
    RestoreByNumber(s, user, rid, Some(root), n);
    RestoreExactly(s, user, rid, Some(root), RestoreFaults(false, false));
    hide Restore, PointsNowhere;
    var m := if n in s.dirs.rows then n else root;
    assert m in t.dirs.rows && t.userFiles[s.recycled[rid].userFile].dir == Itoa(m);
  }

  // ----- instant upload -----

  /** `c` is the only stored file with the request's signature and size, it is not encrypted, and its hashes
      are those of the request: the first three, or the one. */
  ghost predicate SharesContent(s: State, q: PrecheckReq, c: Id) {
    && q.signature != ""
    && c in s.fileInfos && s.fileInfos[c].signature == q.signature && s.fileInfos[c].size == q.size
    && (forall g <- s.fileInfos :: s.fileInfos[g].signature == q.signature && s.fileInfos[g].size == q.size ==> g == c)
    && !s.fileInfos[c].isEnc
    && ((|q.md5s| >= 3 && s.fileInfos[c].first == q.md5s[0] && s.fileInfos[c].second == q.md5s[1] && s.fileInfos[c].third == q.md5s[2])
        || (|q.md5s| == 1 && s.fileInfos[c].fileHash == q.md5s[0]))
  }

  lemma {:induction false} CandidateExactly(s: State, q: PrecheckReq, c: Id)
    ensures Candidate(s, q) == Some(c) <==> SharesContent(s, q, c)
  {
    var m := Matches(s, q.signature, q.size);
    if |m| == 1 {
      SingletonIsUnique(m);
    }
    if SharesContent(s, q, c) {
      assert m == {c};
    }
    if Candidate(s, q) == Some(c) {
      assert c in m;
      assert forall g <- s.fileInfos :: s.fileInfos[g].signature == q.signature && s.fileInfos[g].size == q.size ==> g in m;
    }
  }

  /** The user exists and, if limited, has room for the file. */
  predicate HasRoom(s: State, user: string, size: int) {
    user in s.users && (s.users[user].space <= 0 || s.users[user].free >= size)
  }

  /** A precheck that is answered with AlreadyDone, or that adds any row, shares the one stored file that the
      request matches, under the caller's name and the requested name and directory. */
  lemma {:induction false} SharedIsTheMatch(s: State, user: string, q: PrecheckReq, f: PrecheckFaults)
    requires Known(s)
    ensures var (t, r) := Precheck(s, user, q, f);
            r == AlreadyDone || t.userFiles.Keys != s.userFiles.Keys ==>
              && HasRoom(s, user, q.size) && t.userFiles.Keys == s.userFiles.Keys + {s.next}
              && var uf := t.userFiles[s.next];
                 uf.user == user && uf.name == q.name && uf.dir == q.dir && !uf.isPublic && SharesContent(s, q, uf.file)
  {
    var t := Precheck(s, user, q, f).0;
    if Candidate(s, q).Some? {
      CandidateExactly(s, q, Candidate(s, q).value);
      hide Candidate, SharesContent;
    }
  }

  /** The whole answer. Without a match, or when the link cannot be created, nothing is written and the upload is
      opened; a missing user or one without room is refused; a match is linked and a limited user debited,
      and when the debit fails the link is trashed, unless that fails too. */
  lemma {:induction false} PrecheckExactly(s: State, user: string, q: PrecheckReq, f: PrecheckFaults)
    ensures var (t, r) := Precheck(s, user, q, f);
            var begun := if f.task || f.cache then NotOpened else Proceed;
            && (user !in s.users ==> t == s && r == UserMissing)
            && (user in s.users && !HasRoom(s, user, q.size) ==> t == s && r == InsufficientSpace)
            && (HasRoom(s, user, q.size) && (f.link || forall c :: !SharesContent(s, q, c)) ==> t == s && r == begun)
            && (HasRoom(s, user, q.size) && !f.link ==> forall c | SharesContent(s, q, c) ::
                  var row := UserFile(user, c, q.name, q.dir, false, false);
                  var u := s.users[user];
                  && t == s.(userFiles := t.userFiles, users := t.users, next := s.next + 1)
                  && if u.space > 0 && f.debit then
                       && t.userFiles == s.userFiles[s.next := row.(trashed := !f.rollback)]
                       && t.users == s.users && r == begun
                     else
                       && t.userFiles == s.userFiles[s.next := row] && r == AlreadyDone
                       && t.users == if u.space > 0 then s.users[user := u.(free := u.free - q.size)] else s.users)
  {
    if Candidate(s, q).Some? {
      CandidateExactly(s, q, Candidate(s, q).value);
    }
    forall c: Id | SharesContent(s, q, c) ensures Candidate(s, q) == Some(c) {
      CandidateExactly(s, q, c);
    }
    hide Candidate, SharesContent;
  }

  // ----- upload -----

  /** A finished upload adds one FileInfo with what was sent and prechecked, and one live private UserFile that
      links the caller to it; only the second write failing leaves the first alone. */
  lemma {:induction false} UploadExactly(s: State, user: string, q: UploadReq, f: UploadFaults)
    ensures var (t, r) := Upload(s, user, q, f);
            && (f.info ==> t == s && r == Failed)
            && (!f.info ==>
                  && t.fileInfos.Keys == s.fileInfos.Keys + {s.next}
                  && (forall g <- s.fileInfos :: g != s.next ==> t.fileInfos[g] == s.fileInfos[g])
                  && var info := t.fileInfos[s.next];
                     && info.name == q.original && info.size == q.size && info.isEnc == q.isEnc
                     && info.signature == q.signature && info.fileHash == ""
                     && info.first == (if |q.md5s| > 0 then q.md5s[0] else "")
                     && info.second == (if |q.md5s| > 1 then q.md5s[1] else "")
                     && info.third == (if |q.md5s| > 2 then q.md5s[2] else ""))
            && (!f.info && f.link ==> t == s.(fileInfos := t.fileInfos, next := s.next + 1) && r == Failed)
            && (!f.info && !f.link ==>
                  && t == s.(fileInfos := t.fileInfos, userFiles := t.userFiles, next := s.next + 2) && r == Ok
                  && t.userFiles == s.userFiles[s.next + 1 := UserFile(user, s.next, q.name, q.dir, false, false)])
  {
  }

  // ----- trash -----

  /** The caller's row is marked and recorded under the caller, its file and the time; a failure between the two
      leaves the mark. */
  lemma {:induction false} TrashExactly(s: State, lk: Lookup, user: string, x: Id, now: int, f: TrashFaults)
    ensures var (t, r) := MoveToRecycled(s, lk, user, x, now, f);
            if !OwnRow(s, lk, user, x) then t == s && r == NotFound
            else if f.soft then t == s && r == Failed
            else
              && t.userFiles == s.userFiles[x := s.userFiles[x].(trashed := true)]
              && if f.record then t == s.(userFiles := t.userFiles) && r == Failed
                 else t == s.(userFiles := t.userFiles, recycled := t.recycled, next := s.next + 1) && r == Ok
                      && t.recycled == s.recycled[s.next := Recycled(user, x, s.userFiles[x].file, now)]
  {
  }

  // ----- edits of one file -----

  /** Only the directory of the caller's row changes, to the requested one. */
  lemma {:induction false} MoveExactly(s: State, lk: Lookup, user: string, x: Id, dir: string, fails: bool)
    ensures var (t, r) := MoveFile(s, lk, user, x, dir, fails);
            if !OwnRow(s, lk, user, x) then t == s && r == NotFound
            else if fails then t == s && r == Failed
            else r == Ok && t == s.(userFiles := s.userFiles[x := s.userFiles[x].(dir := dir)])
  {
  }

  /** Only the name of the caller's row changes, to the requested one without the blanks around it. */
  lemma {:induction false} RenameExactly(s: State, lk: Lookup, order: seq<Id>, user: string, x: Id, name: string, fails: bool)
    returns (a: string, kept: string, b: string)
    ensures name == a + kept + b && AllBlank(a) && AllBlank(b)
    ensures kept != [] ==> !AllBlank([kept[0]]) && !AllBlank([kept[|kept| - 1]])
    ensures var (t, r) := RenameFile(s, lk, order, user, x, name, fails);
            && (kept == [] ==> r == EmptyName)
            && (kept != [] && !OwnRow(s, lk, user, x) ==> r == NotFound)
            && (r != Ok ==> t == s)
            && (r == Ok ==> OwnRow(s, lk, user, x) && !fails && kept != []
                            && t == s.(userFiles := s.userFiles[x := s.userFiles[x].(name := kept)]))
  {
    a, b := TrimExactly(name);
    kept := Trim(name);
    hide Trim, AllBlank;
  }

  /** Only the flag of the caller's row changes, to the requested one; it can be set unless the file is
      stored encrypted, and always be cleared. */
  lemma {:induction false} PublicExactly(s: State, lk: Lookup, user: string, x: Id, public: bool, fails: bool)
    ensures var (t, r) := SetPublic(s, lk, user, x, public, fails);
            if !OwnRow(s, lk, user, x) then t == s && r == NotFound
            else if public && s.userFiles[x].file in s.fileInfos && s.fileInfos[s.userFiles[x].file].isEnc
            then t == s && r == EncryptedPublic
            else if fails then t == s && r == Failed
            else r == Ok && t == s.(userFiles := s.userFiles[x := s.userFiles[x].(isPublic := public)])
  {
  }

  // ----- permanent delete -----

  /** What one purge does to every table and what it answers, wherever it fails. The stored file goes only when
      it exists and no live row refers to it; its size is credited before, to a limited owner of the record. */
  lemma {:induction false} PurgeExactly(s: State, rid: Id, f: PurgeFaults)
    ensures var (t, r) := Purge(s, rid, f);
            if rid !in s.recycled then t == s && r == NotFound
            else
              var rec := s.recycled[rid];
              if rec.userFile !in s.userFiles then
                t == s.(recycled := if f.record then s.recycled else s.recycled - {rid}) && r == (if f.record then Failed else Ok)
              else
                var file := s.userFiles[rec.userFile].file;
                var free := file in s.fileInfos && forall y <- s.userFiles :: s.userFiles[y].trashed || s.userFiles[y].file != file;
                if f.count then t == s && r == Failed
                else
                  && t == s.(users := t.users, fileInfos := t.fileInfos, userFiles := t.userFiles, recycled := t.recycled)
                  && t.users == (if free && !f.credit && rec.user in s.users && s.users[rec.user].space > 0
                                 then s.users[rec.user := s.users[rec.user].(free := s.users[rec.user].free + s.fileInfos[file].size)]
                                 else s.users)
                  && t.fileInfos == (if free && !f.info then s.fileInfos - {file} else s.fileInfos)
                  && (if (free && f.info) || f.link then t.userFiles == s.userFiles && t.recycled == s.recycled && r == Failed
                      else t.userFiles == s.userFiles - {rec.userFile}
                           && t.recycled == (if f.record then s.recycled else s.recycled - {rid})
                           && r == (if f.record then Failed else Ok))
  {
    if rid in s.recycled && s.recycled[rid].userFile in s.userFiles {
      var file := s.userFiles[s.recycled[rid].userFile].file;
      assert ActiveRefs(s, file) == 0 <==> LiveRefs(s, file) == {};
      assert LiveRefs(s, file) == {} <==> forall y <- s.userFiles :: s.userFiles[y].trashed || s.userFiles[y].file != file by {
        assert forall y <- s.userFiles :: y in LiveRefs(s, file) <==> !s.userFiles[y].trashed && s.userFiles[y].file == file;
      }
      hide ActiveRefs, LiveRefs;
    }
  }
}
