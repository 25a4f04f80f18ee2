/** UploadChunk calls on one precheck identifier, one after another: chunks, whole files and re-sends. */
module Upload {
  import opened Basics
  import opened Chunks
  import opened UploadProtocol

  datatype Body = Chunk(index: int, total: int) | Whole

  datatype Call = Call(body: Body, data: Bytes)

  /** What goes wrong during a call: `unseen` are the chunks whose presence cannot be determined, `note` is
      the progress update and `mark` that of the final status, `copyAt` is the chunk whose copying fails,
      `sweep` the removal of the temp directory, `clean` that of the cached request. */
  datatype Faults = Faults(mkdir: bool, save: Fault, unseen: set<int>, note: bool, dest: bool, copyAt: Option<int>,
                           sweep: bool, info: bool, link: bool, mark: bool, clean: bool)

  const NO_FAULTS: Faults := Faults(false, Fine, {}, false, false, None, false, false, false, false, false)

  function CountPresent(files: ChunkFiles, unseen: set<int>, total: int): nat
    decreases if total > 0 then total else 0
  {
    if total <= 0 then 0
    else CountPresent(files, unseen, total - 1) + (if total - 1 in files && total - 1 !in unseen then 1 else 0)
  }

  datatype Merge = Merged(content: Bytes) | Stopped(why: Failure)

  /** Copying chunks 0 to n-1 in order, up to the first that is missing or cannot be copied. */
  function Copied(temp: Option<ChunkFiles>, n: nat, copyAt: Option<int>): Merge {
    if n == 0 then Merged([])
    else
      match Copied(temp, n - 1, copyAt)
      case Stopped(why) => Stopped(why)
      case Merged(out) =>
        if !OnDisk(temp, n - 1) then Stopped(OpenFailed(n - 1))
        else if copyAt == Some(n - 1) then Stopped(CopyFailed(n - 1))
        else Merged(out + temp.value[n - 1])
  }

  /** The copy succeeds exactly when every chunk is there and none fails, and then gives the chunks in order. */
  lemma {:induction false} CopiedExactly(temp: Option<ChunkFiles>, n: nat, copyAt: Option<int>)
    ensures Copied(temp, n, copyAt).Merged?
            <==> (forall i | 0 <= i < n :: OnDisk(temp, i)) && !(copyAt.Some? && 0 <= copyAt.value < n)
    ensures Copied(temp, n, copyAt).Merged? && temp.Some?
            ==> HasAll(temp.value, n) && Copied(temp, n, copyAt).content == Join(temp.value, n)
  {
    if n > 0 {
      CopiedExactly(temp, n - 1, copyAt);
    }
  }

  /** What both successful paths end with. */
  function Finish(s: Slot, stored: Stored, f: Faults): (Slot, Reply) {
    if f.info then (s, Error(InfoFailed))
    else
      var s := s.(infos := s.infos + [stored]);
      if f.link then (s, Error(LinkFailed))
      else (s.(links := s.links + 1, cached := s.cached && f.clean), Complete)
  }

  function Sweep(s: Slot, f: Faults): Slot {
    if f.sweep then s else s.(temp := None)
  }

  function MergeAndSave(s: Slot, total: nat, f: Faults): (Slot, Reply) {
    if f.dest then (s, Error(DestFailed))
    else
      match Copied(s.temp, total, f.copyAt)
      case Stopped(why) => (s, Error(why))
      case Merged(out) => Finish(Sweep(s, f), Stored(s.fileSize, out), f)
  }

  function MergeCall(s: Slot, total: nat, f: Faults): (Slot, Reply) {
    var (s, reply) := MergeAndSave(s, total, f);
    (if f.mark then s else s.(status := if reply.Complete? then Completed else Failed), reply)
  }

  function AsCount(total: int): nat {
    if total < 0 then 0 else total
  }

  function ChunkCall(s: Slot, files: ChunkFiles, index: int, total: int, data: Bytes, f: Faults): (Slot, Reply) {
    match f.save
    case Fails => (s, Error(SaveFailed))
    case Torn(left) => (s.(temp := Some(files[index := left])), Error(SaveFailed))
    case Fine =>
      var files := files[index := data];
      var s := s.(temp := Some(files), status := if f.note then s.status else Uploading);
      var n := CountPresent(files, f.unseen, total);
      if n < total || s.locked then (s, Partial(n, total)) else MergeCall(s, AsCount(total), f)
  }

  function WholeCall(s: Slot, data: Bytes, f: Faults): (Slot, Reply) {
    if !f.save.Fine? then (s, Error(SaveFailed))
    else if f.dest then (s, Error(DestFailed))
    else Finish(Sweep(s, f), Stored(|data|, data), f)
  }

  /** A call that has found its request in the cache. */
  function AdmittedCall(s: Slot, c: Call, f: Faults): (Slot, Reply) {
    if f.mkdir then (s, Error(MkdirFailed))
    else
      var files := if s.temp.Some? then s.temp.value else map[];
      var s := s.(temp := Some(files));
      match c.body
      case Chunk(index, total) => ChunkCall(s, files, index, total, c.data, f)
      case Whole => WholeCall(s, c.data, f)
  }

  function UploadChunk(s: Slot, c: Call, f: Faults): (Slot, Reply) {
    if !s.cached then (s, Expired) else AdmittedCall(s, c, f)
  }

  lemma {:induction false} CountBound(files: ChunkFiles, unseen: set<int>, total: int)
    ensures total >= 0 ==> CountPresent(files, unseen, total) <= total
    decreases if total > 0 then total else 0
  {
    if total > 0 {
      CountBound(files, unseen, total - 1);
    }
  }

  /** Counting finds `total` chunks exactly when all of them are there and seen. */
  lemma {:induction false} AllPresent(files: ChunkFiles, unseen: set<int>, total: int)
    ensures CountPresent(files, unseen, total) >= total
            <==> HasAll(files, total) && forall i | 0 <= i < total :: i !in unseen
    decreases if total > 0 then total else 0
  {
    if total > 0 {
      CountBound(files, unseen, total - 1);
      AllPresent(files, unseen, total - 1);
    }
  }

  // ----- at most one UserFile -----

  function Calls(s: Slot, cs: seq<(Call, Faults)>): Slot
    decreases |cs|
  {
    if cs == [] then s else Calls(UploadChunk(s, cs[0].0, cs[0].1).0, cs[1..])
  }

  /** Either nothing has been created yet, or one UserFile has and the session is closed. */
  predicate AtMostOnce(s: Slot) {
    s.links == 0 || (s.links == 1 && !s.cached)
  }

  /** Whatever mix of chunk and whole-file calls arrives, re-sends included, and whatever else fails, at
      most one UserFile is created, as long as dropping the cached request does not fail. */
  lemma {:induction false} CallsCreateAtMostOne(s: Slot, cs: seq<(Call, Faults)>)
    requires AtMostOnce(s) && forall i | 0 <= i < |cs| :: !cs[i].1.clean
    ensures AtMostOnce(Calls(s, cs))
    decreases |cs|
  {
    if cs != [] {
      assert !cs[0].1.clean;
      assert AtMostOnce(UploadChunk(s, cs[0].0, cs[0].1).0);
      CallsCreateAtMostOne(UploadChunk(s, cs[0].0, cs[0].1).0, cs[1..]);
    }
  }

  lemma {:induction false} ClosedStaysClosed(s: Slot, cs: seq<(Call, Faults)>)
    requires !s.cached
    ensures Calls(s, cs) == s
    decreases |cs|
  {
    if cs != [] {
      ClosedStaysClosed(s, cs[1..]);
    }
  }

  /** After a call has completed, no later call, failing or not, can create another UserFile: exactly when
      dropping the cached request has succeeded. */
  lemma {:induction false} CompletionIsLastExactly(s: Slot, c: Call, f: Faults)
    requires UploadChunk(s, c, f).1.Complete?
    ensures var t := UploadChunk(s, c, f).0;
            (forall cs :: Calls(t, cs).links == t.links) <==> !f.clean
  {
    var t := UploadChunk(s, c, f).0;
    if f.clean {
      var again := [(Call(Whole, []), NO_FAULTS)];
      assert Calls(t, again) == Calls(UploadChunk(t, again[0].0, NO_FAULTS).0, []);
      assert Calls(t, again).links == t.links + 1;
    } else {
      forall cs ensures Calls(t, cs).links == t.links {
        ClosedStaysClosed(t, cs);
      }
    }
  }

  // ----- what is stored and answered -----

  /** `stored` is what the call was sent to store: the bytes of a whole file with their own length, or all the
      chunks on disk, this one included, in index order with the size of the precheck. */
  ghost predicate SentBy(s: Slot, c: Call, stored: Stored) {
    match c.body
    case Whole => stored.size == |c.data| && stored.content == c.data
    case Chunk(index, total) =>
      var files := (if s.temp.Some? then s.temp.value else map[])[index := c.data];
      HasAll(files, AsCount(total)) && stored.size == s.fileSize && stored.content == Join(files, AsCount(total))
  }

  /** The infos of `t` are those of `s`, or one more, which is a `stored`; one more for certain when `complete`. */
  ghost predicate StoresOne(s: Slot, t: Slot, stored: Stored, complete: bool) {
    t.fileSize == s.fileSize && (t.infos == s.infos + [stored] || (!complete && t.infos == s.infos))
  }

  lemma MergeStores(s: Slot, total: nat, f: Faults)
    requires s.temp.Some?
    ensures var (t, reply) := MergeCall(s, total, f);
            if HasAll(s.temp.value, total) then StoresOne(s, t, Stored(s.fileSize, Join(s.temp.value, total)), reply.Complete?)
            else t.infos == s.infos && t.fileSize == s.fileSize && !reply.Complete?
  {
    CopiedExactly(s.temp, total, f.copyAt);
    hide Copied, Join;
  }

  lemma ChunkStores(s: Slot, files: ChunkFiles, index: int, total: int, data: Bytes, f: Faults)
    ensures var (t, reply) := ChunkCall(s, files, index, total, data, f);
            var all := files[index := data];
            if HasAll(all, AsCount(total)) then StoresOne(s, t, Stored(s.fileSize, Join(all, AsCount(total))), reply.Complete?)
            else t.infos == s.infos && t.fileSize == s.fileSize && !reply.Complete?
  {
    MergeStores(s.(temp := Some(files[index := data]), status := if f.note then s.status else Uploading), AsCount(total), f);
    hide CountPresent, MergeCall, Join;
  }

  lemma WholeStores(s: Slot, data: Bytes, f: Faults)
    ensures var (t, reply) := WholeCall(s, data, f); StoresOne(s, t, Stored(|data|, data), reply.Complete?)
  {
  }

  /** A call stores at most one FileInfo, of what it was sent; a call that completes stores one. */
  lemma {:induction false} CallStores(s: Slot, c: Call, f: Faults)
    ensures var (t, reply) := UploadChunk(s, c, f);
            && s.infos <= t.infos && |t.infos| <= |s.infos| + 1 && t.fileSize == s.fileSize
            && (|t.infos| > |s.infos| ==> SentBy(s, c, t.infos[|s.infos|]))
            && (reply.Complete? ==> |t.infos| == |s.infos| + 1)
  {
    var files := if s.temp.Some? then s.temp.value else map[];
    match c.body
    case Whole => WholeStores(s.(temp := Some(files)), c.data, f);
    case Chunk(index, total) => ChunkStores(s.(temp := Some(files)), files, index, total, c.data, f);
    hide WholeCall, ChunkCall, Join;
  }

  /** What a call leaves of the session besides its rows: the lock as it was; the cached request, dropped by a
      completion unless that fails; for a chunk call that was saved, the chunks or, after a completed merge, no
      temp directory, and the status that goes with the answer unless storing it fails. */
  lemma {:induction false} CallLeaves(s: Slot, c: Call, f: Faults)
    ensures var (t, reply) := UploadChunk(s, c, f);
            && (!s.cached ==> t == s && reply == Expired)
            && (s.cached && f.mkdir ==> t == s && reply == Error(MkdirFailed))
            && t.locked == s.locked
            && (t.cached <==> s.cached && (reply.Complete? ==> f.clean))
            && (s.cached && !f.mkdir && !f.save.Fine? ==> reply == Error(SaveFailed) && t.infos == s.infos && t.status == s.status)
            && (s.cached && !f.mkdir && f.save.Fine? && c.body.Chunk? ==>
                  var files := (if s.temp.Some? then s.temp.value else map[])[c.body.index := c.data];
                  && (reply.Partial? ==> t.temp == Some(files) && t.infos == s.infos)
                  && (reply.Complete? ==> t.temp == if f.sweep then Some(files) else None)
                  && t.status == (if reply.Complete? && !f.mark then Completed
                                  else if reply.Error? && !f.mark then Failed
                                  else if f.note then s.status else Uploading))
            && (c.body.Whole? ==> t.status == s.status && (reply.Complete? && !f.sweep ==> t.temp.None?))
  {
    hide CountPresent, Join;
  }

  /** A whole-file call that completes stores exactly the bytes that were sent. */
  lemma WholeStoresBytes(s: Slot, data: Bytes, f: Faults)
    requires UploadChunk(s, Call(Whole, data), f).1.Complete?
    ensures UploadChunk(s, Call(Whole, data), f).0.infos == s.infos + [Stored(|data|, data)]
  {
    CallStores(s, Call(Whole, data), f);
    hide UploadChunk;
    var t := UploadChunk(s, Call(Whole, data), f).0;
    assert t.infos == s.infos + [t.infos[|s.infos|]];
  }

  /** Over any sequence of calls, whatever fails: everything stored was sent by one of the calls. */
  lemma {:induction false} EverythingStoredWasSent(s: Slot, cs: seq<(Call, Faults)>)
    ensures s.infos <= Calls(s, cs).infos
    ensures forall k | |s.infos| <= k < |Calls(s, cs).infos| ::
              exists j :: 0 <= j < |cs| && SentBy(Calls(s, cs[..j]), cs[j].0, Calls(s, cs).infos[k])
    decreases |cs|
  {
    if cs != [] {
      var n := |cs| - 1;
      var front, last := cs[..n], cs[n];
      assert cs == front + [last];
      CallsSnoc(s, front, last);
      CallStores(Calls(s, front), last.0, last.1);
      EverythingStoredWasSent(s, front);
      hide UploadChunk, SentBy;
      var before, after := Calls(s, front), Calls(s, cs);
      forall k | |s.infos| <= k < |after.infos| ensures exists j :: 0 <= j < |cs| && SentBy(Calls(s, cs[..j]), cs[j].0, after.infos[k]) {
        if k < |before.infos| {
          var j :| 0 <= j < |front| && SentBy(Calls(s, front[..j]), front[j].0, before.infos[k]);
          assert front[..j] == cs[..j] && SentBy(Calls(s, cs[..j]), cs[j].0, after.infos[k]);
        } else {
          assert SentBy(Calls(s, cs[..n]), cs[n].0, after.infos[k]);
        }
      }
    }
  }

  lemma {:induction false} CountPresentExactly(files: ChunkFiles, unseen: set<int>, total: int)
    ensures CountPresent(files, unseen, total) == |set i | 0 <= i < total && i in files && i !in unseen|
    decreases if total > 0 then total else 0
  {
    var all := set i | 0 <= i < total && i in files && i !in unseen;
    if total > 0 {
      var rest := set i | 0 <= i < total - 1 && i in files && i !in unseen;
      CountPresentExactly(files, unseen, total - 1);
      assert all == rest + if total - 1 in files && total - 1 !in unseen then {total - 1} else {};
    } else {
      assert all == {};
    }
  }

  /** A chunk that was saved is answered with how many of the chunks from 0 on are there, when some are missing or
      another request is merging; and only then. */
  lemma {:induction false} PartialTellsCount(s: Slot, index: int, total: int, data: Bytes, f: Faults)
    requires s.cached && !f.mkdir && f.save.Fine?
    ensures var reply := UploadChunk(s, Call(Chunk(index, total), data), f).1;
            var files := (if s.temp.Some? then s.temp.value else map[])[index := data];
            var n := |set i | 0 <= i < total && i in files && i !in f.unseen|;
            if n < total || s.locked then reply == Partial(n, total) else !reply.Partial?
  {
    var files := (if s.temp.Some? then s.temp.value else map[])[index := data];
    CountPresentExactly(files, f.unseen, total);
    hide CountPresent, Copied;
  }

  // ----- split, send in any order, merge -----

  /** The calls that send the chunks of `content` with the given indices. */
  function Sending(content: ChunkFiles, total: int, order: seq<int>): seq<(Call, Faults)>
    requires forall k | 0 <= k < |order| :: order[k] in content
  {
    seq(|order|, k requires 0 <= k < |order| => (Call(Chunk(order[k], total), content[order[k]]), NO_FAULTS))
  }

  ghost predicate Holding(s: Slot, content: ChunkFiles, sent: seq<int>) {
    && s.cached && !s.locked
    && (if s.temp.Some? then s.temp.value else map[]) == (map i | i in content && i in sent :: content[i])
  }

  lemma {:induction false} PartialSends(s: Slot, content: ChunkFiles, total: int, done: seq<int>, order: seq<int>)
    requires total >= 1 && (forall i :: i in content <==> 0 <= i < total)
    requires (forall k | 0 <= k < |order| :: order[k] in content) && Holding(s, content, done)
    requires exists i :: i in content && i !in done + order
    ensures Holding(Calls(s, Sending(content, total, order)), content, done + order)
    ensures Calls(s, Sending(content, total, order)).infos == s.infos
    ensures Calls(s, Sending(content, total, order)).links == s.links
    ensures Calls(s, Sending(content, total, order)).fileSize == s.fileSize
    decreases |order|
  {
    if order == [] {
      assert done + order == done;
    } else {
      var k := order[0];
      var before := if s.temp.Some? then s.temp.value else map[];
      var files := before[k := content[k]];
      var missing :| missing in content && missing !in done + order;
      assert (map i | i in content && i in done + [k] :: content[i]) == files;
      assert missing !in files;
      AllPresent(files, {}, total);
      var s' := s.(temp := Some(files), status := Uploading);
      assert UploadChunk(s, Call(Chunk(k, total), content[k]), NO_FAULTS).0 == s';
      assert Sending(content, total, order)[1..] == Sending(content, total, order[1..]);
      assert done + [k] + order[1..] == done + order;
      PartialSends(s', content, total, done + [k], order[1..]);
    }
  }

  lemma {:induction false} CallsSnoc(s: Slot, calls: seq<(Call, Faults)>, last: (Call, Faults))
    ensures Calls(s, calls + [last]) == UploadChunk(Calls(s, calls), last.0, last.1).0
    decreases |calls|
  {
    hide UploadChunk;
    if calls == [] {
      var t := UploadChunk(s, last.0, last.1).0;
      assert Calls(s, [] + [last]) == Calls(t, []) == t;
    } else {
      assert (calls + [last])[1..] == calls[1..] + [last];
      CallsSnoc(UploadChunk(s, calls[0].0, calls[0].1).0, calls[1..], last);
    }
  }

  /** The send that brings the last missing chunk merges and completes. */
  lemma LastSend(s: Slot, content: ChunkFiles, total: nat, sent: seq<int>, last: int)
    requires Holding(s, content, sent) && last in content
    requires (forall i :: i in content <==> 0 <= i < total) && (forall i <- content :: i == last || i in sent)
    ensures var (t, reply) := UploadChunk(s, Call(Chunk(last, total), content[last]), NO_FAULTS);
            && reply.Complete? && HasAll(content, total)
            && t.infos == s.infos + [Stored(s.fileSize, Join(content, total))] && t.links == s.links + 1
            && t.temp.None? && !t.cached && t.status == Completed
  {
    var files := (if s.temp.Some? then s.temp.value else map[])[last := content[last]];
    forall i ensures i in files <==> i in content {
    }
    assert files.Keys == content.Keys;
    assert forall i | i in files :: files[i] == content[i];
    assert files == content;
    AllPresent(files, {}, total);
    CopiedExactly(Some(files), total, None);
  }

  /** Send all chunks one call after another, in any order, re-sending what has been sent as often as one
      likes before the last missing chunk: one merge happens, of all the chunks in index order. */
  lemma {:induction false} SendAll(s: Slot, content: ChunkFiles, total: nat, order: seq<int>, last: int)
    requires total >= 1 && (forall i :: i in content <==> 0 <= i < total)
    requires s.cached && !s.locked && s.temp.None?
    requires last in content && last !in order
    requires (forall k | 0 <= k < |order| :: order[k] in content) && (forall i <- content :: i == last || i in order)
    ensures var t := Calls(s, Sending(content, total, order + [last]));
            && HasAll(content, total)
            && t.infos == s.infos + [Stored(s.fileSize, Join(content, total))] && t.links == s.links + 1
            && t.temp.None? && !t.cached && t.status == Completed
  {
    hide UploadChunk, Calls, Join;
    assert [] + order == order;
    PartialSends(s, content, total, [], order);
    var mid, call := Calls(s, Sending(content, total, order)), (Call(Chunk(last, total), content[last]), NO_FAULTS);
    LastSend(mid, content, total, order, last);
    CallsSnoc(s, Sending(content, total, order), call);
    assert Sending(content, total, order + [last]) == Sending(content, total, order) + [call];
  }

  /** Splitting and merging undo each other: the content comes back, with its length as the recorded size. */
  lemma {:induction false} SplitSendMerge(s: Slot, file: Bytes, order: seq<int>, last: int)
    requires 1 <= |file| && |file| + CHUNK_SIZE - 1 <= MAX_INT64 && LeastCover(|file|, TotalChunks(|file|))
    requires s.cached && !s.locked && s.temp.None? && s.fileSize == |file|
    requires last !in order && last in Cut(file, TotalChunks(|file|))
    requires forall k | 0 <= k < |order| :: order[k] in Cut(file, TotalChunks(|file|))
    requires forall i <- Cut(file, TotalChunks(|file|)) :: i == last || i in order
    ensures var t := Calls(s, Sending(Cut(file, TotalChunks(|file|)), TotalChunks(|file|), order + [last]));
            && t.infos == s.infos + [Stored(|file|, file)] && t.links == s.links + 1
            && t.temp.None? && !t.cached && t.status == Completed
  {
    JoinUndoesCut(file);
    SendAll(s, Cut(file, TotalChunks(|file|)), TotalChunks(|file|), order, last);
  }

  // ----- a call is a run of the protocol with nobody else about -----

  function FailIf(b: bool): Fault {
    if b then Fails else Fine
  }

  /** What the faults of a call mean for the turn its request takes at `pc`. */
  function FaultAt(f: Faults, q: Request, pc: Pc): Fault {
    match pc
    case Admitted => FailIf(f.mkdir)
    case Prepared => f.save
    case Counting(i, _) => FailIf(i in f.unseen)
    case Noting(_) => FailIf(f.note)
    case Locked => FailIf(f.dest)
    case Merging(i, _) => FailIf(if i < q.total then f.copyAt == Some(i) else f.sweep)
    case Saving(_) => FailIf(f.info)
    case Linking => FailIf(f.link)
    case Finishing => FailIf(f.mark)
    case Failing(_) => FailIf(f.mark)
    case Cleaning => FailIf(f.clean)
    case _ => Fine
  }

  function SoloStep(q: Request, f: Faults, a: (Slot, Pc)): (Slot, Pc) {
    Act(q, a.0, a.1, FaultAt(f, q, a.1))
  }

  /** `k` steps of one request on its own. */
  function Solo(q: Request, f: Faults, a: (Slot, Pc), k: nat): (Slot, Pc)
    decreases k
  {
    if k == 0 then a else Solo(q, f, SoloStep(q, f, a), k - 1)
  }

  ghost predicate Reaches(q: Request, f: Faults, a: (Slot, Pc), b: (Slot, Pc)) {
    exists k: nat :: Solo(q, f, a, k) == b
  }

  lemma {:induction false} SoloAppend(q: Request, f: Faults, a: (Slot, Pc), k: nat, l: nat)
    ensures Solo(q, f, a, k + l) == Solo(q, f, Solo(q, f, a, k), l)
    decreases k
  {
    if k > 0 {
      SoloAppend(q, f, SoloStep(q, f, a), k - 1, l);
    }
  }

  lemma Stay(q: Request, f: Faults, a: (Slot, Pc))
    ensures Reaches(q, f, a, a)
  {
    assert Solo(q, f, a, 0) == a;
  }

  /** One step, and whatever follows it. */
  lemma StepThen(q: Request, f: Faults, a: (Slot, Pc), b: (Slot, Pc))
    requires Reaches(q, f, SoloStep(q, f, a), b)
    ensures Reaches(q, f, a, b)
  {
    var k: nat :| Solo(q, f, SoloStep(q, f, a), k) == b;
    assert Solo(q, f, a, k + 1) == b;
  }

  lemma Then(q: Request, f: Faults, a: (Slot, Pc), b: (Slot, Pc), c: (Slot, Pc))
    requires Reaches(q, f, a, b) && Reaches(q, f, b, c)
    ensures Reaches(q, f, a, c)
  {
    var k: nat :| Solo(q, f, a, k) == b;
    var l: nat :| Solo(q, f, b, l) == c;
    SoloAppend(q, f, a, k, l);
    assert Solo(q, f, a, k + l) == c;
  }

  lemma {:induction false} SoloCounts(q: Request, f: Faults, s: Slot, i: nat)
    requires s.temp.Some? && (i <= q.total || i == 0)
    ensures Reaches(q, f, (s, Counting(i, CountPresent(s.temp.value, f.unseen, i))),
                    (s, Noting(CountPresent(s.temp.value, f.unseen, q.total))))
    decreases q.total - i
  {
    var done := (s, Noting(CountPresent(s.temp.value, f.unseen, q.total)));
    if i < q.total {
      SoloCounts(q, f, s, i + 1);
    } else {
      Stay(q, f, done);
    }
    StepThen(q, f, (s, Counting(i, CountPresent(s.temp.value, f.unseen, i))), done);
  }

  /** Where copying leads: to the sweep with everything copied, or to the failure of the first bad chunk. */
  function Outcome(s: Slot, m: Merge, total: nat): (Slot, Pc) {
    match m
    case Merged(out) => (s, Merging(total, out))
    case Stopped(why) => (s, Failing(why))
  }

  lemma {:induction false} StoppedStays(temp: Option<ChunkFiles>, i: nat, n: nat, copyAt: Option<int>)
    requires i <= n && Copied(temp, i, copyAt).Stopped?
    ensures Copied(temp, n, copyAt) == Copied(temp, i, copyAt)
  {
    if i < n {
      StoppedStays(temp, i, n - 1, copyAt);
    }
  }

  lemma {:induction false} SoloCopies(q: Request, f: Faults, s: Slot, i: nat, total: nat)
    requires i <= total == AsCount(q.total)
    ensures Reaches(q, f, Outcome(s, Copied(s.temp, i, f.copyAt), i), Outcome(s, Copied(s.temp, total, f.copyAt), total))
    decreases total - i
  {
    var done := Outcome(s, Copied(s.temp, total, f.copyAt), total);
    if Copied(s.temp, i, f.copyAt).Stopped? {
      StoppedStays(s.temp, i, total, f.copyAt);
      Stay(q, f, done);
    } else if i == total {
      Stay(q, f, done);
    } else {
      SoloCopies(q, f, s, i + 1, total);
      StepThen(q, f, (s, Merging(i, Copied(s.temp, i, f.copyAt).content)), done);
    }
  }

  /** The failing end of a merge. */
  lemma SoloFails(q: Request, f: Faults, s: Slot, why: Failure)
    requires s.locked
    ensures Reaches(q, f, (s, Failing(why)),
                    (s.(locked := false, status := if f.mark then s.status else Failed), Done(Error(why))))
  {
    var s1 := if f.mark then s else s.(status := Failed);
    var done := (s1.(locked := false), Done(Error(why)));
    Stay(q, f, done);
    StepThen(q, f, (s1, Releasing(Error(why))), done);
    StepThen(q, f, (s, Failing(why)), done);
  }

  /** From the sweep to the reply. */
  lemma SoloFinishes(q: Request, f: Faults, s: Slot, out: Bytes)
    requires s.locked
    ensures var (t, reply) := Finish(Sweep(s, f), Stored(s.fileSize, out), f);
            Reaches(q, f, (s, Merging(AsCount(q.total), out)),
                    (t.(locked := false, status := if f.mark then t.status else if reply.Complete? then Completed else Failed), Done(reply)))
  {
    var s1 := Sweep(s, f);
    var (t, reply) := Finish(s1, Stored(s.fileSize, out), f);
    var done := (t.(locked := false, status := if f.mark then t.status else if reply.Complete? then Completed else Failed), Done(reply));
    if f.info {
      SoloFails(q, f, s1, InfoFailed);
    } else {
      var s2 := s1.(infos := s1.infos + [Stored(s.fileSize, out)]);
      if f.link {
        SoloFails(q, f, s2, LinkFailed);
      } else {
        var s3 := s2.(links := s2.links + 1);
        var s4 := if f.mark then s3 else s3.(status := Completed);
        var s5 := if f.clean then s4 else s4.(cached := false);
        Stay(q, f, done);
        StepThen(q, f, (s5, Releasing(Complete)), done);
        StepThen(q, f, (s4, Cleaning), done);
        StepThen(q, f, (s3, Finishing), done);
      }
      StepThen(q, f, (s2, Linking), done);
    }
    StepThen(q, f, (s1, Saving(out)), done);
    StepThen(q, f, (s, Merging(AsCount(q.total), out)), done);
  }

  /** From having counted every chunk with the lock free to the reply. */
  lemma SoloWins(q: Request, f: Faults, s: Slot, n: int)
    requires !s.locked && n >= q.total
    ensures var (t, reply) := MergeCall(s, AsCount(q.total), f); Reaches(q, f, (s, Deciding(n)), (t, Done(reply)))
  {
    hide Reaches;
    var total, s1 := AsCount(q.total), s.(locked := true);
    var (t, reply) := MergeCall(s, total, f);
    var done := (t, Done(reply));
    if f.dest {
      SoloFails(q, f, s1, DestFailed);
    } else {
      match Copied(s.temp, total, f.copyAt) {
        case Stopped(why) => SoloFails(q, f, s1, why);
        case Merged(out) => SoloFinishes(q, f, s1, out);
      }
      SoloCopies(q, f, s1, 0, total);
      Then(q, f, (s1, Merging(0, [])), Outcome(s1, Copied(s.temp, total, f.copyAt), total), done);
    }
    StepThen(q, f, (s1, Locked), done);
    StepThen(q, f, (s, Deciding(n)), done);
  }

  /** From the temp directory on, a request alone does what the admitted call does, whatever fails. */
  lemma SoloIsAdmittedCall(q: Request, f: Faults, s: Slot)
    ensures var (t, reply) := AdmittedCall(s, Call(Chunk(q.index, q.total), q.data), f);
            Reaches(q, f, (s, Admitted), (t, Done(reply)))
  {
    hide Reaches, MergeCall;
    var (t, reply) := AdmittedCall(s, Call(Chunk(q.index, q.total), q.data), f);
    var done := (t, Done(reply));
    if f.mkdir {
      Stay(q, f, done);
    } else {
      var files := if s.temp.Some? then s.temp.value else map[];
      var s1 := s.(temp := Some(files));
      if !f.save.Fine? {
        Stay(q, f, done);
      } else {
        var s2 := s.(temp := Some(files[q.index := q.data]));
        var n := CountPresent(files[q.index := q.data], f.unseen, q.total);
        var s3 := if f.note then s2 else s2.(status := Uploading);
        if n < q.total || s.locked {
          Stay(q, f, done);
          StepThen(q, f, (s3, Deciding(n)), done);
        } else {
          SoloWins(q, f, s3, n);
        }
        StepThen(q, f, (s2, Noting(n)), done);
        SoloCounts(q, f, s2, 0);
        Then(q, f, (s2, Counting(0, 0)), (s2, Noting(n)), done);
      }
      StepThen(q, f, (s1, Prepared), done);
    }
    StepThen(q, f, (s, Admitted), done);
  }

  /** A sequential chunk upload, with any of its failures, is what the interleaved protocol does when a request
      runs alone and its turns fail accordingly. */
  lemma SoloIsUploadChunk(q: Request, f: Faults, s: Slot)
    ensures var (t, reply) := UploadChunk(s, Call(Chunk(q.index, q.total), q.data), f);
            Reaches(q, f, (s, Arrived), (t, Done(reply)))
  {
    hide Reaches, AdmittedCall;
    var (t, reply) := UploadChunk(s, Call(Chunk(q.index, q.total), q.data), f);
    if s.cached {
      SoloIsAdmittedCall(q, f, s);
    } else {
      Stay(q, f, (t, Done(reply)));
    }
    StepThen(q, f, (s, Arrived), (t, Done(reply)));
  }
}
