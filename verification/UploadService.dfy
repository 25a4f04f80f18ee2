/** The upload calls as the service runs them, on the state kept under one precheck identifier. */
module UploadUseCase {
  import opened Basics
  import opened Chunks
  import opened UploadProtocol
  import opened Upload
  import Spec = Upload

  lemma LockIsNeutral(s: Slot, total: nat, f: Faults)
    ensures var (t, r) := Spec.MergeAndSave(s, total, f);
            Spec.MergeAndSave(s.(locked := true), total, f) == (t.(locked := true), r) && t.locked == s.locked
    ensures var (t, r) := Spec.MergeAndSave(s, total, f);
            t.cached == if r.Complete? then s.cached && f.clean else s.cached
  {
  }

  /** What one call, whatever fails in it, does to the rows of the upload. */
  lemma {:induction false} CallKeeps(s: Slot, c: Call, f: Faults)
    ensures var (t, reply) := Spec.UploadChunk(s, c, f);
            && (s.links <= |s.infos| ==> t.links <= |t.infos|)
            && (AtMostOnce(s) && !f.clean ==> AtMostOnce(t))
            && t.links == s.links + (if reply.Complete? then 1 else 0)
  {
  }

  class UploadSession {
    const fileSize: int
    var cached: bool
    var temp: Option<ChunkFiles>
    var locked: bool
    var status: Status
    var infos: seq<Stored>
    var links: nat

    function View(): Slot
      reads this
    {
      Slot(cached, fileSize, temp, locked, status, infos, links)
    }

    /** Every UserFile created has its FileInfo. */
    ghost predicate Valid()
      reads this
    {
      links <= |infos|
    }

    /** A precheck has just cached its request. */
    constructor (fileSize: int)
      ensures Valid() && View() == Slot(true, fileSize, None, false, Pending, [], 0)
    {
      this.fileSize := fileSize;
      cached, temp, locked, status, infos, links := true, None, false, Pending, [], 0;
    }

    method UploadChunk(c: Call, f: Faults) returns (reply: Reply)
      requires Valid()
      modifies this
      ensures (View(), reply) == Spec.UploadChunk(old(View()), c, f)
      ensures Valid()
      ensures old(AtMostOnce(View())) && !f.clean ==> AtMostOnce(View())
      ensures links == old(links) + if reply.Complete? then 1 else 0
    {
      CallKeeps(View(), c, f);
      hide ChunkCall, WholeCall, AtMostOnce;
      if !cached {
        return Expired;
      }
      if f.mkdir {
        return Error(MkdirFailed);
      }
      if temp.None? {
        temp := Some(map[]);
      }
      match c.body
      case Chunk(index, total) => reply := HandleChunk(index, total, c.data, f);
      case Whole => reply := HandleSingleFile(c.data, f);
    }

    method HandleChunk(index: int, total: int, data: Bytes, f: Faults) returns (reply: Reply)
      requires temp.Some?
      requires Valid()
      modifies this
      ensures (View(), reply) == ChunkCall(old(View()), old(temp).value, index, total, data, f)
      ensures Valid()
    {
      match f.save {
        case Fails =>
          return Error(SaveFailed);
        case Torn(left) =>
          temp := Some(temp.value[index := left]);
          return Error(SaveFailed);
        case Fine =>
          temp := Some(temp.value[index := data]);
      }
      var uploaded := CountChunks(total, f);
      if !f.note {
        status := Uploading;
      }
      if uploaded < total || locked {
        return Partial(uploaded, total);
      }
      reply := MergeUnderLock(total, f);
    }

    /** Takes the merge lock, merges, stores the outcome and releases the lock. */
    method MergeUnderLock(total: int, f: Faults) returns (reply: Reply)
      requires !locked
      requires Valid()
      modifies this
      ensures (View(), reply) == MergeCall(old(View()), AsCount(total), f)
      ensures Valid()
    {
      LockIsNeutral(View(), AsCount(total), f);
      locked := true;
      reply := MergeAndSave(total, f);
      if !f.mark {
        status := if reply.Error? then Failed else Completed;
      }
      if !reply.Error? {
        cached := cached && f.clean;
      }
      locked := false;
    }

    method CountChunks(total: int, f: Faults) returns (n: nat)
      requires temp.Some?
      ensures n == CountPresent(temp.value, f.unseen, total)
    {
      n := 0;
      var i := 0;
      while i < total
        invariant 0 <= i && (i <= total || i == 0)
        invariant n == CountPresent(temp.value, f.unseen, i)
      {
        if i in temp.value && i !in f.unseen {
          n := n + 1;
        }
        i := i + 1;
      }
    }

    /** Copies the chunks in index order and creates the two rows; the caller drops the cached request. */
    method MergeAndSave(total: int, f: Faults) returns (reply: Reply)
      requires Valid()
      modifies this
      ensures var (s, r) := Spec.MergeAndSave(old(View()), AsCount(total), f);
              reply == r && View() == s.(cached := old(cached))
      ensures Valid()
    {
      if f.dest {
        return Error(DestFailed);
      }
      var out: Bytes := [];
      var i := 0;
      while i < total
        invariant 0 <= i && (i <= total || i == 0) && View() == old(View())
        invariant Copied(temp, i, f.copyAt) == Merged(out)
      {
        if temp.None? || i !in temp.value {
          StoppedStays(temp, i + 1, total, f.copyAt);
          return Error(OpenFailed(i));
        }
        if f.copyAt == Some(i) {
          StoppedStays(temp, i + 1, total, f.copyAt);
          return Error(CopyFailed(i));
        }
        out := out + temp.value[i];
        i := i + 1;
      }
      if !f.sweep {
        temp := None;
      }
      if f.info {
        return Error(InfoFailed);
      }
      infos := infos + [Stored(fileSize, out)];
      if f.link {
        return Error(LinkFailed);
      }
      links := links + 1;
      return Complete;
    }

    method HandleSingleFile(data: Bytes, f: Faults) returns (reply: Reply)
      requires temp.Some?
      requires Valid()
      modifies this
      ensures (View(), reply) == WholeCall(old(View()), data, f)
      ensures Valid()
    {
      if !f.save.Fine? {
        return Error(SaveFailed);
      }
      if f.dest {
        return Error(DestFailed);
      }
      if f.info {
        reply := Error(InfoFailed);
      } else {
        infos := infos + [Stored(|data|, data)];
        if f.link {
          reply := Error(LinkFailed);
        } else {
          links := links + 1;
          cached := cached && f.clean;
          reply := Complete;
        }
      }
      if !f.sweep {
        temp := None;
      }
    }
  }
}
