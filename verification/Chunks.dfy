/** Cutting a file into chunks and joining chunk files back together. */
module Chunks {
  import opened Basics

  newtype byte = x: int | 0 <= x < 256

  type Bytes = seq<byte>

  /** The chunk files of one upload: index to content. */
  type ChunkFiles = map<int, Bytes>

  const CHUNK_SIZE: int := 5 * 1024 * 1024

  /** The number of chunks that Precheck announces, in Go's 64-bit arithmetic. */
  function TotalChunks(fileSize: int): int {
    TruncDiv(Wrap64(fileSize + CHUNK_SIZE - 1), CHUNK_SIZE)
  }

  predicate Covers(fileSize: int, n: int) {
    n * CHUNK_SIZE >= fileSize
  }

  /** `n` chunks are enough for the file, and one fewer is not. */
  predicate LeastCover(fileSize: int, n: int) {
    Covers(fileSize, n) && !Covers(fileSize, n - 1)
  }

  /** The announced number is the least that covers the file exactly when the sum does not overflow. */
  lemma TotalChunksIsLeastExactly(fileSize: int)
    requires 1 <= fileSize <= MAX_INT64
    ensures LeastCover(fileSize, TotalChunks(fileSize)) <==> fileSize + CHUNK_SIZE - 1 <= MAX_INT64
    ensures Covers(fileSize, TotalChunks(fileSize)) && (forall m | Covers(fileSize, m) :: TotalChunks(fileSize) <= m)
            <==> fileSize + CHUNK_SIZE - 1 <= MAX_INT64
  {
    var sum := fileSize + CHUNK_SIZE - 1;
    if sum > MAX_INT64 {
      assert Wrap64(sum) == sum - TWO_TO_THE_64 < 0;
    }
  }

  /** The i-th chunk of `file`. */
  function ChunkAt(file: Bytes, i: nat): Bytes
    requires i * CHUNK_SIZE <= |file|
  {
    if (i + 1) * CHUNK_SIZE <= |file| then file[i * CHUNK_SIZE..(i + 1) * CHUNK_SIZE] else file[i * CHUNK_SIZE..]
  }

  predicate IsChunk(file: Bytes, i: nat, chunk: Bytes) {
    i * CHUNK_SIZE <= |file| && chunk == ChunkAt(file, i)
  }

  function Cut(file: Bytes, n: nat): (r: ChunkFiles)
    requires LeastCover(|file|, n)
    ensures forall i :: i in r <==> 0 <= i < n
    ensures forall i | 0 <= i < n :: IsChunk(file, i, r[i])
  {
    map i | 0 <= i < n :: ChunkAt(file, i)
  }

  /** Each chunk is the next 5 MiB of the file, and the last is the rest, not empty. */
  lemma ChunkSize(file: Bytes, n: nat, i: nat, chunk: Bytes)
    requires |file| >= 1 && LeastCover(|file|, n) && i < n && IsChunk(file, i, chunk)
    ensures i < n - 1 ==> chunk == file[i * CHUNK_SIZE..i * CHUNK_SIZE + CHUNK_SIZE]
    ensures i == n - 1 ==> chunk == file[i * CHUNK_SIZE..] && 0 < |chunk| <= CHUNK_SIZE
  {
  }

  predicate HasAll(files: ChunkFiles, n: int) {
    forall i | 0 <= i < n :: i in files
  }

  /** The content that copying chunks 0 to n-1 in order produces. */
  function Join(files: ChunkFiles, n: nat): Bytes
    requires HasAll(files, n)
  {
    if n == 0 then [] else Join(files, n - 1) + files[n - 1]
  }

  /** Where the first `k` of `n` chunks end. */
  function End(file: Bytes, n: nat, k: nat): (r: nat)
    requires LeastCover(|file|, n) && k <= n
    ensures r <= |file|
  {
    if k == n then |file| else k * CHUNK_SIZE
  }

  lemma ChunkContinues(file: Bytes, n: nat, k: nat, chunk: Bytes)
    requires LeastCover(|file|, n) && k < n && IsChunk(file, k, chunk)
    ensures file[..End(file, n, k)] + chunk == file[..End(file, n, k + 1)]
  {
  }

  lemma {:induction false} JoinPrefix(file: Bytes, n: nat, files: ChunkFiles, k: nat)
    requires LeastCover(|file|, n) && k <= n && HasAll(files, n)
    requires forall i | 0 <= i < n :: IsChunk(file, i, files[i])
    ensures Join(files, k) == file[..End(file, n, k)]
  {
    if k == 0 {
      assert file[..End(file, n, 0)] == [];
    } else {
      hide End, IsChunk, LeastCover;
      JoinPrefix(file, n, files, k - 1);
      ChunkContinues(file, n, k - 1, files[k - 1]);
    }
  }

  /** Cutting any non-empty content and joining the chunks gives the content back. */
  lemma JoinUndoesCut(file: Bytes)
    requires 1 <= |file| && |file| + CHUNK_SIZE - 1 <= MAX_INT64
    ensures TotalChunks(|file|) >= 1 && LeastCover(|file|, TotalChunks(|file|))
    ensures Join(Cut(file, TotalChunks(|file|)), TotalChunks(|file|)) == file
  {
    var n := TotalChunks(|file|);
    TotalChunksIsLeastExactly(|file|);
    JoinPrefix(file, n, Cut(file, n), n);
  }
}
