// Resumable chunk transfer of a model between peers (readChunk, writeChunk, receivedChunks,
// isComplete and finalize in ModelStore.ts, the peer loop of fetch in ModelService.ts).
module ModelTransfer {
  import opened Bytes
  import opened Events

  datatype Meta = Meta(id: string, size: nat, chunkSize: nat, chunkCount: nat)

  // What importFile and importUrl write: chunkCount is size / chunkSize, rounded up.
  ghost predicate WellMade(m: Meta) {
    m.chunkSize > 0 && m.chunkCount == (m.size + m.chunkSize - 1) / m.chunkSize
  }

  // ---- reading and writing a file at a position ----

  // A read past the end leaves the buffer's zeros.
  function ReadAt(file: seq<Byte>, start: nat, len: nat): (r: seq<Byte>)
    ensures |r| == len
  {
    seq(len, k requires 0 <= k < len => if start + k < |file| then file[start + k] else 0)
  }

  // A write past the end leaves zeros in the gap; writing nothing extends nothing.
  function WriteAt(file: seq<Byte>, start: nat, data: seq<Byte>): (r: seq<Byte>)
    ensures |r| == if data == [] || start + |data| <= |file| then |file| else start + |data|
  {
    if data == [] then file
    else
      var len := if start + |data| <= |file| then |file| else start + |data|;
      seq(len, k requires 0 <= k < len =>
        if start <= k < start + |data| then data[k - start] else if k < |file| then file[k] else 0)
  }

  function Min(a: int, b: int): int { if a < b then a else b }

  function ChunkStart(m: Meta, i: nat): nat { i * m.chunkSize }
  function ChunkLength(m: Meta, i: nat): nat {
    var len := Min(m.chunkSize, m.size - ChunkStart(m, i));
    if len > 0 then len else 0
  }

  function ReadChunk(m: Meta, data: seq<Byte>, i: nat): seq<Byte> { ReadAt(data, ChunkStart(m, i), ChunkLength(m, i)) }

  // ---- the chunks partition the file ----

  predicate InChunk(m: Meta, i: nat, k: nat) { ChunkStart(m, i) <= k < ChunkStart(m, i) + ChunkLength(m, i) }

  // Every byte lies in exactly one chunk, and every chunk within the file.
  lemma ChunksPartition(m: Meta, k: nat)
    requires WellMade(m) && k < m.size
    ensures k / m.chunkSize < m.chunkCount && InChunk(m, k / m.chunkSize, k)
    ensures forall i: nat :: InChunk(m, i, k) ==> i == k / m.chunkSize
  {
    var i := k / m.chunkSize;
    DivisionBounds(k, m.chunkSize);
    RoundedUp(m, i);
    forall j: nat | InChunk(m, j, k) ensures j == i { SameQuotient(k, m.chunkSize, j); }
  }

  lemma DivisionBounds(k: nat, c: nat)
    requires c > 0
    ensures k / c * c <= k < k / c * c + c
  { }

  lemma SameQuotient(k: nat, c: nat, j: nat)
    requires c > 0 && j * c <= k < j * c + c
    ensures j == k / c
  {
    DivisionBounds(k, c);
    ProductsAscend(j, k / c, c);
    ProductsAscend(k / c, j, c);
  }

  lemma ProductsAscend(a: nat, b: nat, c: nat)
    ensures a < b ==> a * c + c <= b * c
    ensures a <= b ==> a * c <= b * c
  {
    if a <= b {
      Distributes(a, b - a, c);
      if a < b { AtLeastOnce(b - a, c); }
    }
  }

  lemma Distributes(a: nat, d: nat, c: nat)
    ensures (a + d) * c == a * c + d * c
  { }

  lemma AtLeastOnce(d: nat, c: nat)
    requires d >= 1
    ensures d * c >= c
  { }

  lemma RoundedUp(m: Meta, i: nat)
    requires WellMade(m) && i * m.chunkSize < m.size
    ensures i < m.chunkCount
  {
    DivisionBounds(m.size + m.chunkSize - 1, m.chunkSize);
    ProductsAscend(m.chunkCount, i, m.chunkSize);
  }

  // ---- a download in progress ----

  // Every recorded chunk is already as in the source, and the part is no longer than it.
  ghost predicate Matches(m: Meta, source: seq<Byte>, part: seq<Byte>, got: set<nat>) {
    && |part| <= m.size == |source|
    && (forall i :: i in got ==> i < m.chunkCount)
    && (forall i, k: nat :: i in got && InChunk(m, i, k) ==> k < |part| && part[k] == source[k])
  }

  // Write undoes read: writing a chunk read from the source records it and spoils no other.
  lemma WriteUndoesRead(m: Meta, source: seq<Byte>, part: seq<Byte>, got: set<nat>, i: nat)
    requires WellMade(m) && Matches(m, source, part, got) && i < m.chunkCount
    ensures Matches(m, source, WriteAt(part, ChunkStart(m, i), ReadChunk(m, source, i)), got + {i})
  {
    hide ChunkStart, WellMade;
    var chunk := ReadChunk(m, source, i);
    var next := WriteAt(part, ChunkStart(m, i), chunk);
    forall j, k: nat | j in got + {i} && InChunk(m, j, k) ensures k < |next| && next[k] == source[k] {
      if InChunk(m, i, k) {
        assert next[k] == chunk[k - ChunkStart(m, i)];
      } else {
        assert k < |part| && part[k] == source[k];
      }
    }
  }

  lemma {:induction false} CountedSet(got: set<nat>, n: nat)
    requires forall i :: i in got ==> i < n
    ensures |got| <= n && (|got| == n ==> forall i :: 0 <= i < n ==> i in got)
    decreases n
  {
    if n > 0 {
      CountedSet(got - {n - 1}, n - 1);
      assert n - 1 !in got ==> got - {n - 1} == got;
      if |got| == n {
        forall i | 0 <= i < n ensures i in got { if i < n - 1 { assert i in got - {n - 1}; } }
      }
    } else {
      assert got == {};
    }
  }

  // All chunks recorded, in whatever order and from whatever peers: the part is the source.
  lemma CompletePartIsSource(m: Meta, source: seq<Byte>, part: seq<Byte>, got: set<nat>)
    requires WellMade(m) && Matches(m, source, part, got) && |got| >= m.chunkCount
    ensures part == source
  {
    CountedSet(got, m.chunkCount);
    forall k: nat | k < m.size ensures k < |part| && part[k] == source[k] {
      ChunksPartition(m, k);
      assert k / m.chunkSize in got;
    }
    if m.size > 0 {
      var last := source[m.size - 1];
      assert m.size - 1 < |part|;
    }
  }

  // ---- the store and the peer loop ----

  // Local file operations that throw during a peer's turn: at a chunk, before it is written
  // or between writing and recording it. The turn ends there.
  datatype Fault = NoFault | Unwritten | Unrecorded

  // What a peer answers: its manifest, and for each chunk and attempt the bytes or nothing;
  // and what goes wrong here during its turn.
  datatype Peer = Peer(manifest: Option<Meta>, reply: (nat, nat) -> Option<seq<Byte>>, fault: nat -> Fault,
                       promotes: bool)

  // A peer that serves the source under these terms, when it answers at all.
  ghost predicate Serves(p: Peer, m: Meta, source: seq<Byte>) {
    && (p.manifest.Some? && p.manifest.value.id == m.id ==> p.manifest.value == m)
    && (forall i, t :: p.reply(i, t).Some? ==> p.reply(i, t).value == ReadChunk(m, source, i))
  }

  predicate Answers(p: Peer, i: nat) { exists t :: 0 <= t < 3 && p.reply(i, t).Some? }

  ghost predicate AnswersAll(p: Peer, m: Meta) {
    && p.manifest == Some(m) && p.promotes
    && forall i :: 0 <= i < m.chunkCount ==> Answers(p, i) && p.fault(i) == NoFault
  }

  class Store {
    const hash: seq<Byte> -> string
    const isGguf: seq<Byte> -> bool

    var meta: Option<Meta>
    var part: seq<Byte>
    var progress: set<nat>
    var data: Option<seq<Byte>>

    constructor (h: seq<Byte> -> string, g: seq<Byte> -> bool)
      ensures hash == h && isGguf == g && part == [] && progress == {} && data == None && meta == None
    {
      hash, isGguf := h, g;
      meta, part, progress, data := None, [], {}, None;
    }

    // A part file and a progress file that exist already are kept: that is what resumes.
    method BeginDownload(m: Meta)
      modifies `meta
      ensures meta == Some(m)
    {
      meta := Some(m);
    }

    method WriteChunk(i: nat, bytes: seq<Byte>)
      requires meta.Some?
      modifies `part, `progress
      ensures part == WriteAt(old(part), ChunkStart(meta.value, i), bytes) && progress == old(progress) + {i}
    {
      part := WriteAt(part, i * meta.value.chunkSize, bytes);
      progress := progress + {i};
    }

    function IsComplete(): bool
      reads this
    {
      meta.Some? && |progress| >= meta.value.chunkCount
    }

    // A part is promoted only if every chunk is recorded and its hash is the model's id.
    method Finalize(id: string) returns (ok: bool)
      requires meta.Some? && meta.value.id == id
      modifies `data
      ensures ok <==> IsComplete() && hash(part) == id && isGguf(part)
      ensures data == if ok then Some(part) else old(data)
    {
      if !IsComplete() || hash(part) != id || !isGguf(part) { return false; }
      data := Some(part);
      return true;
    }

    method Ask(p: Peer, i: nat) returns (chunk: Option<seq<Byte>>)
      ensures chunk.Some? <==> Answers(p, i)
      ensures chunk.Some? ==> exists t :: 0 <= t < 3 && p.reply(i, t) == chunk
    {
      chunk := None;
      var attempt := 0;
      while attempt < 3 && chunk.None?
        invariant 0 <= attempt <= 3
        invariant chunk.None? ==> forall t :: 0 <= t < attempt ==> p.reply(i, t).None?
        invariant chunk.Some? ==> exists t :: 0 <= t < 3 && p.reply(i, t) == chunk
        decreases 3 - attempt
      {
        chunk := p.reply(i, attempt);
        attempt := attempt + 1;
      }
    }

    // One peer's turn: fetch the chunks that are missing, stop at the first that does not come.
    method FetchMissing(p: Peer, m: Meta, ghost source: seq<Byte>) returns (complete: bool)
      requires meta == Some(m)
      modifies `part, `progress
      ensures old(progress) <= progress
      ensures complete ==> forall i :: 0 <= i < m.chunkCount ==> i in progress
      ensures AnswersAll(p, m) ==> complete
      ensures WellMade(m) && Serves(p, m, source) && Matches(m, source, old(part), old(progress)) ==>
                Matches(m, source, part, progress)
    {
      var have := progress;
      ghost var good := WellMade(m) && Serves(p, m, source) && Matches(m, source, part, progress);
      complete := true;
      var i := 0;
      while i < m.chunkCount
        invariant 0 <= i <= m.chunkCount && complete && have <= progress
        invariant forall j :: 0 <= j < i ==> j in progress
        invariant good ==> Matches(m, source, part, progress)
      {
        if i !in have {
          var chunk := Ask(p, i);
          if chunk.None? {
            complete := false;
            break;
          }
          ghost var before := part;
          ghost var got := progress;
          if good { WriteUndoesRead(m, source, before, got, i); }
          if p.fault(i) == Unwritten {
            complete := false;
            break;
          }
          if p.fault(i) == Unrecorded {
            part := WriteAt(part, i * m.chunkSize, chunk.value);
            complete := false;
            break;
          }
          WriteChunk(i, chunk.value);
        }
        i := i + 1;
      }
    }

    // The peers in turn; what one peer leaves unfinished the next one resumes.
    method FetchFromPeers(id: string, peers: seq<Peer>, ghost m: Meta, ghost source: seq<Byte>) returns (ok: bool)
      modifies this
      ensures ok ==> data == Some(part) && hash(part) == id && isGguf(part)
      ensures !ok ==> data == old(data)
      ensures var honest := m.id == id && WellMade(m) && Matches(m, source, old(part), old(progress))
                            && (forall k :: 0 <= k < |peers| ==> Serves(peers[k], m, source));
              && (honest && ok ==> data == Some(source))
              && (honest && hash(source) == id && isGguf(source) && (exists p :: p in peers && AnswersAll(p, m)) ==> ok)
    {
      ghost var honest := m.id == id && WellMade(m) && Matches(m, source, part, progress)
                          && (forall k :: 0 <= k < |peers| ==> Serves(peers[k], m, source));
      for k := 0 to |peers|
        invariant data == old(data)
        invariant honest ==> Matches(m, source, part, progress)
        invariant honest && hash(source) == id && isGguf(source) ==> forall j :: 0 <= j < k ==> !AnswersAll(peers[j], m)
      {
        if peers[k].manifest.None? || peers[k].manifest.value.id != id { continue; }
        var terms := peers[k].manifest.value;
        BeginDownload(terms);
        var complete := FetchMissing(peers[k], terms, source);
        if complete && peers[k].promotes {
          ok := Finalize(id);
          if honest { CompleteIsRecorded(m, progress); }
          if honest && |progress| >= m.chunkCount { CompletePartIsSource(m, source, part, progress); }
          if ok { return; }
        }
      }
      ok := false;
    }

    predicate IsTheModel(id: string, content: Option<seq<Byte>>) {
      content.Some? && isGguf(content.value) && hash(content.value) == id
    }

    // importUrl: the downloaded file is kept under its own hash if it is a model file, unless
    // there is a file under that hash already.
    method ImportUrl(id: string, content: Option<seq<Byte>>) returns (ok: bool)
      modifies `data
      ensures ok <==> IsTheModel(id, content)
      ensures data == if ok && old(data).None? then content else old(data)
    {
      if content.None? || !isGguf(content.value) || hash(content.value) != id { return false; }
      if data.None? { data := content; }
      return true;
    }

    // fetch: the authorized link first, then the peers, then the link again.
    method Fetch(id: string, first: Option<seq<Byte>>, second: Option<seq<Byte>>, peers: seq<Peer>,
                 ghost m: Meta, ghost source: seq<Byte>) returns (ok: bool)
      modifies this
      ensures old(data).Some? && isGguf(old(data).value) ==> ok && data == old(data)
      ensures ok ==> data.Some?
      ensures ok && old(data).None? ==> hash(data.value) == id && isGguf(data.value)
      ensures !ok ==> data == old(data)
      ensures IsTheModel(id, first) || IsTheModel(id, second) ==> ok
      ensures var honest := m.id == id && WellMade(m) && Matches(m, source, old(part), old(progress))
                            && (forall k :: 0 <= k < |peers| ==> Serves(peers[k], m, source));
              honest && IsTheModel(id, Some(source)) && (exists p :: p in peers && AnswersAll(p, m)) ==> ok
    {
      if data.Some? && isGguf(data.value) { return true; }
      ok := ImportUrl(id, first);
      if ok { return true; }
      ok := FetchFromPeers(id, peers, m, source);
      if ok { return true; }
      ok := ImportUrl(id, second);
    }
  }

  lemma {:induction false} FullSet(n: nat, got: set<nat>)
    requires forall i :: 0 <= i < n ==> i in got
    ensures |got| >= n
    decreases n
  {
    if n > 0 {
      assert got == got - {n - 1} + {n - 1};
      FullSet(n - 1, got - {n - 1});
    }
  }

  lemma CompleteIsRecorded(m: Meta, got: set<nat>)
    requires forall i :: 0 <= i < m.chunkCount ==> i in got
    ensures |got| >= m.chunkCount
  {
    FullSet(m.chunkCount, got);
  }
}
