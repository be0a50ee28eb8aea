/** The stored retrieval index: chunks of each document with their embeddings, kept in step
    with the document's status by indexing and reindexing. */
module Indexing {
  import opened Options
  import opened Chunking

  type Vector = seq<real>

  const EMBED_BATCH_SIZE := 64

  datatype Status = Pending | Indexed | Empty | Failed

  /** `body` is the extracted text; `None` when there is no body row or it has no text. */
  datatype Document = Document(matterId: nat, body: Option<string>, status: Status)

  datatype ChunkRow = ChunkRow(documentId: nat, matterId: nat, chunk: Chunk, embedding: Vector)

  function BodyText(d: Document): string {
    if d.body.Some? then d.body.value else ""
  }

  function ChunksOf(text: string): seq<Chunk> {
    ChunkText(text, TARGET_CHARS, OVERLAP_CHARS).value
  }

  // ---- The table ----

  function RowsOf(rows: seq<ChunkRow>, id: nat): seq<ChunkRow> {
    if rows == [] then []
    else RowsOf(rows[..|rows| - 1], id) + (if rows[|rows| - 1].documentId == id then [rows[|rows| - 1]] else [])
  }

  /** DELETE ... WHERE document_id = id. */
  function Without(rows: seq<ChunkRow>, id: nat): seq<ChunkRow> {
    if rows == [] then []
    else Without(rows[..|rows| - 1], id) + (if rows[|rows| - 1].documentId != id then [rows[|rows| - 1]] else [])
  }

  /** What an indexed document stores: every chunk of its text with that chunk's own embedding. */
  function ExpectedRows(embed: string -> Vector, id: nat, matterId: nat, text: string): seq<ChunkRow> {
    var chunks := ChunksOf(text);
    seq(|chunks|, i requires 0 <= i < |chunks| => ChunkRow(id, matterId, chunks[i], embed(chunks[i].text)))
  }

  lemma {:induction false} RowsOfConcat(a: seq<ChunkRow>, b: seq<ChunkRow>, id: nat)
    ensures RowsOf(a + b, id) == RowsOf(a, id) + RowsOf(b, id)
  {
    if b == [] {
      assert a + b == a;
    } else {
      assert (a + b)[..|a + b| - 1] == a + b[..|b| - 1];
      RowsOfConcat(a, b[..|b| - 1], id);
    }
  }

  lemma {:induction false} RowsOfWithout(rows: seq<ChunkRow>, id: nat, other: nat)
    ensures RowsOf(Without(rows, id), other) == if other == id then [] else RowsOf(rows, other)
  {
    if rows != [] {
      var front, last := rows[..|rows| - 1], rows[|rows| - 1];
      RowsOfWithout(front, id, other);
      RowsOfConcat(Without(front, id), if last.documentId != id then [last] else [], other);
    }
  }

  lemma {:induction false} RowsOfUniform(rows: seq<ChunkRow>, id: nat, other: nat)
    requires forall r :: r in rows ==> r.documentId == id
    ensures RowsOf(rows, other) == if other == id then rows else []
  {
    if rows != [] {
      RowsOfUniform(rows[..|rows| - 1], id, other);
      assert rows == rows[..|rows| - 1] + [rows[|rows| - 1]];
    }
  }

  /** Replacing one document's rows leaves every other document's rows as they were. */
  lemma ReplacedRows(rows: seq<ChunkRow>, id: nat, added: seq<ChunkRow>, other: nat)
    requires forall r :: r in added ==> r.documentId == id
    ensures RowsOf(Without(rows, id) + added, other) == if other == id then added else RowsOf(rows, other)
  {
    RowsOfConcat(Without(rows, id), added, other);
    RowsOfWithout(rows, id, other);
    RowsOfUniform(added, id, other);
  }

  // ---- Embedding in batches ----

  function BatchCount(n: nat): nat {
    (n + EMBED_BATCH_SIZE - 1) / EMBED_BATCH_SIZE
  }

  /** Whether the first `k` calls to the embedder go through. */
  predicate UpThrough(up: nat -> bool, k: nat) {
    k == 0 || (UpThrough(up, k - 1) && up(k - 1))
  }

  /** Whether every call to the embedder that indexing `n` chunks makes goes through. */
  predicate AllUp(up: nat -> bool, n: nat) {
    UpThrough(up, BatchCount(n))
  }

  lemma {:induction false} DownStaysDown(up: nat -> bool, k: nat, n: nat)
    requires k <= n && !UpThrough(up, k)
    ensures !UpThrough(up, n)
  {
    if k < n {
      DownStaysDown(up, k, n - 1);
    }
  }

  /** Embeds the chunks 64 at a time; batch `k` raises unless `up(k)`. Batching is invisible:
      every chunk is paired with the embedding of its own text. */
  method EmbedAll(embed: string -> Vector, chunks: seq<Chunk>, up: nat -> bool)
    returns (result: Option<map<nat, Vector>>)
    requires forall i :: 0 <= i < |chunks| ==> chunks[i].index == i
    ensures result.Some? <==> AllUp(up, |chunks|)
    ensures result.Some? ==> forall i :: 0 <= i < |chunks| ==> i in result.value && result.value[i] == embed(chunks[i].text)
  {
    var byIndex: map<nat, Vector> := map[];
    var start: nat, k: nat := 0, 0;
    while start < |chunks|
      invariant start == k * EMBED_BATCH_SIZE
      invariant k <= BatchCount(|chunks|)
      invariant UpThrough(up, k)
      invariant forall i :: 0 <= i < start && i < |chunks| ==> i in byIndex && byIndex[i] == embed(chunks[i].text)
      decreases |chunks| - start
    {
      var end := Min(start + EMBED_BATCH_SIZE, |chunks|);
      if !up(k) {
        DownStaysDown(up, k + 1, BatchCount(|chunks|));
        return None;
      }
      var vectors := seq(end - start, i requires 0 <= i < end - start => embed(chunks[start + i].text));
      for j := 0 to end - start
        invariant forall i :: 0 <= i < start + j ==> i in byIndex && byIndex[i] == embed(chunks[i].text)
      {
        byIndex := byIndex[chunks[start + j].index := vectors[j]];
      }
      start := start + EMBED_BATCH_SIZE;
      k := k + 1;
    }
    result := Some(byIndex);
  }

  method Chunked(text: string) returns (chunks: seq<Chunk>)
    ensures chunks == ChunksOf(text)
    ensures chunks == [] <==> Blank(text)
    ensures forall i :: 0 <= i < |chunks| ==> chunks[i].index == i
  {
    var result := ChunkTextInLoop(text, TARGET_CHARS, OVERLAP_CHARS);
    chunks := result.value;
    if !Blank(text) {
      ChunkTextGood(text, TARGET_CHARS, OVERLAP_CHARS);
    }
  }

  /** One row per chunk, in order, looking the embedding up by the chunk's index. */
  method StoreRows(embed: string -> Vector, id: nat, matterId: nat, chunks: seq<Chunk>, byIndex: map<nat, Vector>)
    returns (added: seq<ChunkRow>)
    requires forall i :: 0 <= i < |chunks| ==> chunks[i].index == i && i in byIndex && byIndex[i] == embed(chunks[i].text)
    ensures |added| == |chunks|
    ensures forall i :: 0 <= i < |chunks| ==> added[i] == ChunkRow(id, matterId, chunks[i], embed(chunks[i].text))
  {
    added := [];
    for i := 0 to |chunks|
      invariant |added| == i
      invariant forall j :: 0 <= j < i ==> added[j] == ChunkRow(id, matterId, chunks[j], embed(chunks[j].text))
    {
      added := added + [ChunkRow(id, matterId, chunks[i], byIndex[chunks[i].index])];
    }
  }

  // ---- The index as a value ----

  /** `indexedText` remembers the text each document had when it was last indexed. */
  datatype Index = Index(documents: map<nat, Document>, rows: seq<ChunkRow>, indexedText: map<nat, string>)

  function StatusAfter(text: string, up: nat -> bool): Status {
    if Blank(text) then Empty
    else if AllUp(up, |ChunksOf(text)|) then Indexed
    else Failed
  }

  function RowsAfter(embed: string -> Vector, id: nat, matterId: nat, text: string, up: nat -> bool): seq<ChunkRow> {
    if StatusAfter(text, up) == Indexed then ExpectedRows(embed, id, matterId, text) else []
  }

  /** Indexing one document; a raising embedder leaves it failed and without rows. */
  function IndexStep(embed: string -> Vector, s: Index, id: nat, up: nat -> bool): Index
    requires id in s.documents
  {
    var d := s.documents[id];
    var text := BodyText(d);
    Index(s.documents[id := d.(status := StatusAfter(text, up))],
          Without(s.rows, id) + RowsAfter(embed, id, d.matterId, text, up),
          s.indexedText[id := text])
  }

  function UpFor(up: (nat, nat) -> bool, id: nat): nat -> bool {
    (k: nat) => up(id, k)
  }

  /** Indexing a list of documents one after the other. */
  function IndexMany(embed: string -> Vector, s: Index, ids: seq<nat>, up: (nat, nat) -> bool): (r: Index)
    requires forall id :: id in ids ==> id in s.documents
    ensures r.documents.Keys == s.documents.Keys
    decreases |ids|
  {
    if ids == [] then s
    else IndexStep(embed, IndexMany(embed, s, ids[..|ids| - 1], up), ids[|ids| - 1], UpFor(up, ids[|ids| - 1]))
  }

  /** What each status promises about the stored rows. */
  predicate Agrees(embed: string -> Vector, id: nat, d: Document, stored: seq<ChunkRow>, indexedText: map<nat, string>) {
    match d.status
    case Indexed =>
      id in indexedText && !Blank(indexedText[id]) && stored == ExpectedRows(embed, id, d.matterId, indexedText[id])
    case Empty => id in indexedText && Blank(indexedText[id]) && stored == []
    case Failed => stored == []
    case Pending => stored == []
  }

  ghost predicate AgreesAt(embed: string -> Vector, s: Index, id: nat) {
    if id in s.documents then Agrees(embed, id, s.documents[id], RowsOf(s.rows, id), s.indexedText)
    else RowsOf(s.rows, id) == []
  }

  ghost predicate Consistent(embed: string -> Vector, s: Index) {
    forall id :: AgreesAt(embed, s, id)
  }

  /** Indexing one document touches nothing of any other. */
  lemma IndexStepOthers(embed: string -> Vector, s: Index, id: nat, up: nat -> bool, other: nat)
    requires id in s.documents && other != id
    ensures var r := IndexStep(embed, s, id, up);
            && (other in r.documents <==> other in s.documents)
            && (other in s.documents ==> r.documents[other] == s.documents[other])
            && (other in r.indexedText <==> other in s.indexedText)
            && (other in s.indexedText ==> r.indexedText[other] == s.indexedText[other])
            && RowsOf(r.rows, other) == RowsOf(s.rows, other)
  {
    var d := s.documents[id];
    ReplacedRows(s.rows, id, RowsAfter(embed, id, d.matterId, BodyText(d), up), other);
  }

  lemma IndexStepOwnRows(embed: string -> Vector, s: Index, id: nat, up: nat -> bool)
    requires id in s.documents
    ensures RowsOf(IndexStep(embed, s, id, up).rows, id) ==
            RowsAfter(embed, id, s.documents[id].matterId, BodyText(s.documents[id]), up)
  {
    var d := s.documents[id];
    ReplacedRows(s.rows, id, RowsAfter(embed, id, d.matterId, BodyText(d), up), id);
  }

  lemma IndexStepConsistent(embed: string -> Vector, s: Index, id: nat, up: nat -> bool)
    requires Consistent(embed, s)
    requires id in s.documents
    ensures Consistent(embed, IndexStep(embed, s, id, up))
  {
    var r := IndexStep(embed, s, id, up);
    IndexStepOwnRows(embed, s, id, up);
    forall other
      ensures AgreesAt(embed, r, other)
    {
      if other != id {
        IndexStepOthers(embed, s, id, up, other);
        assert AgreesAt(embed, s, other);
      }
    }
  }

  lemma {:induction false} IndexManyConsistent(embed: string -> Vector, s: Index, ids: seq<nat>, up: (nat, nat) -> bool)
    requires Consistent(embed, s)
    requires forall id :: id in ids ==> id in s.documents
    ensures Consistent(embed, IndexMany(embed, s, ids, up))
    decreases |ids|
  {
    if ids != [] {
      var n := |ids| - 1;
      IndexManyConsistent(embed, s, ids[..n], up);
      IndexStepConsistent(embed, IndexMany(embed, s, ids[..n], up), ids[n], UpFor(up, ids[n]));
    }
  }

  /** Document `id` after a reindex that listed it (`listed`) or did not. */
  ghost predicate ReindexedAt(embed: string -> Vector, s: Index, r: Index, up: (nat, nat) -> bool, id: nat, listed: bool)
    requires id in s.documents && id in r.documents
  {
    var d, text := s.documents[id], BodyText(s.documents[id]);
    if listed then
      && r.documents[id] == d.(status := StatusAfter(text, UpFor(up, id)))
      && RowsOf(r.rows, id) == RowsAfter(embed, id, d.matterId, text, UpFor(up, id))
    else
      r.documents[id] == d && RowsOf(r.rows, id) == RowsOf(s.rows, id)
  }

  /** One document's failure does not touch the rest: each listed document ends as if it had been
      indexed alone, and documents not listed are left as they were. */
  lemma {:induction false} ReindexIsPerDocument(embed: string -> Vector, s: Index, ids: seq<nat>,
                                                up: (nat, nat) -> bool, id: nat)
    requires forall x :: x in ids ==> x in s.documents
    requires id in s.documents
    ensures ReindexedAt(embed, s, IndexMany(embed, s, ids, up), up, id, id in ids)
    decreases |ids|
  {
    if ids != [] {
      var n := |ids| - 1;
      var front, last := ids[..n], ids[n];
      assert ids == front + [last];
      ReindexIsPerDocument(embed, s, front, up, id);
      var mid := IndexMany(embed, s, front, up);
      if last == id {
        IndexStepOwnRows(embed, mid, id, UpFor(up, id));
      } else {
        IndexStepOthers(embed, mid, last, UpFor(up, last), id);
      }
    }
  }

  // ---- Every run ----

  datatype Op =
    | Upload(id: nat, matterId: nat, body: Option<string>)
    | SetBody(id: nat, body: Option<string>)
    | IndexOne(id: nat, up: nat -> bool)
    | Reindex(ids: seq<nat>, upAll: (nat, nat) -> bool)

  /** A request that names documents that are not there, or reuses an id, changes nothing. */
  function Apply(embed: string -> Vector, s: Index, op: Op): Index {
    match op
    case Upload(id, matterId, body) =>
      if id in s.documents then s else s.(documents := s.documents[id := Document(matterId, body, Pending)])
    case SetBody(id, body) =>
      if id in s.documents then s.(documents := s.documents[id := s.documents[id].(body := body)]) else s
    case IndexOne(id, up) => if id in s.documents then IndexStep(embed, s, id, up) else s
    case Reindex(ids, up) => if forall id :: id in ids ==> id in s.documents then IndexMany(embed, s, ids, up) else s
  }

  lemma ApplyConsistent(embed: string -> Vector, s: Index, op: Op)
    requires Consistent(embed, s)
    ensures Consistent(embed, Apply(embed, s, op))
  {
    match op
    case Upload(_, _, _) =>
      forall id
        ensures AgreesAt(embed, Apply(embed, s, op), id)
      {
        assert AgreesAt(embed, s, id);
      }
    case SetBody(_, _) =>
      forall id
        ensures AgreesAt(embed, Apply(embed, s, op), id)
      {
        assert AgreesAt(embed, s, id);
      }
    case IndexOne(id, up) =>
      if id in s.documents {
        IndexStepConsistent(embed, s, id, up);
      }
    case Reindex(ids, up) =>
      if forall id :: id in ids ==> id in s.documents {
        IndexManyConsistent(embed, s, ids, up);
      }
  }

  function Run(embed: string -> Vector, ops: seq<Op>): Index {
    if ops == [] then Index(map[], [], map[]) else Apply(embed, Run(embed, ops[..|ops| - 1]), ops[|ops| - 1])
  }

  /** After any sequence of uploads, body changes, indexings and reindexings, with the embedder
      raising at arbitrary batches, every document's rows are what its status promises. */
  lemma {:induction false} EveryRunConsistent(embed: string -> Vector, ops: seq<Op>)
    ensures Consistent(embed, Run(embed, ops))
  {
    if ops == [] {
      assert forall id :: AgreesAt(embed, Run(embed, ops), id);
    } else {
      EveryRunConsistent(embed, ops[..|ops| - 1]);
      ApplyConsistent(embed, Run(embed, ops[..|ops| - 1]), ops[|ops| - 1]);
    }
  }

  /** The chunks stored for a document, in row order. */
  function StoredChunks(rows: seq<ChunkRow>): seq<Chunk> {
    seq(|rows|, i requires 0 <= i < |rows| => rows[i].chunk)
  }

  /** In every run, the rows of a document marked indexed spell out the text it was last indexed
      from, and each carries the embedding of its own text. */
  lemma IndexedRowsRebuildText(embed: string -> Vector, ops: seq<Op>, id: nat)
    requires id in Run(embed, ops).documents && Run(embed, ops).documents[id].status == Indexed
    ensures id in Run(embed, ops).indexedText
    ensures var rows := RowsOf(Run(embed, ops).rows, id);
            var chunks := StoredChunks(rows);
            && (forall i :: 0 <= i < |rows| ==> rows[i].embedding == embed(rows[i].chunk.text))
            && Rebuildable(chunks)
            && Rebuild(chunks) == Run(embed, ops).indexedText[id]
  {
    EveryRunConsistent(embed, ops);
    var s := Run(embed, ops);
    assert AgreesAt(embed, s, id);
    var text := s.indexedText[id];
    assert StoredChunks(RowsOf(s.rows, id)) == ChunksOf(text);
    ChunksRebuildText(text, TARGET_CHARS, OVERLAP_CHARS);
  }

  // ---- What indexing a body leads to ----

  lemma RunStep(embed: string -> Vector, ops: seq<Op>, op: Op)
    ensures Run(embed, ops + [op]) == Apply(embed, Run(embed, ops), op)
  {
    assert (ops + [op])[..|ops|] == ops;
  }

  /** The rows of a document are the rows of the table that carry its id. */
  lemma {:induction false} RowsOfMembers(rows: seq<ChunkRow>, id: nat)
    ensures forall r :: r in RowsOf(rows, id) <==> r in rows && r.documentId == id
  {
    if rows != [] {
      var front, last := rows[..|rows| - 1], rows[|rows| - 1];
      assert rows == front + [last];
      RowsOfMembers(front, id);
    }
  }

  lemma {:induction false} UpThroughIff(up: nat -> bool, k: nat)
    ensures UpThrough(up, k) <==> forall j: nat :: j < k ==> up(j)
  {
    if k > 0 {
      UpThroughIff(up, k - 1);
    }
  }

  /** Call `k` embeds the chunks from `64 * k` on, so it is made exactly when there are any. */
  lemma AllUpIff(up: nat -> bool, n: nat)
    ensures AllUp(up, n) <==> forall k: nat :: 64 * k < n ==> up(k)
  {
    UpThroughIff(up, BatchCount(n));
    forall k: nat
      ensures k < BatchCount(n) <==> 64 * k < n
    {
    }
  }

  predicate HasText(d: Document) {
    d.body.Some? && exists i :: 0 <= i < |d.body.value| && d.body.value[i] !in WHITESPACE
  }

  /** Whatever happened before, indexing a document without text leaves it empty and without rows. */
  lemma NothingToIndex(embed: string -> Vector, ops: seq<Op>, id: nat, up: nat -> bool)
    requires id in Run(embed, ops).documents && !HasText(Run(embed, ops).documents[id])
    ensures var after := Run(embed, ops + [IndexOne(id, up)]);
            && id in after.documents
            && after.documents[id] == Run(embed, ops).documents[id].(status := Empty)
            && forall r :: r in after.rows ==> r.documentId != id
  {
    var s := Run(embed, ops);
    var after := IndexStep(embed, s, id, up);
    RunStep(embed, ops, IndexOne(id, up));
    IndexStepOwnRows(embed, s, id, up);
    BlankListed(BodyText(s.documents[id]));
    RowsOfMembers(after.rows, id);
    forall r | r in after.rows
      ensures r.documentId != id
    {
      assert r !in RowsOf(after.rows, id);
    }
  }

  /** Indexing a document with text, when the embedder goes through on every 64 chunks there are,
      leaves it indexed with one row per chunk of its own body, in order, each with the embedding of
      its own text, and the rows spell out the body. */
  lemma BodyIsIndexed(embed: string -> Vector, ops: seq<Op>, id: nat, up: nat -> bool)
    requires id in Run(embed, ops).documents && HasText(Run(embed, ops).documents[id])
    requires forall k: nat :: 64 * k < |ChunkText(Run(embed, ops).documents[id].body.value, 2000, 200).value| ==> up(k)
    ensures var d, after := Run(embed, ops).documents[id], Run(embed, ops + [IndexOne(id, up)]);
            var rows, chunks := RowsOf(after.rows, id), ChunkText(d.body.value, 2000, 200).value;
            && id in after.documents && after.documents[id] == d.(status := Indexed)
            && (forall r :: r in rows <==> r in after.rows && r.documentId == id)
            && |rows| == |chunks|
            && (forall i :: 0 <= i < |rows| ==> rows[i] == ChunkRow(id, d.matterId, chunks[i], embed(chunks[i].text)))
            && Rebuildable(StoredChunks(rows)) && Rebuild(StoredChunks(rows)) == d.body.value
  {
    var s := Run(embed, ops);
    var d, text := s.documents[id], s.documents[id].body.value;
    var after := IndexStep(embed, s, id, up);
    RunStep(embed, ops, IndexOne(id, up));
    IndexStepOwnRows(embed, s, id, up);
    BlankListed(text);
    AllUpIff(up, |ChunksOf(text)|);
    RowsOfMembers(after.rows, id);
    assert StoredChunks(RowsOf(after.rows, id)) == ChunksOf(text);
    ChunksRebuildText(text, TARGET_CHARS, OVERLAP_CHARS);
  }

  /** When some call it takes raises, the document is failed and nothing of it is stored. */
  lemma FailureStoresNothing(embed: string -> Vector, ops: seq<Op>, id: nat, up: nat -> bool, k: nat)
    requires id in Run(embed, ops).documents && HasText(Run(embed, ops).documents[id])
    requires 64 * k < |ChunkText(Run(embed, ops).documents[id].body.value, 2000, 200).value| && !up(k)
    ensures var after := Run(embed, ops + [IndexOne(id, up)]);
            && id in after.documents
            && after.documents[id] == Run(embed, ops).documents[id].(status := Failed)
            && forall r :: r in after.rows ==> r.documentId != id
  {
    var s := Run(embed, ops);
    var text := s.documents[id].body.value;
    var after := IndexStep(embed, s, id, up);
    RunStep(embed, ops, IndexOne(id, up));
    IndexStepOwnRows(embed, s, id, up);
    BlankListed(text);
    AllUpIff(up, |ChunksOf(text)|);
    RowsOfMembers(after.rows, id);
    forall r | r in after.rows
      ensures r.documentId != id
    {
      assert r !in RowsOf(after.rows, id);
    }
  }

  /** A reindex leaves each document it lists as indexing that one alone would, and the rest alone. */
  lemma ReindexLikeIndexing(embed: string -> Vector, ops: seq<Op>, ids: seq<nat>, up: (nat, nat) -> bool, id: nat)
    requires forall x :: x in ids ==> x in Run(embed, ops).documents
    requires id in Run(embed, ops).documents
    ensures var before, after := Run(embed, ops), Run(embed, ops + [Reindex(ids, up)]);
            var alone := Run(embed, ops + [IndexOne(id, UpFor(up, id))]);
            && id in after.documents && id in alone.documents
            && after.documents[id] == (if id in ids then alone.documents[id] else before.documents[id])
            && RowsOf(after.rows, id) == RowsOf((if id in ids then alone else before).rows, id)
  {
    var s := Run(embed, ops);
    RunStep(embed, ops, Reindex(ids, up));
    RunStep(embed, ops, IndexOne(id, UpFor(up, id)));
    ReindexIsPerDocument(embed, s, ids, up, id);
    IndexStepOwnRows(embed, s, id, UpFor(up, id));
  }

  /** A document is pending from its upload on, until it is indexed. */
  lemma UploadIsPending(embed: string -> Vector, ops: seq<Op>, id: nat, matterId: nat, body: Option<string>)
    requires id !in Run(embed, ops).documents
    ensures var before, after := Run(embed, ops), Run(embed, ops + [Upload(id, matterId, body)]);
            && after.documents == before.documents[id := Document(matterId, body, Pending)]
            && after.rows == before.rows
  {
    RunStep(embed, ops, Upload(id, matterId, body));
  }

  /** A new body is what the next indexing reads; until then the stored rows stay as they are. */
  lemma NewBodyIsNext(embed: string -> Vector, ops: seq<Op>, id: nat, body: Option<string>)
    requires id in Run(embed, ops).documents
    ensures var before, after := Run(embed, ops), Run(embed, ops + [SetBody(id, body)]);
            && after.documents == before.documents[id := before.documents[id].(body := body)]
            && after.rows == before.rows
  {
    RunStep(embed, ops, SetBody(id, body));
  }

  // ---- The table, updated in place ----

  function CountOf(s: Index, ids: seq<nat>, up: (nat, nat) -> bool, status: Status): nat
    requires forall id :: id in ids ==> id in s.documents
  {
    if ids == [] then 0
    else
      var last := ids[|ids| - 1];
      CountOf(s, ids[..|ids| - 1], up, status) +
      (if StatusAfter(BodyText(s.documents[last]), UpFor(up, last)) == status then 1 else 0)
  }

  /** What one turn of the reindex loop adds: the next document is indexed from the body it had
      at the start, because no earlier turn touched it. */
  lemma ReindexTurn(embed: string -> Vector, s: Index, ids: seq<nat>, i: nat, up: (nat, nat) -> bool)
    requires i < |ids|
    requires forall id :: id in ids ==> id in s.documents
    requires forall i, j :: 0 <= i < j < |ids| ==> ids[i] != ids[j]
    ensures var mid, id := IndexMany(embed, s, ids[..i], up), ids[i];
            && IndexMany(embed, s, ids[..i + 1], up) == IndexStep(embed, mid, id, UpFor(up, id))
            && mid.documents[id] == s.documents[id]
    ensures forall status :: CountOf(s, ids[..i + 1], up, status) ==
                             CountOf(s, ids[..i], up, status) +
                             (if StatusAfter(BodyText(s.documents[ids[i]]), UpFor(up, ids[i])) == status then 1 else 0)
  {
    assert ids[..i + 1][..i] == ids[..i];
    ReindexIsPerDocument(embed, s, ids[..i], up, ids[i]);
  }

  class DocumentIndex {
    const embed: string -> Vector
    var documents: map<nat, Document>
    var rows: seq<ChunkRow>
    var indexedAt: map<nat, int>
    ghost var indexedText: map<nat, string>

    ghost function State(): Index
      reads this
    {
      Index(documents, rows, indexedText)
    }

    constructor (embed: string -> Vector)
      ensures State() == Run(embed, []) && this.embed == embed && indexedAt == map[]
    {
      this.embed := embed;
      documents, rows, indexedText, indexedAt := map[], [], map[], map[];
    }

    /** Returns nothing when the embedder raised: the document is left failed, with the time it was
        last indexed at, and the exception goes on to the caller. */
    method IndexDocument(id: nat, up: nat -> bool, now: int) returns (result: Option<Status>)
      requires id in documents
      modifies this
      ensures var status := StatusAfter(BodyText(old(documents)[id]), up);
              && result == (if status == Failed then None else Some(status))
              && indexedAt == (if status == Failed then old(indexedAt) else old(indexedAt)[id := now])
      ensures State() == IndexStep(embed, old(State()), id, up) == Apply(embed, old(State()), IndexOne(id, up))
    {
      var status;
      var document := documents[id];
      var text := BodyText(document);
      var chunks := Chunked(text);
      rows := Without(rows, id);
      if chunks == [] {
        status := Empty;
        assert rows + [] == rows;
      } else {
        var embedded := EmbedAll(embed, chunks, up);
        if embedded.None? {
          status := Failed;
          assert rows + [] == rows;
        } else {
          var added := StoreRows(embed, id, document.matterId, chunks, embedded.value);
          assert added == ExpectedRows(embed, id, document.matterId, text);
          rows := rows + added;
          status := Indexed;
        }
      }
      documents := documents[id := document.(status := status)];
      indexedText := indexedText[id := text];
      if status == Failed {
        return None;
      }
      indexedAt := indexedAt[id := now];
      result := Some(status);
    }

    /** One turn of the reindex loop: an exception counts as a failure. */
    method IndexCatching(id: nat, up: nat -> bool, now: int) returns (status: Status)
      requires id in documents
      modifies this
      ensures status == StatusAfter(BodyText(old(documents)[id]), up)
      ensures State() == IndexStep(embed, old(State()), id, up)
    {
      var result := IndexDocument(id, up, now);
      status := if result.None? then Failed else result.value;
    }

    /** Index every listed document; one that fails does not stop the others. The summary counts
        the listed documents by the status each ended in. */
    method ReindexMatter(ids: seq<nat>, up: (nat, nat) -> bool, now: int) returns (summary: map<Status, nat>)
      requires forall id :: id in ids ==> id in documents
      requires forall i, j :: 0 <= i < j < |ids| ==> ids[i] != ids[j]
      modifies this
      ensures State() == IndexMany(embed, old(State()), ids, up)
      ensures summary.Keys == {Indexed, Empty, Failed}
      ensures forall s :: s in summary ==> summary[s] == CountOf(old(State()), ids, up, s)
    {
      summary := map[Indexed := 0, Empty := 0, Failed := 0];
      for i := 0 to |ids|
        invariant State() == IndexMany(embed, old(State()), ids[..i], up)
        invariant summary.Keys == {Indexed, Empty, Failed}
        invariant forall s :: s in summary ==> summary[s] == CountOf(old(State()), ids[..i], up, s)
      {
        ReindexTurn(embed, old(State()), ids, i, up);
        var status := IndexCatching(ids[i], UpFor(up, ids[i]), now);
        summary := summary[status := summary[status] + 1];
      }
      assert ids[..|ids|] == ids;
    }
  }
}
