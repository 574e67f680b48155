/** `VectorDBManager`: ingestion of a transcript into a per-video Chroma
    collection and lookups scoped to one collection. The Chroma client is a map
    from collection name to the entries stored in it. The text splitter,
    Python's `hash` and the similarity ranking are functions the manager is
    given; nothing is assumed about them. */
module VectorDb {
  import opened Wrappers
  import opened TextUtil
  import Decimal

  /** A chunk is stored only when its stripped length exceeds this. */
  const MinChunkLength: nat := 10
  /** Collection numbers are `hash(safe_title) % 1000000`. */
  const CollectionBuckets: nat := 1000000
  const DefaultResults: int := 3
  const CollectionPrefix: string := "video_"
  const ChunkPrefix: string := "chunk_"
  const UnknownUploader: string := "Unknown"

  /** What `transcribe_audio` hands to `add_transcript`; an absent key is `None`. */
  datatype Transcript = Transcript(title: string, uploader: Option<string>, transcript: string, wordCount: Option<int>)

  datatype ChunkMeta = ChunkMeta(videoTitle: string, chunkIndex: nat, uploader: string)

  /** One stored chunk: its id, its document text and its metadata. */
  datatype Entry = Entry(id: string, document: string, metadata: ChunkMeta)

  /** Chroma's query result: one inner list per query text. */
  datatype QueryResult = QueryResult(ids: seq<seq<string>>, documents: seq<seq<string>>, metadatas: seq<seq<ChunkMeta>>)

  // ---------------------------------------------------------------------------
  // Collection names

  predicate IsTitleChar(c: char) {
    IsAsciiAlnum(c) || c == ' ' || c == '-' || c == '_'
  }

  /** The only whitespace character a safe title can hold is the space. */
  lemma TitleSpaceIsBlank(c: char)
    requires IsTitleChar(c) && IsSpace(c)
    ensures c == ' '
  {
  }

  /** `safe_title`: the title filtered to alphanumerics, space, `-` and `_`,
      then right-stripped. */
  function SafeTitle(title: string): (r: string)
    ensures forall i :: 0 <= i < |r| ==> IsTitleChar(r[i])
    ensures r == [] || r[|r| - 1] != ' '
    ensures StartsWith(Filter(IsTitleChar, title), r)
    ensures forall i :: |r| <= i < |Filter(IsTitleChar, title)| ==> Filter(IsTitleChar, title)[i] == ' '
  {
    var f := Filter(IsTitleChar, title);
    var r := RStrip(f);
    RStripSpec(f);
    forall i | |r| <= i < |f| ensures f[i] == ' ' {
      TitleSpaceIsBlank(f[i]);
    }
    r
  }

  lemma SafeTitleIdempotent(title: string)
    ensures SafeTitle(SafeTitle(title)) == SafeTitle(title)
  {
    FilterOfKept(IsTitleChar, SafeTitle(title));
  }

  /** Dropping a character the filter rejects leaves the safe title unchanged. */
  lemma SafeTitleIgnoresRejected(a: string, c: char, b: string)
    requires !IsTitleChar(c)
    ensures SafeTitle(a + [c] + b) == SafeTitle(a + b)
  {
    FilterDropsRejected(IsTitleChar, a, c, b);
  }

  /** Trailing spaces do not change the safe title. */
  lemma SafeTitleIgnoresTrailingSpace(title: string)
    ensures SafeTitle(title + " ") == SafeTitle(title)
  {
    FilterAppend(IsTitleChar, title, " ");
    assert Filter(IsTitleChar, " ") == " " by { assert " "[1..] == []; }
    var f := Filter(IsTitleChar, title);
    assert (f + " ")[..|f + " "| - 1] == f;
  }

  /** `f"video_{hash(safe_title) % 1000000}"`; Python's `%` with a positive
      modulus is never negative, like Dafny's. */
  function CollectionName(hash: string -> int, title: string): (r: string)
    ensures StartsWith(r, CollectionPrefix)
    ensures Decimal.AllDigits(r[|CollectionPrefix|..]) && |r| > |CollectionPrefix|
    ensures Decimal.Value(r[|CollectionPrefix|..]) < CollectionBuckets
    ensures Decimal.Value(r[|CollectionPrefix|..]) == hash(SafeTitle(title)) % CollectionBuckets
  {
    var n := hash(SafeTitle(title)) % CollectionBuckets;
    Decimal.ValueOfFromNat(n);
    var r := CollectionPrefix + Decimal.FromNat(n);
    assert r[|CollectionPrefix|..] == Decimal.FromNat(n);
    r
  }

  /** Titles with the same safe title share one collection. */
  lemma SharedCollectionName(hash: string -> int, a: string, c: char, b: string)
    requires !IsTitleChar(c)
    ensures CollectionName(hash, a + [c] + b) == CollectionName(hash, a + b)
    ensures CollectionName(hash, a + " ") == CollectionName(hash, a)
  {
    SafeTitleIgnoresRejected(a, c, b);
    SafeTitleIgnoresTrailingSpace(a);
  }

  // ---------------------------------------------------------------------------
  // Chunk selection

  function ChunkId(i: nat): string {
    ChunkPrefix + Decimal.FromNat(i)
  }

  lemma ChunkIdInjective(i: nat, j: nat)
    requires ChunkId(i) == ChunkId(j)
    ensures i == j
  {
    assert Decimal.FromNat(i) == ChunkId(i)[|ChunkPrefix|..];
    assert Decimal.FromNat(j) == ChunkId(j)[|ChunkPrefix|..];
    Decimal.FromNatInjective(i, j);
  }

  /** `len(chunk.strip()) > 10`. */
  predicate Meaningful(chunk: string) {
    |Strip(chunk)| > MinChunkLength
  }

  /** The entries `add_transcript` builds from the split output: one per
      meaningful chunk, in split order, keyed by the chunk's position. */
  function KeptEntries(chunks: seq<string>, title: string, uploader: string): (r: seq<Entry>)
    ensures |r| <= |chunks|
    decreases |chunks|
  {
    if chunks == [] then []
    else
      var i := |chunks| - 1;
      var before := KeptEntries(chunks[..i], title, uploader);
      if Meaningful(chunks[i]) then before + [Entry(ChunkId(i), chunks[i], ChunkMeta(title, i, uploader))]
      else before
  }

  /** `e` is the entry for a meaningful chunk of `chunks`. */
  predicate EntryFor(chunks: seq<string>, title: string, uploader: string, e: Entry) {
    && e.metadata.chunkIndex < |chunks|
    && e.document == chunks[e.metadata.chunkIndex]
    && Meaningful(e.document)
    && e.id == ChunkId(e.metadata.chunkIndex)
    && e.metadata.videoTitle == title
    && e.metadata.uploader == uploader
  }

  /** Every kept entry is the unstripped text of a meaningful chunk under that
      chunk's index, and the indices strictly increase. */
  lemma {:induction false} KeptEntriesSound(chunks: seq<string>, title: string, uploader: string)
    ensures var r := KeptEntries(chunks, title, uploader);
      && |r| <= |chunks|
      && (forall k :: 0 <= k < |r| ==> EntryFor(chunks, title, uploader, r[k]))
      && (forall k, l :: 0 <= k < l < |r| ==> r[k].metadata.chunkIndex < r[l].metadata.chunkIndex)
  {
    if chunks != [] {
      var i := |chunks| - 1;
      var p := chunks[..i];
      KeptEntriesSound(p, title, uploader);
      var before := KeptEntries(p, title, uploader);
      var r := KeptEntries(chunks, title, uploader);
      forall k | 0 <= k < |before|
        ensures EntryFor(chunks, title, uploader, before[k]) && before[k].metadata.chunkIndex < i
      {
        assert EntryFor(p, title, uploader, before[k]);
        assert p[before[k].metadata.chunkIndex] == chunks[before[k].metadata.chunkIndex];
      }
      if Meaningful(chunks[i]) {
        var e := Entry(ChunkId(i), chunks[i], ChunkMeta(title, i, uploader));
        assert r == before + [e];
        assert EntryFor(chunks, title, uploader, e);
        forall k | 0 <= k < |r| ensures EntryFor(chunks, title, uploader, r[k]) {
          if k < |before| {
            assert r[k] == before[k];
          }
        }
        forall k, l | 0 <= k < l < |r| ensures r[k].metadata.chunkIndex < r[l].metadata.chunkIndex {
          assert r[k] == before[k];
          if l < |before| {
            assert r[l] == before[l];
          }
        }
      } else {
        assert r == before;
      }
    }
  }

  /** A chunk is stored if and only if it is meaningful. */
  lemma {:induction false} KeptEntriesComplete(chunks: seq<string>, title: string, uploader: string)
    ensures var r := KeptEntries(chunks, title, uploader);
      forall i :: 0 <= i < |chunks| ==>
        (Meaningful(chunks[i]) <==> exists k :: 0 <= k < |r| && r[k].metadata.chunkIndex == i)
  {
    var r := KeptEntries(chunks, title, uploader);
    KeptEntriesSound(chunks, title, uploader);
    if chunks != [] {
      var i := |chunks| - 1;
      var p := chunks[..i];
      KeptEntriesComplete(p, title, uploader);
      var before := KeptEntries(p, title, uploader);
      forall j | 0 <= j < |chunks| && Meaningful(chunks[j])
        ensures exists k :: 0 <= k < |r| && r[k].metadata.chunkIndex == j
      {
        if j < i {
          assert p[j] == chunks[j];
          var k :| 0 <= k < |before| && before[k].metadata.chunkIndex == j;
          assert r[k] == before[k];
        } else {
          assert r[|r| - 1].metadata.chunkIndex == j;
        }
      }
    }
  }

  /** The ids of the stored chunks are pairwise distinct. */
  lemma KeptIdsUnique(chunks: seq<string>, title: string, uploader: string)
    ensures var r := KeptEntries(chunks, title, uploader);
      forall k, l :: 0 <= k < |r| && 0 <= l < |r| && k != l ==> r[k].id != r[l].id
  {
    var r := KeptEntries(chunks, title, uploader);
    KeptEntriesSound(chunks, title, uploader);
    forall k, l | 0 <= k < |r| && 0 <= l < |r| && k != l ensures r[k].id != r[l].id {
      if r[k].id == r[l].id {
        ChunkIdInjective(r[k].metadata.chunkIndex, r[l].metadata.chunkIndex);
      }
    }
  }

  /** Nothing is stored exactly when no chunk is meaningful. */
  lemma KeptEmptyIff(chunks: seq<string>, title: string, uploader: string)
    ensures KeptEntries(chunks, title, uploader) == [] <==> forall i :: 0 <= i < |chunks| ==> !Meaningful(chunks[i])
  {
    var r := KeptEntries(chunks, title, uploader);
    KeptEntriesSound(chunks, title, uploader);
    KeptEntriesComplete(chunks, title, uploader);
    if r != [] {
      assert Meaningful(chunks[r[0].metadata.chunkIndex]);
    }
  }

  /** `collection.add(documents=..., metadatas=..., ids=...)` pairs the three
      lists position by position. */
  function Zip(ids: seq<string>, documents: seq<string>, metadatas: seq<ChunkMeta>): (r: seq<Entry>)
    requires |ids| == |documents| == |metadatas|
    ensures |r| == |ids|
  {
    seq(|ids|, k requires 0 <= k < |ids| => Entry(ids[k], documents[k], metadatas[k]))
  }

  lemma ZipSnoc(ids: seq<string>, documents: seq<string>, metadatas: seq<ChunkMeta>, id: string, document: string, metadata: ChunkMeta)
    requires |ids| == |documents| == |metadatas|
    ensures Zip(ids + [id], documents + [document], metadatas + [metadata])
         == Zip(ids, documents, metadatas) + [Entry(id, document, metadata)]
  {
    var a := Zip(ids + [id], documents + [document], metadatas + [metadata]);
    var b := Zip(ids, documents, metadatas) + [Entry(id, document, metadata)];
    assert |a| == |b|;
    forall k | 0 <= k < |a| ensures a[k] == b[k] {
      if k < |ids| {
        assert (ids + [id])[k] == ids[k];
        assert (documents + [document])[k] == documents[k];
        assert (metadatas + [metadata])[k] == metadatas[k];
      }
    }
  }

  /** The loop of `add_transcript` that builds the `documents`, `metadatas` and
      `ids` lists from the split output. */
  method CollectChunks(chunks: seq<string>, title: string, uploader: string)
    returns (documents: seq<string>, metadatas: seq<ChunkMeta>, ids: seq<string>)
    ensures |ids| == |documents| == |metadatas|
    ensures Zip(ids, documents, metadatas) == KeptEntries(chunks, title, uploader)
  {
    documents, metadatas, ids := [], [], [];
    var i := 0;
    while i < |chunks|
      invariant 0 <= i <= |chunks|
      invariant |ids| == |documents| == |metadatas|
      invariant Zip(ids, documents, metadatas) == KeptEntries(chunks[..i], title, uploader)
    {
      var chunk := chunks[i];
      assert chunks[..i + 1][..i] == chunks[..i];
      if |Strip(chunk)| > MinChunkLength {
        ZipSnoc(ids, documents, metadatas, ChunkId(i), chunk, ChunkMeta(title, i, uploader));
        documents := documents + [chunk];
        metadatas := metadatas + [ChunkMeta(title, i, uploader)];
        ids := ids + [ChunkId(i)];
      }
      i := i + 1;
    }
    assert chunks[..i] == chunks;
  }

  // ---------------------------------------------------------------------------
  // Query results

  /** The entries the ranking points at, in ranked order; indices past the end
      of the collection are dropped. */
  function Ranked(order: seq<nat>, entries: seq<Entry>): (r: seq<Entry>)
    ensures |r| <= |order|
    ensures forall k :: 0 <= k < |r| ==> r[k] in entries
  {
    if order == [] then []
    else (if order[0] < |entries| then [entries[order[0]]] else []) + Ranked(order[1..], entries)
  }

  function Take<T>(s: seq<T>, n: int): (r: seq<T>)
    ensures |r| == if n <= 0 then 0 else if n < |s| then n else |s|
    ensures r == s[..|r|]
  {
    if n <= 0 then [] else if n < |s| then s[..n] else s
  }

  function Ids(hits: seq<Entry>): seq<string> { seq(|hits|, k requires 0 <= k < |hits| => hits[k].id) }
  function Documents(hits: seq<Entry>): seq<string> { seq(|hits|, k requires 0 <= k < |hits| => hits[k].document) }
  function Metadatas(hits: seq<Entry>): seq<ChunkMeta> { seq(|hits|, k requires 0 <= k < |hits| => hits[k].metadata) }

  // ---------------------------------------------------------------------------
  // The manager

  class VectorDbManager {
    /** The persistent Chroma client: collection name to stored entries. */
    var client: map<string, seq<Entry>>
    var currentCollection: Option<string>
    /** Whether `load_embedding_model` produced a model. */
    const embeddingModelLoaded: bool
    /** `RecursiveCharacterTextSplitter(chunk_size=1000, chunk_overlap=100).split_text`. */
    const split: string -> seq<string>
    /** Python's `hash` on strings. */
    const hash: string -> int
    /** Chroma's similarity order of a collection's entries for a query text. */
    const rank: (string, seq<Entry>) -> seq<nat>

    /** `VectorDBManager()`: opens the persistent store as it is on disk. */
    constructor (store: map<string, seq<Entry>>, embeddingModelLoaded: bool,
                 split: string -> seq<string>, hash: string -> int, rank: (string, seq<Entry>) -> seq<nat>)
      ensures client == store && currentCollection == None
      ensures this.embeddingModelLoaded == embeddingModelLoaded
      ensures this.split == split && this.hash == hash && this.rank == rank
    {
      client := store;
      currentCollection := None;
      this.embeddingModelLoaded := embeddingModelLoaded;
      this.split := split;
      this.hash := hash;
      this.rank := rank;
    }

    /** The entries an ingest of `t` stores. */
    function Ingested(t: Transcript): seq<Entry> {
      KeptEntries(split(t.transcript), t.title, t.uploader.GetOr(UnknownUploader))
    }

    /** Whether `add_transcript(t)` returns a name; `addRaises` says whether
        Chroma's `add` raised. */
    predicate IngestSucceeds(t: Transcript, addRaises: bool) {
      embeddingModelLoaded && !IsBlank(t.transcript) && Ingested(t) != [] && !addRaises
    }

    /** The store after `add_transcript(t)`. */
    function IngestedStore(store: map<string, seq<Entry>>, t: Transcript, addRaises: bool): (r: map<string, seq<Entry>>)
      ensures r.Keys == if embeddingModelLoaded then store.Keys + {CollectionName(hash, t.title)} else store.Keys
      ensures forall n :: n in store && (!embeddingModelLoaded || n != CollectionName(hash, t.title)) ==> r[n] == store[n]
    {
      if !embeddingModelLoaded then store
      else
        var name := CollectionName(hash, t.title);
        store[name := if IngestSucceeds(t, addRaises) then Ingested(t) else []]
    }

    /** On success the collection holds exactly this call's kept chunks, however
        many earlier ingests wrote to the same name; other collections are left alone. */
    lemma IngestReplaces(store: map<string, seq<Entry>>, t: Transcript, addRaises: bool)
      requires IngestSucceeds(t, addRaises)
      ensures var s := IngestedStore(store, t, addRaises);
        var name := CollectionName(hash, t.title);
        && name in s && s[name] == Ingested(t)
        && s[name] == IngestedStore(s, t, addRaises)[name]
        && (forall k :: k != name ==> (k in s <==> k in store) && (k in s ==> s[k] == store[k]))
    {
    }

    /** A successful ingest succeeds exactly when the model is loaded, the text
        is not blank, some chunk is meaningful, and the add does not raise. */
    lemma IngestSucceedsIff(t: Transcript, addRaises: bool)
      ensures IngestSucceeds(t, addRaises) <==>
        && embeddingModelLoaded && !IsBlank(t.transcript) && !addRaises
        && exists i :: 0 <= i < |split(t.transcript)| && Meaningful(split(t.transcript)[i])
    {
      KeptEmptyIff(split(t.transcript), t.title, t.uploader.GetOr(UnknownUploader));
    }

    /** A blank transcript is refused after its (now empty) collection was
        already created. */
    lemma BlankLeavesEmptyCollection(store: map<string, seq<Entry>>, t: Transcript, addRaises: bool)
      requires embeddingModelLoaded && IsBlank(t.transcript)
      ensures !IngestSucceeds(t, addRaises)
      ensures var s := IngestedStore(store, t, addRaises);
        CollectionName(hash, t.title) in s && s[CollectionName(hash, t.title)] == []
    {
    }

    /** `add_transcript(transcript_data)`. */
    method AddTranscript(t: Transcript, addRaises: bool) returns (name: Option<string>)
      modifies this
      ensures client == IngestedStore(old(client), t, addRaises)
      ensures name == if IngestSucceeds(t, addRaises) then Some(CollectionName(hash, t.title)) else None
      ensures currentCollection == if name.Some? then name else old(currentCollection)
    {
      if !embeddingModelLoaded {
        return None;
      }
      var collectionName := CollectionName(hash, t.title);
      // delete_collection raises for a missing name; the error is ignored
      client := client - {collectionName};
      if collectionName !in client {
        client := client[collectionName := []];
      }
      assert client == old(client)[collectionName := []];
      if IsBlank(t.transcript) {
        return None;
      }
      var documents, metadatas, ids := CollectChunks(split(t.transcript), t.title, t.uploader.GetOr(UnknownUploader));
      ghost var kept := Zip(ids, documents, metadatas);
      assert kept == Ingested(t) && (documents != [] <==> kept != []);
      if documents != [] {
        if addRaises {
          return None;
        }
        assert IngestSucceeds(t, addRaises);
        assert client[collectionName] + kept == kept;
        client := client[collectionName := client[collectionName] + Zip(ids, documents, metadatas)];
        assert client == old(client)[collectionName := Ingested(t)];
        currentCollection := Some(collectionName);
        return Some(collectionName);
      }
      return None;
    }

    /** The collection a search looks in: the named one, else the current one. */
    function Target(collectionName: Option<string>): Option<string>
      reads this
    {
      if collectionName.None? then currentCollection else collectionName
    }

    /** `search(query, collection_name, n_results)`. A missing collection and a
        non-positive `n_results` make Chroma raise, which yields `None`. */
    function Search(query: string, collectionName: Option<string> := None, nResults: int := DefaultResults): (r: Option<QueryResult>)
      reads this
      ensures r.Some? <==>
        Target(collectionName).Some? && Target(collectionName).value != "" && Target(collectionName).value in client && nResults >= 1
      ensures r.Some? ==>
        && |r.value.ids| == |r.value.documents| == |r.value.metadatas| == 1
        && |r.value.documents[0]| <= nResults
        && |r.value.ids[0]| == |r.value.documents[0]| == |r.value.metadatas[0]|
        && forall k :: 0 <= k < |r.value.documents[0]| ==>
             Entry(r.value.ids[0][k], r.value.documents[0][k], r.value.metadatas[0][k]) in client[Target(collectionName).value]
    {
      var target := Target(collectionName);
      if target.None? || target.value == "" then None
      else if target.value !in client || nResults < 1 then None
      else
        var entries := client[target.value];
        var hits := Take(Ranked(rank(query, entries), entries), nResults);
        assert forall k :: 0 <= k < |hits| ==> hits[k] in entries;
        Some(QueryResult([Ids(hits)], [Documents(hits)], [Metadatas(hits)]))
    }

    /** `delete_collection(name)`: Chroma raises for a missing name, which
        yields `False` and changes nothing. */
    method DeleteCollection(name: string) returns (ok: bool)
      modifies this
      ensures ok == (name in old(client))
      ensures client == old(client) - {name}
      ensures currentCollection == if ok && old(currentCollection) == Some(name) then None else old(currentCollection)
    {
      if name !in client {
        return false;
      }
      client := client - {name};
      if currentCollection == Some(name) {
        currentCollection := None;
      }
      return true;
    }

    /** `cleanup_all_collections()`: deletes every listed collection, then
        forgets the current one. */
    method CleanupAllCollections() returns (ok: bool)
      modifies this
      ensures ok && client == map[] && currentCollection == None
    {
      var remaining := client.Keys;
      while remaining != {}
        invariant client.Keys == remaining
        decreases remaining
      {
        var name :| name in remaining;
        client := client - {name};
        remaining := remaining - {name};
      }
      currentCollection := None;
      return true;
    }
  }
}
