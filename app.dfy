/** The session controller of the Streamlit app: the library of processed
    videos (at most five, oldest evicted first), the current video and its
    collection, the chat history and the `processing` flag, all held in
    `st.session_state`. The pipeline steps are inputs that succeed or fail;
    the vector store is a `VectorDbManager`; the LLM is a function from
    (prompt, context) to the reply text. */
module App {
  import opened Wrappers
  import opened TextUtil
  import AudioProcessor
  import opened VectorDb

  /** `MAX_CHAT_HISTORY`: how many turns the chat view shows. */
  const MaxChatHistory: nat := 20
  /** The library keeps the five most recent videos. */
  const MaxProcessedVideos: nat := 5
  /** How many search hits go into the context. */
  const ContextResults: nat := 3
  const ContextSeparator: string := "\n\n"
  const NotFoundReply: string := "I couldn't find relevant information in this video to answer your question."

  datatype Role = User | Assistant

  /** One chat message: `{"role": ..., "content": ...}`. */
  datatype Turn = Turn(role: Role, content: string)

  /** The `processed_video` dictionary. */
  datatype VideoEntry = VideoEntry(
    title: string, uploader: string, duration: string, durationSeconds: int,
    thumbnailUrl: Option<string>, viewCount: int, description: string,
    url: string, wordCount: int, collectionId: string)

  function EntryOf(url: string, info: AudioProcessor.VideoInfo, t: Transcript, collectionId: string): VideoEntry {
    VideoEntry(info.title, info.uploader, info.duration, info.durationSeconds, info.thumbnailUrl,
               info.viewCount, info.description, url, t.wordCount.GetOr(0), collectionId)
  }

  // ---------------------------------------------------------------------------
  // The library

  /** The entry `process_video` pops before appending, if the library is full. */
  function Evicted(library: seq<VideoEntry>): (r: Option<VideoEntry>)
    ensures r.Some? <==> |library| >= MaxProcessedVideos
    ensures r.Some? ==> r.value == library[0]
  {
    if |library| >= MaxProcessedVideos then Some(library[0]) else None
  }

  /** The library after `process_video` adds `entry`. */
  function Enroll(library: seq<VideoEntry>, entry: VideoEntry): (r: seq<VideoEntry>)
    ensures |r| > 0 && r[|r| - 1] == entry
    ensures |library| <= MaxProcessedVideos ==> |r| <= MaxProcessedVideos
  {
    if |library| >= MaxProcessedVideos then library[1..] + [entry] else library + [entry]
  }

  /** The new entry is last; only the oldest entry is dropped, and only when
      the library was full; every other entry keeps its order. */
  lemma EnrollFifo(library: seq<VideoEntry>, entry: VideoEntry)
    ensures var r := Enroll(library, entry);
      var dropped := if |library| >= MaxProcessedVideos then 1 else 0;
      && |r| == |library| + 1 - dropped
      && r[|r| - 1] == entry
      && forall j :: 0 <= j < |r| - 1 ==> r[j] == library[j + dropped]
  {
  }

  /** A library of at most five entries stays at most five. */
  lemma EnrollBounded(library: seq<VideoEntry>, entry: VideoEntry)
    requires |library| <= MaxProcessedVideos
    ensures |Enroll(library, entry)| == if |library| < MaxProcessedVideos then |library| + 1 else MaxProcessedVideos
  {
  }

  /** The library after adding each of `entries` in turn. */
  function EnrollAll(library: seq<VideoEntry>, entries: seq<VideoEntry>): seq<VideoEntry>
    decreases |entries|
  {
    if entries == [] then library else EnrollAll(Enroll(library, entries[0]), entries[1..])
  }

  /** From any library of at most five entries, successive additions keep
      exactly the five most recent videos. */
  lemma {:induction false} EnrollAllKeepsMostRecent(library: seq<VideoEntry>, entries: seq<VideoEntry>)
    requires |library| <= MaxProcessedVideos
    ensures var all := library + entries;
      EnrollAll(library, entries) == all[if |all| <= MaxProcessedVideos then 0 else |all| - MaxProcessedVideos..]
    decreases |entries|
  {
    if entries != [] {
      var next := Enroll(library, entries[0]);
      EnrollBounded(library, entries[0]);
      EnrollAllKeepsMostRecent(next, entries[1..]);
      var all := library + entries;
      var all' := next + entries[1..];
      if |library| >= MaxProcessedVideos {
        assert all' == all[1..];
      } else {
        assert all' == all;
      }
    }
  }

  /** The store after the full-library eviction deletes the oldest entry's collection. */
  function AfterEviction(store: map<string, seq<Entry>>, library: seq<VideoEntry>): map<string, seq<Entry>> {
    match Evicted(library)
    case None => store
    case Some(oldest) => store - {oldest.collectionId}
  }

  /** Where `list.remove(x)` finds `x`: its first position. */
  function FirstIndex(s: seq<VideoEntry>, x: VideoEntry): (i: nat)
    requires x in s
    ensures i < |s| && s[i] == x
    ensures forall j :: 0 <= j < i ==> s[j] != x
  {
    if s[0] == x then 0
    else
      FirstIndex(s[1..], x) + 1
  }

  /** `list.remove(x)`: drops the first element equal to `x` and keeps the
      rest in order. */
  function RemoveFirst(s: seq<VideoEntry>, x: VideoEntry): (r: seq<VideoEntry>)
    requires x in s
    ensures |r| == |s| - 1
    ensures multiset(r) == multiset(s) - multiset{x}
    ensures var i := FirstIndex(s, x); r[..i] == s[..i] && r[i..] == s[i + 1..]
  {
    var i := FirstIndex(s, x);
    assert s == s[..i] + [x] + s[i + 1..];
    s[..i] + s[i + 1..]
  }

  /** Removing one element keeps every other element present. */
  lemma RemoveFirstKeepsOthers(s: seq<VideoEntry>, x: VideoEntry, y: VideoEntry)
    requires x in s && y in s && y != x
    ensures y in RemoveFirst(s, x)
  {
    var r := RemoveFirst(s, x);
    assert multiset(s)[y] > 0;
    assert multiset(r)[y] == multiset(s)[y];
  }

  // ---------------------------------------------------------------------------
  // Chat

  /** `sep.join(parts)`. */
  function Join(parts: seq<string>, sep: string): (r: string)
    ensures parts == [] ==> r == ""
    ensures |parts| > 0 ==> StartsWith(r, parts[0])
    ensures |parts| > 0 ==> |parts[|parts| - 1]| <= |r| && r[|r| - |parts[|parts| - 1]|..] == parts[|parts| - 1]
    decreases |parts|
  {
    if parts == [] then ""
    else if |parts| == 1 then parts[0]
    else Join(parts[..|parts| - 1], sep) + sep + parts[|parts| - 1]
  }

  /** Every joined part occurs in the joined text. */
  lemma {:induction false} JoinContains(parts: seq<string>, sep: string, k: nat)
    requires k < |parts|
    ensures Contains(Join(parts, sep), parts[k])
    decreases |parts|
  {
    var n := |parts|;
    if n == 1 {
      ContainsSelf(parts[0]);
    } else {
      var init, last := parts[..n - 1], parts[n - 1];
      assert Join(parts, sep) == Join(init, sep) + sep + last;
      if k == n - 1 {
        ContainsSelf(last);
        ContainsInRight(Join(init, sep) + sep, last, last);
      } else {
        JoinContains(init, sep, k);
        assert init[k] == parts[k];
        assert Join(parts, sep) == Join(init, sep) + (sep + last);
        ContainsInLeft(Join(init, sep), sep + last, parts[k]);
      }
    }
  }

  /** The context `handle_user_message` gives the LLM, or `None` when it
      answers with the canned reply instead. */
  function LlmContext(result: Option<QueryResult>): (c: Option<string>)
    ensures c.Some? <==> result.Some? && result.value.documents != []
  {
    if result.Some? && result.value.documents != [] then
      Some(Join(Take(result.value.documents[0], ContextResults), ContextSeparator))
    else None
  }

  /** The context carries each of the first (at most three) hits of the first
      result list, and is empty when that list is. */
  lemma ContextHoldsTopHits(result: QueryResult)
    requires result.documents != []
    ensures var c := LlmContext(Some(result)).value;
      var docs := result.documents[0];
      && (docs == [] ==> c == "")
      && forall k :: 0 <= k < |docs| && k < ContextResults ==> Contains(c, docs[k])
  {
    var docs := result.documents[0];
    var top := Take(docs, ContextResults);
    forall k | 0 <= k < |docs| && k < ContextResults ensures Contains(LlmContext(Some(result)).value, docs[k]) {
      assert top[k] == docs[k];
      JoinContains(top, ContextSeparator, k);
    }
  }

  /** The assistant's reply to `prompt` given the search result. */
  function Reply(llm: (string, string) -> string, result: Option<QueryResult>, prompt: string): (r: string)
    ensures result.None? || result.value.documents == [] ==> r == NotFoundReply
    ensures result.Some? && result.value.documents != [] ==>
      r == llm(prompt, Join(Take(result.value.documents[0], ContextResults), ContextSeparator))
  {
    match LlmContext(result)
    case Some(context) => llm(prompt, context)
    case None => NotFoundReply
  }

  /** `chat_history[-MAX_CHAT_HISTORY:]`. */
  function RenderedHistory(history: seq<Turn>): (r: seq<Turn>)
    ensures |r| == if |history| < MaxChatHistory then |history| else MaxChatHistory
    ensures r == history[|history| - |r|..]
  {
    if |history| <= MaxChatHistory then history else history[|history| - MaxChatHistory..]
  }

  /** Rendering after appending to the rendered window is rendering after
      appending to the whole history. */
  lemma RenderedHistoryAppend(history: seq<Turn>, more: seq<Turn>)
    ensures RenderedHistory(RenderedHistory(history) + more) == RenderedHistory(history + more)
  {
    var w := RenderedHistory(history);
    var a, b := RenderedHistory(w + more), RenderedHistory(history + more);
    assert |a| == |b|;
    forall j | 0 <= j < |a| ensures a[j] == b[j] {
      assert a[j] == (w + more)[|w + more| - |a| + j];
      assert b[j] == (history + more)[|history + more| - |b| + j];
    }
  }

  // ---------------------------------------------------------------------------
  // The session

  class YouTubeRagChat {
    var processedVideos: seq<VideoEntry>
    var chatHistory: seq<Turn>
    var currentVideo: Option<VideoEntry>
    var processing: bool
    var llmHealthChecked: bool
    var videoInfoCache: map<string, AudioProcessor.VideoInfo>
    var currentCollection: Option<string>
    /** The `VectorDBManager` built by this script run. */
    var db: VectorDbManager
    /** `LocalLLM.generate_response(prompt, context)`. */
    const llm: (string, string) -> string

    /** The session invariant: a bounded library, the current video taken from
        it, and the current collection that of the current video. */
    predicate Valid()
      reads this
    {
      && |processedVideos| <= MaxProcessedVideos
      && (currentVideo.Some? ==> currentVideo.value in processedVideos)
      && currentCollection == if currentVideo.Some? then Some(currentVideo.value.collectionId) else None
    }

    /** The first script run of a session: every session key is missing and
        gets its initial value. */
    constructor (store: map<string, seq<Entry>>, embeddingModelLoaded: bool,
                 split: string -> seq<string>, hash: string -> int,
                 rank: (string, seq<Entry>) -> seq<nat>, llm: (string, string) -> string)
      ensures Valid()
      ensures processedVideos == [] && chatHistory == [] && currentVideo == None && currentCollection == None
      ensures !processing && !llmHealthChecked && videoInfoCache == map[]
      ensures fresh(db) && db.client == store && db.currentCollection == None
      ensures db.embeddingModelLoaded == embeddingModelLoaded && db.split == split && db.hash == hash && db.rank == rank
      ensures this.llm == llm
    {
      db := new VectorDbManager(store, embeddingModelLoaded, split, hash, rank);
      this.llm := llm;
      processedVideos := [];
      chatHistory := [];
      currentVideo := None;
      processing := false;
      llmHealthChecked := false;
      videoInfoCache := map[];
      currentCollection := None;
    }

    /** A later script run: the session keys already exist and keep their
        values; a new `VectorDBManager` opens the same store and has no
        current collection. */
    method Rerun()
      modifies this
      ensures fresh(db) && db.client == old(db.client) && db.currentCollection == None
      ensures db.embeddingModelLoaded == old(db.embeddingModelLoaded) && db.split == old(db.split)
      ensures db.hash == old(db.hash) && db.rank == old(db.rank)
      ensures processedVideos == old(processedVideos) && chatHistory == old(chatHistory)
      ensures currentVideo == old(currentVideo) && currentCollection == old(currentCollection)
      ensures processing == old(processing) && llmHealthChecked == old(llmHealthChecked)
      ensures videoInfoCache == old(videoInfoCache)
    {
      db := new VectorDbManager(db.client, db.embeddingModelLoaded, db.split, db.hash, db.rank);
    }

    /** Whether the pipeline reaches the indexing step. */
    static predicate ReachesIndexing(info: Result<AudioProcessor.VideoInfo, string>, audio: Result<string, string>,
                                     transcribed: Result<Transcript, string>)
    {
      info.Success? && audio.Success? && transcribed.Success?
    }

    /** `process_video(youtube_url)`. `info`, `audio` and `transcribed` are
        what `get_video_info`, `download_audio` and `transcribe_audio` returned
        (`AudioProcessor.GetVideoInfo` and `AudioProcessor.DownloadAudio` model
        the first two); `addRaises` says whether Chroma's `add` raised. */
    method ProcessVideo(url: string, info: Result<AudioProcessor.VideoInfo, string>,
                        audio: Result<string, string>, transcribed: Result<Transcript, string>, addRaises: bool)
      requires Valid()
      modifies this, db
      ensures Valid() && !processing && db == old(db)
      ensures llmHealthChecked == old(llmHealthChecked)
      // the info is cached as soon as it is retrieved, whatever happens next
      ensures videoInfoCache == if info.Success? then old(videoInfoCache)[url := info.value] else old(videoInfoCache)
      // a failing step leaves the library, the current video and collection and the chat alone
      ensures !(ReachesIndexing(info, audio, transcribed) && db.IngestSucceeds(transcribed.value, addRaises)) ==>
        && processedVideos == old(processedVideos) && chatHistory == old(chatHistory)
        && currentVideo == old(currentVideo) && currentCollection == old(currentCollection)
        && db.currentCollection == old(db.currentCollection)
      ensures !ReachesIndexing(info, audio, transcribed) ==> db.client == old(db.client)
      ensures ReachesIndexing(info, audio, transcribed) && !db.IngestSucceeds(transcribed.value, addRaises) ==>
        db.client == db.IngestedStore(old(db.client), transcribed.value, addRaises)
      // success: the entry is enrolled and becomes current, the chat starts over
      ensures ReachesIndexing(info, audio, transcribed) && db.IngestSucceeds(transcribed.value, addRaises) ==>
        var name := CollectionName(db.hash, transcribed.value.title);
        var entry := EntryOf(url, info.value, transcribed.value, name);
        && processedVideos == Enroll(old(processedVideos), entry)
        && currentVideo == Some(entry) && currentCollection == Some(name) && chatHistory == []
        && db.client == AfterEviction(db.IngestedStore(old(db.client), transcribed.value, addRaises), old(processedVideos))
        && db.currentCollection ==
             if Evicted(old(processedVideos)).Some? && Evicted(old(processedVideos)).value.collectionId == name then None
             else Some(name)
    {
      processing := true;
      if info.Success? {
        videoInfoCache := videoInfoCache[url := info.value];
        if audio.Success? && transcribed.Success? {
          var name := db.AddTranscript(transcribed.value, addRaises);
          if name.Some? {
            StoreProcessedVideo(EntryOf(url, info.value, transcribed.value, name.value));
          }
        }
      }
      processing := false;
    }

    /** The bookkeeping of `process_video` once the index exists: the current
        collection is set, a full library evicts its oldest entry and that
        entry's collection, the new entry is appended and becomes current, and
        the chat starts over. */
    method StoreProcessedVideo(entry: VideoEntry)
      requires Valid()
      modifies this, db
      ensures Valid() && db == old(db)
      ensures processedVideos == Enroll(old(processedVideos), entry)
      ensures currentVideo == Some(entry) && currentCollection == Some(entry.collectionId) && chatHistory == []
      ensures db.client == AfterEviction(old(db.client), old(processedVideos))
      ensures db.currentCollection ==
        if && Evicted(old(processedVideos)).Some?
           && Evicted(old(processedVideos)).value.collectionId in old(db.client)
           && old(db.currentCollection) == Some(Evicted(old(processedVideos)).value.collectionId)
        then None else old(db.currentCollection)
      ensures videoInfoCache == old(videoInfoCache) && processing == old(processing) && llmHealthChecked == old(llmHealthChecked)
    {
      currentCollection := Some(entry.collectionId);
      if |processedVideos| >= MaxProcessedVideos {
        var oldest := processedVideos[0];
        processedVideos := processedVideos[1..];
        var deleted := db.DeleteCollection(oldest.collectionId);
      }
      processedVideos := processedVideos + [entry];
      currentVideo := Some(entry);
      chatHistory := [];
    }

    /** The delete button of the `k`-th library entry. */
    method DeleteVideo(k: nat)
      requires Valid() && k < |processedVideos|
      modifies this, db
      ensures Valid() && db == old(db)
      ensures var video := old(processedVideos[k]);
        && db.client == old(db.client) - {video.collectionId}
        && processedVideos == RemoveFirst(old(processedVideos), video)
        && (currentVideo, currentCollection) ==
             if old(currentVideo) == Some(video) then (None, None) else (old(currentVideo), old(currentCollection))
      ensures var video := old(processedVideos[k]);
        db.currentCollection ==
          if video.collectionId in old(db.client) && old(db.currentCollection) == Some(video.collectionId) then None
          else old(db.currentCollection)
      ensures chatHistory == old(chatHistory) && videoInfoCache == old(videoInfoCache)
      ensures processing == old(processing) && llmHealthChecked == old(llmHealthChecked)
    {
      var video := processedVideos[k];
      var deleted := db.DeleteCollection(video.collectionId);
      processedVideos := RemoveFirst(processedVideos, video);
      if currentVideo == Some(video) {
        currentVideo := None;
        currentCollection := None;
      } else if currentVideo.Some? {
        RemoveFirstKeepsOthers(old(processedVideos), video, currentVideo.value);
      }
    }

    /** The "Clear Chat History" button. */
    method ClearChatHistory()
      modifies this
      ensures chatHistory == []
      ensures processedVideos == old(processedVideos) && currentVideo == old(currentVideo)
      ensures currentCollection == old(currentCollection) && videoInfoCache == old(videoInfoCache)
      ensures processing == old(processing) && llmHealthChecked == old(llmHealthChecked) && db == old(db)
    {
      chatHistory := [];
    }

    /** `handle_user_message(prompt, video_title)`, reached from the chat view,
        which is shown only while a video is current. */
    method HandleUserMessage(prompt: string)
      requires Valid() && currentVideo.Some?
      modifies this
      ensures chatHistory == old(chatHistory) + [Turn(User, prompt), Turn(Assistant, Reply(llm, db.Search(prompt, currentCollection), prompt))]
      ensures processedVideos == old(processedVideos) && currentVideo == old(currentVideo)
      ensures currentCollection == old(currentCollection) && videoInfoCache == old(videoInfoCache)
      ensures processing == old(processing) && llmHealthChecked == old(llmHealthChecked) && db == old(db)
    {
      chatHistory := chatHistory + [Turn(User, prompt)];
      var searchResults := db.Search(prompt, collectionName := currentCollection);
      var response: string;
      if searchResults.Some? && searchResults.value.documents != [] {
        var context := Join(Take(searchResults.value.documents[0], ContextResults), ContextSeparator);
        response := llm(prompt, context);
      } else {
        response := NotFoundReply;
      }
      chatHistory := chatHistory + [Turn(Assistant, response)];
    }

    /** The turns the chat view shows. */
    method RenderedChatHistory() returns (turns: seq<Turn>)
      ensures |turns| == if |chatHistory| < MaxChatHistory then |chatHistory| else MaxChatHistory
      ensures turns == chatHistory[|chatHistory| - |turns|..]
    {
      turns := RenderedHistory(chatHistory);
    }
  }

  // ---------------------------------------------------------------------------
  // What the chat sees of the store

  /** The LLM is consulted exactly when the current collection exists in the
      store; it then sees only that collection's documents. */
  lemma ReplyScopedToCollection(db: VectorDbManager, prompt: string, name: string)
    requires name != ""
    ensures var result := db.Search(prompt, Some(name));
      && (LlmContext(result).Some? <==> name in db.client)
      && (result.Some? ==> forall k :: 0 <= k < |result.value.documents[0]| ==>
            exists e :: e in db.client[name] && e.document == result.value.documents[0][k])
  {
    var result := db.Search(prompt, Some(name));
    if result.Some? {
      var r := result.value;
      forall k | 0 <= k < |r.documents[0]|
        ensures exists e :: e in db.client[name] && e.document == r.documents[0][k]
      {
        var e := Entry(r.ids[0][k], r.documents[0][k], r.metadatas[0][k]);
        assert e in db.client[name];
      }
    }
  }

  /** When eviction deleted the collection just built (the oldest entry had the
      same collection id), the next question gets the canned reply. */
  lemma EvictedOwnCollectionGivesCannedReply(
    llm: (string, string) -> string, db: VectorDbManager, store: map<string, seq<Entry>>,
    library: seq<VideoEntry>, name: string, prompt: string)
    requires |library| >= MaxProcessedVideos && library[0].collectionId == name
    requires db.client == AfterEviction(store, library)
    ensures name !in db.client
    ensures Reply(llm, db.Search(prompt, Some(name)), prompt) == NotFoundReply
  {
  }

  /** Processing a second title that differs from an earlier one only by a
      character the collection name drops, while the library has room, leaves
      two entries with the same collection id. */
  lemma SharedCollectionIds(hash: string -> int, library: seq<VideoEntry>, entry: VideoEntry, j: nat,
                            a: string, c: char, b: string)
    requires |library| < MaxProcessedVideos && j < |library| && !IsTitleChar(c)
    requires library[j].collectionId == CollectionName(hash, a + [c] + b)
    requires entry.collectionId == CollectionName(hash, a + b)
    ensures var r := Enroll(library, entry);
      r[j].collectionId == r[|r| - 1].collectionId && j != |r| - 1
  {
    SharedCollectionName(hash, a, c, b);
  }
}
