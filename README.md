# YouTube RAG chat — a Dafny model of its session, vector store and media helpers

The system is a Streamlit app that lets a user chat with a YouTube video. It
runs a four-step pipeline:

1. Fetch the video's metadata with yt-dlp.
2. Download the audio.
3. Transcribe it locally.
4. Index the transcript as text chunks in a persistent Chroma vector store.

Each question is answered by a local LLM. The LLM sees the top three chunks
retrieved from the current video's collection.

This project models the three files that hold the app's state and decisions.
Each part takes the form of the code it models.

**`app.py` → module `App`, class `YouTubeRagChat`.** Streamlit's session state
becomes fields:

- the library of processed videos;
- the chat history;
- the current video and the current collection;
- the processing flag, the health-check flag and the video-info cache.

The class has these methods:

- `ProcessVideo`: the pipeline and its bookkeeping. The library holds at most
  five videos. The oldest one is evicted and its collection deleted.
- `DeleteVideo`: the sidebar delete button.
- `ClearChatHistory`.
- `HandleUserMessage`.
- `RenderedChatHistory`: the last twenty turns.

Its invariant `Valid()` says three things:

- the library holds at most five entries;
- the current video is in the library;
- the current collection is either absent or the current video's.

**`vector_db.py` → module `VectorDb`, class `VectorDbManager`.**

- The Chroma client is a field `client: map<string, seq<Entry>>`, from
  collection name to stored entries.
- `AddTranscript`, `DeleteCollection` and `CleanupAllCollections` reassign that
  field. `Search` reads it.
- Three components are function-valued constants given to the constructor, and
  no property of them is assumed:
  - the text splitter;
  - Python's string `hash`;
  - the embedding ranking, which returns the order in which Chroma would
    return the stored entries.
- The chunk filter and metadata loop is a method, `CollectChunks`. It is proved
  equal to a specification function, `KeptEntries`. Lemmas about `KeptEntries`
  prove that the store holds exactly the meaningful chunks, in order, with
  distinct ids.

**`audio_processor.py` → module `AudioProcessor`.**

- The pure helpers are functions, each with a partner lemma:
  - `sanitize_filename`;
  - `validate_youtube_url`, an equivalence with the ten URL shapes its regular
    expressions accept;
  - `truncate_description`;
  - `format_duration`, with a parser that inverts it.
- The two selection loops are methods proved against what they promise:
  - `get_best_audio_format`;
  - `get_best_thumbnail`.
- The decisions of `get_video_info` and `download_audio` are functions of the
  yt-dlp outcome:
  - the URL gate and the two-hour gate;
  - the error-message mapping.

The supporting modules are:

- `Wrappers`, with `Option` and `Result`;
- `Decimal`, for the decimal rendering used by f-strings;
- `TextUtil`, for Python's `str.strip`, `str.isspace` and `in` on strings.

The model keeps these behaviours of the code as written and proves each one:

- **Eviction can delete the collection it has just built.** Collection names
  depend only on the sanitized title. Re-processing a title whose old entry is
  the oldest in a full library deletes the fresh collection right after it is
  built (`App.YouTubeRagChat.StoreProcessedVideo`).
- **The next question then gets the canned "not found" reply**
  (`App.EvictedOwnCollectionGivesCannedReply`).
- **Two library entries can share a collection id.** Titles that differ only
  in rejected characters or trailing spaces get the same name
  (`VectorDb.SharedCollectionName`), so processing both leaves two library
  entries with one id (`App.SharedCollectionIds`). Deleting either entry
  removes the collection of both.
- **A blank transcript leaves an orphaned empty collection.** An add that
  raises does too. `add_transcript` deletes and recreates the collection before
  its checks, and then returns `None`
  (`VectorDb.VectorDbManager.BlankLeavesEmptyCollection`).

Chroma's query returns one inner list per query text, so `results['documents']`
is never empty. `search` therefore returns `None` only in three cases:

- there is no collection name;
- the collection does not exist;
- `n_results` is below one.

For an existing but empty collection, the LLM is called with an empty context.

## Model

| member | source | states |
|---|---|---|
| `Decimal.ValueOfFromNat` | vector_db.py:34 | the decimal rendering of a natural number reads back as that number |
| `Decimal.FromNatInjective` | vector_db.py:64 | distinct numbers render as distinct decimal strings |
| `Decimal.FromNat` | vector_db.py:34 | the f-string rendering of a natural number: at least one digit, no leading zero unless it is the single digit, and a single digit exactly below 10 |
| `TextUtil.LStripSpec` | vector_db.py:46 | `lstrip` drops exactly a maximal leading run of whitespace |
| `TextUtil.RStripSpec` | vector_db.py:33 | `rstrip` drops exactly a maximal trailing run of whitespace |
| `TextUtil.LStrip` | vector_db.py:46 | `lstrip` never lengthens its argument |
| `TextUtil.RStrip` | vector_db.py:33 | `rstrip` never lengthens its argument |
| `TextUtil.Strip` | vector_db.py:46 | `strip` never lengthens its argument |
| `TextUtil.BlankIffAllSpace` | vector_db.py:46 | `not text.strip()` holds iff every character is whitespace |
| `TextUtil.FilterAppend` | vector_db.py:33 | a character filter distributes over concatenation |
| `AudioProcessor.RemoveForbidden` | audio_processor.py:16 | the result contains none of the nine forbidden filename characters |
| `AudioProcessor.SanitizeFilename` | audio_processor.py:14-16 | the result has at most 100 characters, none forbidden, and is the longest such prefix of the title with forbidden characters removed |
| `AudioProcessor.SanitizeFilenameIdempotent` | audio_processor.py:14-16 | sanitizing twice equals sanitizing once |
| `AudioProcessor.SanitizeFilenameIgnoresForbidden` | audio_processor.py:16 | inserting a forbidden character anywhere does not change the result |
| `AudioProcessor.SanitizeFilenameOfClean` | audio_processor.py:14-16 | a clean title is returned unchanged, cut to 100 characters |
| `AudioProcessor.LiteralThenNotAfter` | audio_processor.py:21-23 | a literal after a fixed prefix is the same as the concatenated literal |
| `AudioProcessor.OptionalWwwForms` | audio_processor.py:21-23 | the optional `(www\.)?` group is the disjunction of its two forms |
| `AudioProcessor.SchemeForms` | audio_processor.py:21-23 | `https?://` accepts exactly the `http://` and `https://` schemes |
| `AudioProcessor.ValidateYoutubeUrl` | audio_processor.py:18-25 | an accepted URL starts with `http://` or `https://` and has more than 16 characters |
| `AudioProcessor.ValidateYoutubeUrlCases` | audio_processor.py:18-25 | a URL is valid iff one of the three patterns, with their options, matches at its start, each followed by a non-empty id |
| `AudioProcessor.ValidateYoutubeUrlForms` | audio_processor.py:18-25 | a URL is valid iff it matches one of ten explicit prefix forms followed by a character other than the id's terminator |
| `AudioProcessor.EarliestBestCarriesOver` | audio_processor.py:47-56 | the first maximum-bitrate element of the audio-only list is the first maximum-bitrate audio-only format of the input |
| `AudioProcessor.CollectAudioOnly` | audio_processor.py:45-50 | the result lists exactly the audio-only formats, in input order |
| `AudioProcessor.HighestBitrate` | audio_processor.py:53-56 | the index of the earliest element with the highest bitrate, as the head of the stable descending sort |
| `AudioProcessor.FirstWithAudio` | audio_processor.py:59-63 | the id of the first format carrying audio, or none when no format has audio |
| `AudioProcessor.GetBestAudioFormat` | audio_processor.py:43-63 | the earliest highest-`abr` audio-only format when there is one; otherwise the first format with audio; otherwise none |
| `AudioProcessor.FirstWithIdChoice` | audio_processor.py:113-115 | a thumbnail of a quality is found iff one carries that id, and the first such one is returned |
| `AudioProcessor.ByPriorityChoice` | audio_processor.py:112-115 | the chosen thumbnail belongs to the highest-priority quality present |
| `AudioProcessor.FirstWithIdAt` | audio_processor.py:113-115 | the thumbnail at the first position with the quality's id is the one returned |
| `AudioProcessor.ByPriorityAt` | audio_processor.py:112-115 | the first quality with a match decides the result |
| `AudioProcessor.BestThumbnail` | audio_processor.py:106-122 | a listed thumbnail by quality priority; otherwise the standard URL for a non-empty video id; otherwise none |
| `AudioProcessor.GetBestThumbnail` | audio_processor.py:106-122 | the nested loops return exactly `BestThumbnail` |
| `AudioProcessor.TruncateDescription` | audio_processor.py:124-130 | an empty description gives the placeholder; one of at most 200 characters is kept; a longer one gives its first 200 characters plus `...` |
| `AudioProcessor.TruncateDescriptionIdempotent` | audio_processor.py:124-130 | truncating twice equals truncating once |
| `AudioProcessor.Pad2` | audio_processor.py:142-144 | `:02d` renders a number as digits that read back as it: a leading zero below 10, exactly two digits below 100, and the plain decimal from 10 on |
| `AudioProcessor.FormatDuration` | audio_processor.py:132-144 | `Unknown` exactly for 0; otherwise a clock of at least five characters with a colon before the two second digits |
| `AudioProcessor.ParseDuration` | audio_processor.py:132-144 | the reading of a rendered duration back into seconds: never negative, and nothing for strings too short to be a clock |
| `AudioProcessor.ClockDecomposition` | audio_processor.py:137-141 | hours, minutes and seconds recompose the input; minutes and seconds are below 60; hours are positive iff the input is at least an hour |
| `AudioProcessor.ParseMinutesSeconds` | audio_processor.py:144 | an `MM:SS` string reads back as minutes times 60 plus seconds |
| `AudioProcessor.ParseLongClock` | audio_processor.py:142 | an `HH:MM:SS` string reads back as its three fields |
| `AudioProcessor.LongClockFields` | audio_processor.py:142 | the colons and the three fields of `HH:MM:SS` stand where the parser reads them |
| `AudioProcessor.ShortClockOf` | audio_processor.py:144 | the short form of in-range fields has their shape and reads back as their value |
| `AudioProcessor.LongClockOf` | audio_processor.py:142 | the long form of in-range fields has their shape and reads back as their value |
| `AudioProcessor.ShortClock` | audio_processor.py:132-144 | under an hour the result is `MM:SS` with the minute and second fields |
| `AudioProcessor.LongClock` | audio_processor.py:132-144 | from an hour on the result is `HH:MM:SS` with the hour, minute and second fields |
| `AudioProcessor.FormatDurationFields` | audio_processor.py:132-144 | a positive duration renders as a clock whose fields are in range |
| `AudioProcessor.FormatDurationRoundTrip` | audio_processor.py:132-144 | parsing the rendering of any non-negative duration gives it back, `Unknown` reading as 0 |
| `AudioProcessor.GetVideoInfo` | audio_processor.py:65-104 | an invalid URL gives `Invalid YouTube URL`; an extraction error is passed through; a `None` duration fails with the comparison's `TypeError` text and a non-zero float duration with the format's `ValueError` text; an integer duration over 7200 s gives the too-long message; success iff the URL is valid, extraction succeeded and the usable duration (absent or float 0.0 reading as 0) is at most 7200 s; success carries the URL, that duration and its rendering, the chosen thumbnail and a description of at most 203 characters |
| `AudioProcessor.DownloadErrorMessage` | audio_processor.py:219-229 | the three recognised yt-dlp messages map to their explanations in priority order; any other message is kept |
| `AudioProcessor.DownloadAudio` | audio_processor.py:146-229 | a path is passed through on success; a failure carries the mapped message |
| `VectorDb.TitleSpaceIsBlank` | vector_db.py:33 | the only whitespace character a safe title may hold is the space |
| `VectorDb.SafeTitle` | vector_db.py:33 | only alphanumerics, space, `-` and `_`; no trailing space; a prefix of the filtered title followed only by spaces |
| `VectorDb.SafeTitleIdempotent` | vector_db.py:33 | making a title safe twice equals doing it once |
| `VectorDb.SafeTitleIgnoresRejected` | vector_db.py:33 | inserting a rejected character does not change the safe title |
| `VectorDb.SafeTitleIgnoresTrailingSpace` | vector_db.py:33 | appending a space does not change the safe title |
| `VectorDb.CollectionName` | vector_db.py:33-34 | `video_` followed by the decimal value of the safe title's hash modulo 1000000 |
| `VectorDb.SharedCollectionName` | vector_db.py:33-34 | titles differing by a rejected character or a trailing space get the same collection name |
| `VectorDb.ChunkIdInjective` | vector_db.py:64 | distinct chunk positions get distinct `chunk_i` ids |
| `VectorDb.KeptEntries` | vector_db.py:52-64 | at most one stored entry per chunk |
| `VectorDb.KeptEntriesSound` | vector_db.py:56-64 | every stored entry is the meaningful chunk at its index, with that index's id and the title and uploader as metadata; indices strictly increase |
| `VectorDb.KeptEntriesComplete` | vector_db.py:56-64 | a chunk is stored iff stripping it leaves more than ten characters |
| `VectorDb.KeptIdsUnique` | vector_db.py:56-64 | the stored ids are pairwise distinct |
| `VectorDb.KeptEmptyIff` | vector_db.py:56-66 | nothing is stored iff no chunk is meaningful |
| `VectorDb.Zip` | vector_db.py:67-71 | the three parallel lists pair into one entry per id |
| `VectorDb.ZipSnoc` | vector_db.py:58-64 | appending to the three lists appends one entry |
| `VectorDb.CollectChunks` | vector_db.py:52-64 | the loop builds parallel lists whose entries are exactly `KeptEntries` |
| `VectorDb.Ranked` | vector_db.py:94-97 | at most one hit per ranked position, each stored in the collection |
| `VectorDb.Take` | vector_db.py:96 | the first `n` elements, or all when fewer |
| `VectorDb.VectorDbManager.constructor` | vector_db.py:16-24 | the manager starts over the given store with no current collection |
| `VectorDb.VectorDbManager.IngestedStore` | vector_db.py:26-78 | with the model loaded, the store gains exactly the collection name; every other collection keeps its entries; without the model nothing changes |
| `VectorDb.VectorDbManager.IngestReplaces` | vector_db.py:37-73 | a successful ingest replaces the named collection with the kept chunks and leaves the other collections alone |
| `VectorDb.VectorDbManager.IngestSucceedsIff` | vector_db.py:29-73 | ingest succeeds iff the model is loaded, the text is not blank, some chunk is meaningful and the add does not raise |
| `VectorDb.VectorDbManager.BlankLeavesEmptyCollection` | vector_db.py:37-47 | a blank transcript leaves an empty collection under its name |
| `VectorDb.VectorDbManager.AddTranscript` | vector_db.py:26-78 | the store becomes `IngestedStore`; the name is returned and made current exactly on success |
| `VectorDb.VectorDbManager.Search` | vector_db.py:80-103 | a result iff a non-empty target name exists in the store and `n_results` is at least 1; one inner list of at most `n_results` hits, each a stored entry of that collection |
| `VectorDb.VectorDbManager.DeleteCollection` | vector_db.py:105-113 | true iff the collection existed; it is removed; the current collection is cleared only when it was the one deleted |
| `VectorDb.VectorDbManager.CleanupAllCollections` | vector_db.py:115-125 | the store becomes empty, no collection is current, and the result is true |
| `App.Evicted` | app.py:299-301 | a video is evicted iff the library already holds five, and it is the oldest |
| `App.Enroll` | app.py:292-304 | the new video is last, and a library of at most five stays at most five |
| `App.EnrollFifo` | app.py:298-304 | the new video is appended last; older videos keep their order; only the oldest is dropped, and only when full |
| `App.EnrollBounded` | app.py:298-304 | the library grows by one until it holds five and then stays at five |
| `App.EnrollAllKeepsMostRecent` | app.py:298-304 | after any number of additions the library is the five most recent videos, in order |
| `App.FirstIndex` | app.py:124 | the first position holding the video |
| `App.RemoveFirst` | app.py:124 | `list.remove` deletes exactly the first equal entry and keeps the rest in order |
| `App.RemoveFirstKeepsOthers` | app.py:124-126 | removing one video keeps every other video in the library |
| `App.Join` | app.py:339 | joining nothing gives the empty text; the result starts with the first part and ends with the last |
| `App.JoinContains` | app.py:339 | every joined document occurs in the context |
| `App.LlmContext` | app.py:337-339 | there is a context iff a search result exists whose document list is non-empty |
| `App.Reply` | app.py:330-342 | the canned reply when the search gives no result or no document list; otherwise the LLM's answer to the prompt over the top three documents joined by blank lines |
| `App.ContextHoldsTopHits` | app.py:337-339 | the context contains each of the top three documents |
| `App.RenderedHistory` | app.py:220 | the last min(20, n) turns, as a suffix of the history |
| `App.RenderedHistoryAppend` | app.py:220 | windowing before or after appending turns shows the same turns |
| `App.YouTubeRagChat.constructor` | app.py:16-39 | the session starts empty, not processing, with no current video or collection |
| `App.YouTubeRagChat.Rerun` | app.py:17-39 | a later run keeps the session and the persistent store, with a fresh manager that has no current collection |
| `App.YouTubeRagChat.ProcessVideo` | app.py:228-316 | keeps `Valid`; processing ends false; info is cached on success; a failed step changes nothing more; indexing changes the store as `AddTranscript` does; on full success the video is enrolled and current, its collection is current and the chat is cleared |
| `App.YouTubeRagChat.StoreProcessedVideo` | app.py:281-308 | the library becomes `Enroll`; the oldest video's collection is deleted when the library was full, including when that is the new video's own collection |
| `App.YouTubeRagChat.DeleteVideo` | app.py:116-128 | the video's collection is deleted; the first equal entry is removed; the current video and collection are cleared iff it was current; the manager's current collection is cleared iff it named the deleted, existing collection |
| `App.YouTubeRagChat.ClearChatHistory` | app.py:168-172 | the chat history becomes empty and nothing else changes |
| `App.YouTubeRagChat.HandleUserMessage` | app.py:318-351 | the user turn and then the reply are appended; the reply comes from the LLM over the top three hits of the current collection, or is the canned reply |
| `App.YouTubeRagChat.RenderedChatHistory` | app.py:220 | the chat view shows the last min(20, n) turns |
| `App.ReplyScopedToCollection` | app.py:332-340 | the LLM is consulted iff the named collection exists, and sees only that collection's documents |
| `App.EvictedOwnCollectionGivesCannedReply` | app.py:296-342 | when eviction removed the current collection, the next question gets the canned reply |
| `App.SharedCollectionIds` | app.py:292-304 | processing a title that differs from a library entry's only by a dropped character, while the library has room, leaves two entries with one collection id |

## Left out

- `AudioProcessor.GetBestAudioFormat`: Python's stable `sort` by descending `abr` is modelled by a scan for its head, the earliest element with the highest bitrate. The sorted list itself is not built.
- `str.isalnum` is modelled on ASCII letters and digits. Other Unicode alphanumerics are dropped from safe titles here. So titles that differ only in such characters share a collection name in the model, but not in Python.
- `str.strip` uses the characters for which Python's `str.isspace` holds. No Unicode normalisation or case folding is modelled.
- yt-dlp is not modelled. Extraction results (`RawInfo`) and download attempts are inputs.
- The download strategy loop of `download_audio` (lines 146-217) is left out. So are the file-existence checks, `download_audio_manual_format` and `get_available_formats`: they are network and filesystem I/O.
- `App.YouTubeRagChat.ProcessVideo` takes the info, audio and transcription step results as inputs. Those steps are `GetVideoInfo`, `DownloadAudio`, and `transcription.py`, which is not part of this model.
- `AudioProcessor.GetVideoInfo`: a float duration of 0.0 is stored as the integer 0 in `duration_seconds`. The two exception texts are the ones CPython prints; other values yt-dlp could put under `duration` (strings, booleans) are not modelled. Missing keys take their defaults.
- `local_llm.py` and `rag_engine.py` are not part of this model. The LLM is a function from prompt and context to text. It never raises, as `generate_response` returns its errors as text. So the "Sorry, I encountered an error" branch of `handle_user_message` is not modelled.
- The text splitter (`RecursiveCharacterTextSplitter` with chunk size 1000 and overlap 100), Python's salted string `hash` and the embedding similarity order are uninterpreted functions. Nothing is proved about chunk sizes, overlaps or relevance.
- The embedding model only gates `add_transcript`. Embeddings are not computed.
- Exceptions from Chroma are modelled where the code observes them:
  - a missing collection in `get_collection` and `delete_collection`;
  - `n_results` below 1;
  - a raising `collection.add`, as the `addRaises` input. The add is atomic: it stores everything or nothing.
- Errors inside `list_collections` and per-collection deletes during cleanup are not modelled. The model's cleanup always succeeds.
- The `video_title` parameter of `handle_user_message` is unused in the source and is dropped.
- Streamlit rendering is left out: layout, spinners, progress bars, `st.rerun`, widget keys, the sidebar preview, `main_interface`, `display_welcome` and `display_chat_interface` beyond its history window. So are `check_system_health` and `estimate_processing_time`.
- Concurrency between Streamlit sessions sharing one persistent store is not modelled.
