/** Model of audio_processor.py: the pure string helpers, the two format and
    thumbnail selectors, the gates of `get_video_info` and the error mapping of
    `download_audio`. yt-dlp itself is an input: what `extract_info` returned,
    or the message it raised. */
module AudioProcessor {
  import opened Wrappers
  import opened TextUtil
  import Decimal

  /** `MAX_VIDEO_LENGTH` in config.py: two hours, in seconds. */
  const MaxVideoLength: int := 7200
  const MaxFilenameLength: nat := 100
  const MaxDescriptionLength: nat := 200
  const NoDescription: string := "No description available"

  // ---------------------------------------------------------------------------
  // sanitize_filename

  /** The class `[<>:"/\\|?*]` of the regex in `sanitize_filename`. */
  predicate IsForbiddenInFilename(c: char) {
    c == '<' || c == '>' || c == ':' || c == '"' || c == '/' || c == '\\' || c == '|' || c == '?' || c == '*'
  }

  predicate IsCleanFilename(s: string) {
    forall i :: 0 <= i < |s| ==> !IsForbiddenInFilename(s[i])
  }

  predicate IsFilenameChar(c: char) {
    !IsForbiddenInFilename(c)
  }

  /** `re.sub(r'[<>:"/\\|?*]', '', s)`. */
  function RemoveForbidden(s: string): (r: string)
    ensures |r| <= |s| && IsCleanFilename(r)
  {
    Filter(IsFilenameChar, s)
  }

  /** `sanitize_filename(title)`: the forbidden characters removed, then `[:100]`. */
  function SanitizeFilename(title: string): (r: string)
    ensures |r| <= MaxFilenameLength && IsCleanFilename(r)
    ensures StartsWith(RemoveForbidden(title), r)
    ensures |r| == if |RemoveForbidden(title)| <= MaxFilenameLength then |RemoveForbidden(title)| else MaxFilenameLength
  {
    var kept := RemoveForbidden(title);
    if |kept| <= MaxFilenameLength then kept else kept[..MaxFilenameLength]
  }

  lemma SanitizeFilenameIdempotent(title: string)
    ensures SanitizeFilename(SanitizeFilename(title)) == SanitizeFilename(title)
  {
    FilterOfKept(IsFilenameChar, SanitizeFilename(title));
  }

  /** Deleting one forbidden character from the title does not change the result. */
  lemma SanitizeFilenameIgnoresForbidden(a: string, c: char, b: string)
    requires IsForbiddenInFilename(c)
    ensures SanitizeFilename(a + [c] + b) == SanitizeFilename(a + b)
  {
    FilterDropsRejected(IsFilenameChar, a, c, b);
  }

  /** A clean title is only cut to its first 100 characters. */
  lemma SanitizeFilenameOfClean(title: string)
    requires IsCleanFilename(title)
    ensures SanitizeFilename(title) == if |title| <= MaxFilenameLength then title else title[..MaxFilenameLength]
  {
    FilterOfKept(IsFilenameChar, title);
  }

  // ---------------------------------------------------------------------------
  // validate_youtube_url

  /** `literal[^stop]+` at the start of `s`: the literal, then at least one
      character other than `stop` (`re.match` anchors at the start only). */
  predicate LiteralThenNot(s: string, literal: string, stop: char) {
    StartsWith(s, literal) && |s| > |literal| && s[|literal|] != stop
  }

  /** `(www\.)?literal[^stop]+`. */
  predicate OptionalWww(s: string, literal: string, stop: char) {
    LiteralThenNot(s, literal, stop) || (StartsWith(s, "www.") && LiteralThenNot(s[4..], literal, stop))
  }

  /** What follows `^https?://`, when the url starts that way. */
  function AfterScheme(url: string): Option<string> {
    if StartsWith(url, "https://") then Some(url[8..])
    else if StartsWith(url, "http://") then Some(url[7..])
    else None
  }

  /** `validate_youtube_url`: one of the three patterns matches at the start. */
  predicate ValidateYoutubeUrl(url: string)
    ensures ValidateYoutubeUrl(url) ==> (StartsWith(url, "http://") || StartsWith(url, "https://")) && |url| > 16
  {
    match AfterScheme(url)
    case None => false
    case Some(rest) =>
      || OptionalWww(rest, "youtube.com/watch?v=", '&')
      || LiteralThenNot(rest, "youtu.be/", '?')
      || OptionalWww(rest, "youtube.com/embed/", '/')
  }

  const WatchPath: string := "youtube.com/watch?v="
  const ShortPath: string := "youtu.be/"
  const EmbedPath: string := "youtube.com/embed/"

  /** The ten url prefixes the three patterns accept, each with the character
      that may not come right after it. */
  const UrlForms: seq<(string, char)> := [
    ("http://" + WatchPath, '&'), ("http://" + ("www." + WatchPath), '&'),
    ("https://" + WatchPath, '&'), ("https://" + ("www." + WatchPath), '&'),
    ("http://" + ShortPath, '?'), ("https://" + ShortPath, '?'),
    ("http://" + EmbedPath, '/'), ("http://" + ("www." + EmbedPath), '/'),
    ("https://" + EmbedPath, '/'), ("https://" + ("www." + EmbedPath), '/')
  ]

  predicate MatchesForm(url: string, k: nat)
    requires k < |UrlForms|
  {
    LiteralThenNot(url, UrlForms[k].0, UrlForms[k].1)
  }

  lemma LiteralThenNotAfter(url: string, prefix: string, literal: string, stop: char)
    ensures LiteralThenNot(url, prefix + literal, stop) <==>
            StartsWith(url, prefix) && LiteralThenNot(url[|prefix|..], literal, stop)
  {
    if StartsWith(url, prefix) && LiteralThenNot(url[|prefix|..], literal, stop) {
      assert url[..|prefix + literal|] == url[..|prefix|] + url[|prefix|..][..|literal|];
    }
    if LiteralThenNot(url, prefix + literal, stop) {
      assert url[..|prefix|] == (prefix + literal)[..|prefix|];
      assert url[|prefix|..][..|literal|] == url[..|prefix + literal|][|prefix|..];
    }
  }

  lemma OptionalWwwForms(s: string, literal: string, stop: char)
    ensures OptionalWww(s, literal, stop) <==>
            LiteralThenNot(s, literal, stop) || LiteralThenNot(s, "www." + literal, stop)
  {
    LiteralThenNotAfter(s, "www.", literal, stop);
  }

  lemma SchemeForms(url: string, tail: string, stop: char)
    ensures (AfterScheme(url).Some? && LiteralThenNot(AfterScheme(url).value, tail, stop)) <==>
            LiteralThenNot(url, "http://" + tail, stop) || LiteralThenNot(url, "https://" + tail, stop)
  {
    LiteralThenNotAfter(url, "http://", tail, stop);
    LiteralThenNotAfter(url, "https://", tail, stop);
    if StartsWith(url, "https://") {
      assert url[4] == 's';
      assert !StartsWith(url, "http://");
    }
  }

  lemma ValidateYoutubeUrlCases(url: string)
    ensures ValidateYoutubeUrl(url) <==>
      || MatchesForm(url, 0) || MatchesForm(url, 1) || MatchesForm(url, 2) || MatchesForm(url, 3)
      || MatchesForm(url, 4) || MatchesForm(url, 5)
      || MatchesForm(url, 6) || MatchesForm(url, 7) || MatchesForm(url, 8) || MatchesForm(url, 9)
  {
    SchemeForms(url, WatchPath, '&');
    SchemeForms(url, "www." + WatchPath, '&');
    SchemeForms(url, ShortPath, '?');
    SchemeForms(url, EmbedPath, '/');
    SchemeForms(url, "www." + EmbedPath, '/');
    if AfterScheme(url).Some? {
      OptionalWwwForms(AfterScheme(url).value, WatchPath, '&');
      OptionalWwwForms(AfterScheme(url).value, EmbedPath, '/');
    }
  }

  /** The patterns, read as the table of accepted prefixes. */
  lemma ValidateYoutubeUrlForms(url: string)
    ensures ValidateYoutubeUrl(url) <==> exists k :: 0 <= k < |UrlForms| && MatchesForm(url, k)
  {
    ValidateYoutubeUrlCases(url);
    if exists k :: 0 <= k < |UrlForms| && MatchesForm(url, k) {
      var k :| 0 <= k < |UrlForms| && MatchesForm(url, k);
      assert k in {0, 1, 2, 3, 4, 5, 6, 7, 8, 9};
    }
  }

  // ---------------------------------------------------------------------------
  // get_best_audio_format

  /** One entry of yt-dlp's `formats` list; an absent key is `None`. */
  datatype Format = Format(formatId: string, vcodec: Option<string>, acodec: Option<string>, abr: Option<real>)

  /** `fmt.get('vcodec') == 'none' and fmt.get('acodec') != 'none'`. */
  predicate IsAudioOnly(f: Format) {
    f.vcodec == Some("none") && f.acodec != Some("none")
  }

  /** `fmt.get('acodec') != 'none'`: an absent codec counts as audio. */
  predicate HasAudio(f: Format) {
    f.acodec != Some("none")
  }

  /** The sort key `x.get('abr', 0) or 0`. */
  function Bitrate(f: Format): real {
    f.abr.GetOr(0.0)
  }

  /** `sub` lists, in increasing order of their indices `origin`, exactly the
      audio-only formats of `formats[..n]`. */
  ghost predicate AudioOnlyPrefix(formats: seq<Format>, n: nat, sub: seq<Format>, origin: seq<nat>)
    requires n <= |formats|
  {
    && |origin| == |sub|
    && (forall m :: 0 <= m < |origin| ==> origin[m] < n && sub[m] == formats[origin[m]])
    && (forall m :: 0 <= m < |origin| ==> IsAudioOnly(formats[origin[m]]))
    && (forall m, m' :: 0 <= m < m' < |origin| ==> origin[m] < origin[m'])
    && (forall j :: 0 <= j < n && IsAudioOnly(formats[j]) ==> j in origin)
  }

  /** The earliest element of the largest bitrate in `sub` is the earliest
      audio-only format of the largest bitrate in `formats`. */
  lemma EarliestBestCarriesOver(formats: seq<Format>, sub: seq<Format>, origin: seq<nat>, best: nat)
    requires AudioOnlyPrefix(formats, |formats|, sub, origin)
    requires best < |sub|
    requires forall n :: 0 <= n < |sub| ==> Bitrate(sub[n]) <= Bitrate(sub[best])
    requires forall n :: 0 <= n < best ==> Bitrate(sub[n]) < Bitrate(sub[best])
    ensures var k := origin[best];
      && k < |formats| && IsAudioOnly(formats[k]) && sub[best] == formats[k]
      && (forall j :: 0 <= j < |formats| && IsAudioOnly(formats[j]) ==> Bitrate(formats[j]) <= Bitrate(formats[k]))
      && (forall j :: 0 <= j < k && IsAudioOnly(formats[j]) ==> Bitrate(formats[j]) < Bitrate(formats[k]))
  {
    var k := origin[best];
    forall j | 0 <= j < |formats| && IsAudioOnly(formats[j])
      ensures Bitrate(formats[j]) <= Bitrate(formats[k])
      ensures j < k ==> Bitrate(formats[j]) < Bitrate(formats[k])
    {
      var m :| 0 <= m < |origin| && origin[m] == j;
      if j < k {
        assert m < best;
      }
    }
  }

  /** The first loop of `get_best_audio_format`: the audio-only formats, in
      order; `origin` says where each came from. */
  method CollectAudioOnly(formats: seq<Format>) returns (audioFormats: seq<Format>, ghost origin: seq<nat>)
    ensures AudioOnlyPrefix(formats, |formats|, audioFormats, origin)
    ensures |audioFormats| <= |formats|
    ensures forall m :: 0 <= m < |audioFormats| ==> IsAudioOnly(audioFormats[m]) && audioFormats[m] in formats
  {
    audioFormats, origin := [], [];
    for i := 0 to |formats|
      invariant AudioOnlyPrefix(formats, i, audioFormats, origin)
      invariant |audioFormats| <= i
    {
      if IsAudioOnly(formats[i]) {
        audioFormats := audioFormats + [formats[i]];
        origin := origin + [i];
      }
    }
  }

  /** The head of `audio_formats.sort(key=abr, reverse=True)`: the sort is
      stable, so among equal bitrates the earliest stays in front. */
  method HighestBitrate(audioFormats: seq<Format>) returns (best: nat)
    requires |audioFormats| > 0
    ensures best < |audioFormats|
    ensures forall n :: 0 <= n < |audioFormats| ==> Bitrate(audioFormats[n]) <= Bitrate(audioFormats[best])
    ensures forall n :: 0 <= n < best ==> Bitrate(audioFormats[n]) < Bitrate(audioFormats[best])
  {
    best := 0;
    for m := 1 to |audioFormats|
      invariant best < m
      invariant forall n :: 0 <= n < m ==> Bitrate(audioFormats[n]) <= Bitrate(audioFormats[best])
      invariant forall n :: 0 <= n < best ==> Bitrate(audioFormats[n]) < Bitrate(audioFormats[best])
    {
      if Bitrate(audioFormats[m]) > Bitrate(audioFormats[best]) {
        best := m;
      }
    }
  }

  /** The fallback loop: the first format with audio. */
  method FirstWithAudio(formats: seq<Format>) returns (r: Option<string>)
    ensures (exists i :: 0 <= i < |formats| && HasAudio(formats[i])) ==>
      exists k :: 0 <= k < |formats| && HasAudio(formats[k]) && r == Some(formats[k].formatId)
        && (forall j :: 0 <= j < k ==> !HasAudio(formats[j]))
    ensures (forall i :: 0 <= i < |formats| ==> !HasAudio(formats[i])) ==> r == None
  {
    for i := 0 to |formats|
      invariant forall j :: 0 <= j < i ==> !HasAudio(formats[j])
    {
      if HasAudio(formats[i]) {
        return Some(formats[i].formatId);
      }
    }
    return None;
  }

  /** `get_best_audio_format`: the audio-only format the stable descending sort
      by bitrate puts first (the earliest of the largest bitrate); failing that,
      the first format with audio; failing that, None. */
  method GetBestAudioFormat(formats: seq<Format>) returns (r: Option<string>)
    ensures (exists i :: 0 <= i < |formats| && IsAudioOnly(formats[i])) ==>
      exists k :: 0 <= k < |formats| && IsAudioOnly(formats[k]) && r == Some(formats[k].formatId)
        && (forall j :: 0 <= j < |formats| && IsAudioOnly(formats[j]) ==> Bitrate(formats[j]) <= Bitrate(formats[k]))
        && (forall j :: 0 <= j < k && IsAudioOnly(formats[j]) ==> Bitrate(formats[j]) < Bitrate(formats[k]))
    ensures (forall i :: 0 <= i < |formats| ==> !IsAudioOnly(formats[i])) && (exists i :: 0 <= i < |formats| && HasAudio(formats[i])) ==>
      exists k :: 0 <= k < |formats| && HasAudio(formats[k]) && r == Some(formats[k].formatId)
        && (forall j :: 0 <= j < k ==> !HasAudio(formats[j]))
    ensures (forall i :: 0 <= i < |formats| ==> !HasAudio(formats[i])) ==> r == None
  {
    var audioFormats, origin := CollectAudioOnly(formats);
    if |audioFormats| > 0 {
      var best := HighestBitrate(audioFormats);
      EarliestBestCarriesOver(formats, audioFormats, origin, best);
      return Some(audioFormats[best].formatId);
    }
    assert forall i :: 0 <= i < |formats| ==> !IsAudioOnly(formats[i]);
    r := FirstWithAudio(formats);
  }

  // ---------------------------------------------------------------------------
  // get_best_thumbnail

  datatype Thumbnail = Thumbnail(id: Option<string>, url: string)

  /** The quality ids `get_best_thumbnail` tries, best first. */
  const ThumbnailQualities: seq<string> := ["maxresdefault", "sddefault", "hqdefault", "mqdefault", "default"]

  /** The url of the first thumbnail whose id is `quality`. */
  function FirstWithId(thumbs: seq<Thumbnail>, quality: string): Option<string> {
    if thumbs == [] then None
    else if thumbs[0].id == Some(quality) then Some(thumbs[0].url)
    else FirstWithId(thumbs[1..], quality)
  }

  /** The search finds something exactly when some thumbnail has the id, and
      then it is the url of the first such thumbnail. */
  lemma {:induction false} FirstWithIdChoice(thumbs: seq<Thumbnail>, quality: string)
    ensures FirstWithId(thumbs, quality).Some? <==> exists t :: 0 <= t < |thumbs| && thumbs[t].id == Some(quality)
    ensures FirstWithId(thumbs, quality).Some? ==>
      exists t :: 0 <= t < |thumbs| && thumbs[t].id == Some(quality) && FirstWithId(thumbs, quality).value == thumbs[t].url
                  && forall u :: 0 <= u < t ==> thumbs[u].id != Some(quality)
  {
    if thumbs != [] && thumbs[0].id != Some(quality) {
      var rest := thumbs[1..];
      FirstWithIdChoice(rest, quality);
      var r := FirstWithId(thumbs, quality);
      assert r == FirstWithId(rest, quality);
      if r.Some? {
        var t :| 0 <= t < |rest| && rest[t].id == Some(quality) && r.value == rest[t].url
                 && forall u :: 0 <= u < t ==> rest[u].id != Some(quality);
        assert thumbs[t + 1] == rest[t];
        assert forall u :: 1 <= u < t + 1 ==> thumbs[u] == rest[u - 1];
      }
      if exists t :: 0 <= t < |thumbs| && thumbs[t].id == Some(quality) {
        var t :| 0 <= t < |thumbs| && thumbs[t].id == Some(quality);
        assert rest[t - 1] == thumbs[t];
      }
    }
  }

  /** The first quality, in the order given, that some thumbnail carries. */
  function ByPriority(qualities: seq<string>, thumbs: seq<Thumbnail>): Option<string> {
    if qualities == [] then None
    else if FirstWithId(thumbs, qualities[0]).Some? then FirstWithId(thumbs, qualities[0])
    else ByPriority(qualities[1..], thumbs)
  }

  /** The priority search finds something exactly when some quality is
      carried, and then it is the first thumbnail of the best carried quality. */
  lemma {:induction false} ByPriorityChoice(qualities: seq<string>, thumbs: seq<Thumbnail>)
    ensures ByPriority(qualities, thumbs).Some? <==> exists p :: 0 <= p < |qualities| && FirstWithId(thumbs, qualities[p]).Some?
    ensures ByPriority(qualities, thumbs).Some? ==>
      exists p :: 0 <= p < |qualities| && ByPriority(qualities, thumbs) == FirstWithId(thumbs, qualities[p])
                  && forall q :: 0 <= q < p ==> FirstWithId(thumbs, qualities[q]).None?
  {
    if qualities != [] && FirstWithId(thumbs, qualities[0]).None? {
      var rest := qualities[1..];
      ByPriorityChoice(rest, thumbs);
      var r := ByPriority(qualities, thumbs);
      assert r == ByPriority(rest, thumbs);
      if r.Some? {
        var p :| 0 <= p < |rest| && r == FirstWithId(thumbs, rest[p])
                 && forall q :: 0 <= q < p ==> FirstWithId(thumbs, rest[q]).None?;
        assert qualities[p + 1] == rest[p];
        assert forall q :: 1 <= q < p + 1 ==> qualities[q] == rest[q - 1];
      }
      if exists p :: 0 <= p < |qualities| && FirstWithId(thumbs, qualities[p]).Some? {
        var p :| 0 <= p < |qualities| && FirstWithId(thumbs, qualities[p]).Some?;
        assert rest[p - 1] == qualities[p];
      }
    }
  }

  /** The url `get_best_thumbnail` falls back to. */
  function StandardThumbnailUrl(videoId: string): string {
    "https://img.youtube.com/vi/" + videoId + "/maxresdefault.jpg"
  }

  /** What `get_best_thumbnail` returns for `info['thumbnails']` (absent: [])
      and `info.get('id')`. */
  function BestThumbnail(thumbs: seq<Thumbnail>, videoId: Option<string>): (r: Option<string>)
    ensures ByPriority(ThumbnailQualities, thumbs).Some? ==> r == ByPriority(ThumbnailQualities, thumbs)
    ensures ByPriority(ThumbnailQualities, thumbs).None? && videoId.Some? && videoId.value != "" ==>
              r == Some(StandardThumbnailUrl(videoId.value))
    ensures ByPriority(ThumbnailQualities, thumbs).None? && (videoId.None? || videoId.value == "") ==> r == None
  {
    ByPriorityChoice(ThumbnailQualities, thumbs);
    var chosen := if thumbs != [] then ByPriority(ThumbnailQualities, thumbs) else None;
    if chosen.Some? then chosen
    else if videoId.Some? && videoId.value != "" then Some(StandardThumbnailUrl(videoId.value))
    else None
  }

  lemma FirstWithIdAt(thumbs: seq<Thumbnail>, quality: string, t: nat)
    requires t < |thumbs| && thumbs[t].id == Some(quality)
    requires forall u :: 0 <= u < t ==> thumbs[u].id != Some(quality)
    ensures FirstWithId(thumbs, quality) == Some(thumbs[t].url)
  {
    FirstWithIdChoice(thumbs, quality);
    var r := FirstWithId(thumbs, quality);
    var t' :| 0 <= t' < |thumbs| && thumbs[t'].id == Some(quality) && r.value == thumbs[t'].url
              && forall u :: 0 <= u < t' ==> thumbs[u].id != Some(quality);
    assert t' == t;
  }

  lemma ByPriorityAt(qualities: seq<string>, thumbs: seq<Thumbnail>, p: nat)
    requires p < |qualities| && FirstWithId(thumbs, qualities[p]).Some?
    requires forall q :: 0 <= q < p ==> FirstWithId(thumbs, qualities[q]).None?
    ensures ByPriority(qualities, thumbs) == FirstWithId(thumbs, qualities[p])
  {
    ByPriorityChoice(qualities, thumbs);
    var r := ByPriority(qualities, thumbs);
    var p' :| 0 <= p' < |qualities| && r == FirstWithId(thumbs, qualities[p'])
              && forall q :: 0 <= q < p' ==> FirstWithId(thumbs, qualities[q]).None?;
    assert p' == p;
  }

  /** `get_best_thumbnail`, with its nested loops and early returns. */
  method GetBestThumbnail(thumbs: seq<Thumbnail>, videoId: Option<string>) returns (r: Option<string>)
    ensures r == BestThumbnail(thumbs, videoId)
  {
    if thumbs != [] {
      for p := 0 to |ThumbnailQualities|
        invariant forall q :: 0 <= q < p ==> FirstWithId(thumbs, ThumbnailQualities[q]).None?
      {
        var quality := ThumbnailQualities[p];
        for t := 0 to |thumbs|
          invariant forall u :: 0 <= u < t ==> thumbs[u].id != Some(quality)
        {
          if thumbs[t].id == Some(quality) {
            FirstWithIdAt(thumbs, quality, t);
            ByPriorityAt(ThumbnailQualities, thumbs, p);
            return Some(thumbs[t].url);
          }
        }
        FirstWithIdChoice(thumbs, quality);
      }
    }
    ByPriorityChoice(ThumbnailQualities, thumbs);
    if videoId.Some? && videoId.value != "" {
      return Some(StandardThumbnailUrl(videoId.value));
    }
    return None;
  }

  // ---------------------------------------------------------------------------
  // truncate_description

  /** `truncate_description(description)` with the default `max_length=200`. */
  function TruncateDescription(description: string): (r: string)
    ensures description == [] ==> r == NoDescription
    ensures 0 < |description| <= MaxDescriptionLength ==> r == description
    ensures |description| > MaxDescriptionLength ==>
              |r| == MaxDescriptionLength + 3 && StartsWith(description, r[..MaxDescriptionLength]) && r[MaxDescriptionLength..] == "..."
    ensures |r| <= MaxDescriptionLength + 3
  {
    if description == [] then NoDescription
    else if |description| <= MaxDescriptionLength then description
    else description[..MaxDescriptionLength] + "..."
  }

  lemma TruncateDescriptionIdempotent(description: string)
    ensures TruncateDescription(TruncateDescription(description)) == TruncateDescription(description)
  {
    var r := TruncateDescription(description);
    if |description| > MaxDescriptionLength {
      assert r[..MaxDescriptionLength] + "..." == r;
    }
  }

  // ---------------------------------------------------------------------------
  // format_duration

  /** `f"{n:02d}"` for n >= 0. */
  function Pad2(n: nat): (s: string)
    ensures Decimal.AllDigits(s) && Decimal.Value(s) == n
    ensures n < 100 ==> |s| == 2
    ensures |s| >= 2
    ensures n >= 10 ==> s == Decimal.FromNat(n)
    ensures n < 10 ==> s[0] == '0'
  {
    Decimal.ValueOfFromNat(n);
    if n < 10 then
      Decimal.ValueLeadingZero(Decimal.FromNat(n));
      "0" + Decimal.FromNat(n)
    else
      Decimal.FromNatTwoDigits(n);
      Decimal.FromNat(n)
  }

  /** `format_duration(seconds)`. Python's `//` and `%` with a positive divisor
      round toward minus infinity, as Dafny's do. */
  function FormatDuration(seconds: int): (r: string)
    ensures r == "Unknown" <==> seconds == 0
    ensures seconds != 0 ==> |r| >= 5 && r[|r| - 3] == ':'
  {
    if seconds == 0 then "Unknown"
    else
      var hours := seconds / 3600;
      var minutes := (seconds % 3600) / 60;
      var secs := seconds % 60;
      if hours > 0 then Pad2(hours) + ":" + Pad2(minutes) + ":" + Pad2(secs)
      else Pad2(minutes) + ":" + Pad2(secs)
  }

  /** Reads back "MM:SS", "H..H:MM:SS" and "Unknown" (which is 0). */
  function ParseDuration(s: string): (r: Option<int>)
    ensures r.Some? ==> r.value >= 0
    ensures s != "Unknown" && |s| < 5 ==> r == None
  {
    if s == "Unknown" then Some(0)
    else if |s| >= 5 && s[|s| - 3] == ':' && Decimal.AllDigits(s[|s| - 5..|s| - 3]) && Decimal.AllDigits(s[|s| - 2..]) then
      var mmss := 60 * Decimal.Value(s[|s| - 5..|s| - 3]) + Decimal.Value(s[|s| - 2..]);
      if |s| == 5 then Some(mmss)
      else if |s| >= 7 && s[|s| - 6] == ':' && Decimal.AllDigits(s[..|s| - 6]) then
        Some(3600 * Decimal.Value(s[..|s| - 6]) + mmss)
      else None
    else None
  }

  /** "MM:SS" reads back as 60 * MM + SS. */
  lemma ParseMinutesSeconds(mm: string, ss: string)
    requires |mm| == 2 && |ss| == 2 && Decimal.AllDigits(mm) && Decimal.AllDigits(ss)
    ensures var r := mm + ":" + ss;
      && r[|r| - 5..|r| - 3] == mm && r[|r| - 2..] == ss
      && ParseDuration(r) == Some(60 * Decimal.Value(mm) + Decimal.Value(ss))
  {
    var r := mm + ":" + ss;
    assert r[|r| - 5..|r| - 3] == mm && r[|r| - 2..] == ss;
    assert |r| == 5 && r[2] == ':';
    assert r != "Unknown";
  }

  lemma ParseLongClock(r: string)
    requires |r| >= 8 && r[|r| - 6] == ':' && r[|r| - 3] == ':'
    requires Decimal.AllDigits(r[..|r| - 6]) && Decimal.AllDigits(r[|r| - 5..|r| - 3]) && Decimal.AllDigits(r[|r| - 2..])
    ensures ParseDuration(r) == Some(3600 * Decimal.Value(r[..|r| - 6]) + 60 * Decimal.Value(r[|r| - 5..|r| - 3]) + Decimal.Value(r[|r| - 2..]))
  {
    assert |r| != |"Unknown"|;
  }

  /** Where the fields of "H..H:MM:SS" stand. */
  lemma LongClockFields(hh: string, mm: string, ss: string)
    requires |hh| >= 2 && |mm| == 2 && |ss| == 2
    requires Decimal.AllDigits(hh) && Decimal.AllDigits(mm) && Decimal.AllDigits(ss)
    ensures var r := hh + ":" + mm + ":" + ss;
      && |r| >= 8 && r[|r| - 3] == ':' && r[|r| - 6] == ':'
      && r[|r| - 5..|r| - 3] == mm && r[|r| - 2..] == ss && r[..|r| - 6] == hh
  {
    var tail := ":" + mm + ":" + ss;
    assert tail[1..3] == mm && tail[4..] == ss && tail[0] == ':' && tail[3] == ':';
    var r := hh + ":" + mm + ":" + ss;
    assert r == hh + tail;
    var n := |r|;
    assert r[..n - 6] == hh;
    assert r[n - 6..] == tail;
    assert r[n - 5..n - 3] == tail[1..3];
    assert r[n - 2..] == tail[4..];
  }

  lemma ClockDecomposition(seconds: int)
    requires seconds > 0
    ensures seconds == 3600 * (seconds / 3600) + 60 * ((seconds % 3600) / 60) + seconds % 60
    ensures 0 <= (seconds % 3600) / 60 < 60 && 0 <= seconds % 60 < 60
    ensures seconds / 3600 > 0 <==> seconds >= 3600
  {
    var h, rem := seconds / 3600, seconds % 3600;
    assert seconds == 3600 * h + rem;
    assert rem == 60 * (rem / 60) + rem % 60;
    assert rem % 60 == seconds % 60;
  }

  /** "MM:SS" built from minutes and seconds below 60. */
  lemma ShortClockOf(m: nat, sec: nat)
    requires m < 60 && sec < 60
    ensures var r := Pad2(m) + ":" + Pad2(sec);
      && |r| == 5 && r[2] == ':'
      && Decimal.AllDigits(r[..2]) && Decimal.Value(r[..2]) == m
      && Decimal.AllDigits(r[3..]) && Decimal.Value(r[3..]) == sec
      && ParseDuration(r) == Some(60 * m + sec)
  {
    var mm, ss := Pad2(m), Pad2(sec);
    ParseMinutesSeconds(mm, ss);
    var r := mm + ":" + ss;
    assert r[..2] == mm && r[3..] == ss;
  }

  /** "H..H:MM:SS" built from at least one hour and minutes and seconds below 60. */
  lemma LongClockOf(h: nat, m: nat, sec: nat)
    requires h >= 1 && m < 60 && sec < 60
    ensures var r := Pad2(h) + ":" + Pad2(m) + ":" + Pad2(sec);
      && |r| >= 8 && r[|r| - 6] == ':' && r[|r| - 3] == ':'
      && Decimal.AllDigits(r[..|r| - 6]) && Decimal.Value(r[..|r| - 6]) == h
      && Decimal.AllDigits(r[|r| - 5..|r| - 3]) && Decimal.Value(r[|r| - 5..|r| - 3]) == m
      && Decimal.AllDigits(r[|r| - 2..]) && Decimal.Value(r[|r| - 2..]) == sec
      && ParseDuration(r) == Some(3600 * h + 60 * m + sec)
  {
    var hh, mm, ss := Pad2(h), Pad2(m), Pad2(sec);
    LongClockFields(hh, mm, ss);
    ParseLongClock(hh + ":" + mm + ":" + ss);
  }

  /** Under an hour: "MM:SS". */
  lemma ShortClock(seconds: int)
    requires 0 < seconds < 3600
    ensures var r := FormatDuration(seconds);
      && |r| == 5 && r[2] == ':'
      && Decimal.AllDigits(r[..2]) && Decimal.Value(r[..2]) == seconds / 60
      && Decimal.AllDigits(r[3..]) && Decimal.Value(r[3..]) == seconds % 60
      && ParseDuration(r) == Some(seconds)
  {
    ClockDecomposition(seconds);
    var m, sec := (seconds % 3600) / 60, seconds % 60;
    assert 60 * m + sec == seconds && m == seconds / 60;
    assert FormatDuration(seconds) == Pad2(m) + ":" + Pad2(sec);
    ShortClockOf(m, sec);
  }

  /** From an hour on: "H..H:MM:SS" with at least two hour digits. */
  lemma LongClock(seconds: int)
    requires seconds >= 3600
    ensures var r := FormatDuration(seconds);
      && |r| >= 8 && r[|r| - 6] == ':' && r[|r| - 3] == ':'
      && Decimal.AllDigits(r[..|r| - 6]) && Decimal.Value(r[..|r| - 6]) == seconds / 3600
      && Decimal.AllDigits(r[|r| - 5..|r| - 3]) && Decimal.Value(r[|r| - 5..|r| - 3]) == (seconds % 3600) / 60
      && Decimal.AllDigits(r[|r| - 2..]) && Decimal.Value(r[|r| - 2..]) == seconds % 60
      && ParseDuration(r) == Some(seconds)
  {
    ClockDecomposition(seconds);
    var h, m, sec := seconds / 3600, (seconds % 3600) / 60, seconds % 60;
    assert 3600 * h + 60 * m + sec == seconds;
    assert FormatDuration(seconds) == Pad2(h) + ":" + Pad2(m) + ":" + Pad2(sec);
    LongClockOf(h, m, sec);
  }

  /** A positive duration prints as "MM:SS" below an hour and as "H..H:MM:SS"
      from an hour on; minutes and seconds are below 60, and reading the fields
      back gives the input. */
  lemma FormatDurationFields(seconds: int)
    requires seconds > 0
    ensures var r := FormatDuration(seconds);
      && (seconds < 3600 ==> |r| == 5 && r[2] == ':' && Decimal.AllDigits(r[..2]) && Decimal.AllDigits(r[3..])
                             && Decimal.Value(r[..2]) < 60 && Decimal.Value(r[3..]) < 60)
      && (seconds >= 3600 ==> |r| >= 8 && r[|r| - 6] == ':' && r[|r| - 3] == ':'
                              && Decimal.AllDigits(r[..|r| - 6]) && Decimal.Value(r[..|r| - 6]) >= 1
                              && Decimal.AllDigits(r[|r| - 5..|r| - 3]) && Decimal.Value(r[|r| - 5..|r| - 3]) < 60
                              && Decimal.AllDigits(r[|r| - 2..]) && Decimal.Value(r[|r| - 2..]) < 60)
  {
    ClockDecomposition(seconds);
    if seconds < 3600 {
      ShortClock(seconds);
    } else {
      LongClock(seconds);
    }
  }

  lemma FormatDurationRoundTrip(seconds: int)
    requires seconds >= 0
    ensures ParseDuration(FormatDuration(seconds)) == Some(seconds)
  {
    if 0 < seconds < 3600 {
      ShortClock(seconds);
    } else if seconds >= 3600 {
      LongClock(seconds);
    }
  }

  // ---------------------------------------------------------------------------
  // get_video_info

  /** The value yt-dlp gives for `duration`: an integer, a float, or `None`. */
  datatype Duration = Whole(seconds: int) | Fractional(value: real) | Null

  /** What yt-dlp's `extract_info(url, download=False)` returned; an absent key is `None`. */
  datatype RawInfo = RawInfo(
    title: Option<string>, uploader: Option<string>, duration: Option<Duration>,
    thumbnails: seq<Thumbnail>, viewCount: Option<int>, uploadDate: Option<string>,
    description: Option<string>, id: Option<string>)

  /** The success dictionary of `get_video_info`. */
  datatype VideoInfo = VideoInfo(
    title: string, uploader: string, duration: string, durationSeconds: int,
    thumbnailUrl: Option<string>, viewCount: int, uploadDate: string,
    description: string, videoId: string, url: string)

  /** `str(e)` of the `TypeError` raised by `None > MAX_VIDEO_LENGTH`. */
  const NoneComparisonError: string := "'>' not supported between instances of 'NoneType' and 'int'"
  /** `str(e)` of the `ValueError` raised by `f"{x:02d}"` on a float. */
  const FloatFormatError: string := "Unknown format code 'd' for object of type 'float'"

  /** The whole number of seconds a duration value stands for, when
      `get_video_info` can use it: an absent key reads as 0, and a float
      survives only as 0.0, which `format_duration` answers with "Unknown"
      before formatting anything. */
  function UsableSeconds(d: Option<Duration>): Option<int> {
    match d
    case None => Some(0)
    case Some(Whole(n)) => Some(n)
    case Some(Fractional(x)) => if x == 0.0 then Some(0) else None
    case Some(Null) => None
  }

  /** The error `get_video_info` reports for a duration it cannot use. */
  function DurationError(d: Option<Duration>): string {
    if d == Some(Null) then NoneComparisonError else FloatFormatError
  }

  function TooLongMessage(duration: int): string {
    "Video too long (" + FormatDuration(duration) + "). Max allowed: " + FormatDuration(MaxVideoLength)
  }

  /** `get_video_info(url)`, given what the extraction returned or raised. The
      url is checked before the extraction result is looked at. */
  function GetVideoInfo(url: string, extracted: Result<RawInfo, string>): (r: Result<VideoInfo, string>)
    ensures !ValidateYoutubeUrl(url) ==> r == Failure("Invalid YouTube URL")
    ensures ValidateYoutubeUrl(url) && extracted.Failure? ==> r == Failure(extracted.error)
    ensures r.Success? <==>
      && ValidateYoutubeUrl(url) && extracted.Success?
      && UsableSeconds(extracted.value.duration).Some?
      && UsableSeconds(extracted.value.duration).value <= MaxVideoLength
    ensures ValidateYoutubeUrl(url) && extracted.Success? && extracted.value.duration == Some(Null) ==>
      r == Failure(NoneComparisonError)
    ensures (ValidateYoutubeUrl(url) && extracted.Success? && extracted.value.duration.Some?
             && extracted.value.duration.value.Fractional? && extracted.value.duration.value.value != 0.0) ==>
      r == Failure(FloatFormatError)
    ensures (ValidateYoutubeUrl(url) && extracted.Success? && UsableSeconds(extracted.value.duration).Some?
             && UsableSeconds(extracted.value.duration).value > MaxVideoLength) ==>
      r == Failure(TooLongMessage(UsableSeconds(extracted.value.duration).value))
    ensures r.Success? ==>
      && r.value.url == url
      && r.value.durationSeconds == UsableSeconds(extracted.value.duration).value
      && r.value.duration == FormatDuration(r.value.durationSeconds)
      && r.value.thumbnailUrl == BestThumbnail(extracted.value.thumbnails, extracted.value.id)
      && |r.value.description| <= MaxDescriptionLength + 3
  {
    if !ValidateYoutubeUrl(url) then Failure("Invalid YouTube URL")
    else match extracted
      case Failure(e) => Failure(e)
      case Success(info) =>
        match UsableSeconds(info.duration)
        case None => Failure(DurationError(info.duration))
        case Some(duration) =>
          if duration > MaxVideoLength then Failure(TooLongMessage(duration))
          else Success(VideoInfo(
            info.title.GetOr("Unknown Title"),
            info.uploader.GetOr("Unknown Uploader"),
            FormatDuration(duration),
            duration,
            BestThumbnail(info.thumbnails, info.id),
            info.viewCount.GetOr(0),
            info.uploadDate.GetOr(""),
            TruncateDescription(info.description.GetOr("")),
            info.id.GetOr(""),
            url))
  }

  // ---------------------------------------------------------------------------
  // download_audio

  const FormatUnavailableMarker: string := "Requested format is not available"
  const PrivateMarker: string := "Private video"
  const UnavailableMarker: string := "This video is not available"
  const FormatUnavailableText: string :=
    "The requested audio format is not available for this video. The video might be age-restricted, region-restricted, or live stream."
  const PrivateText: string := "This video is private and cannot be downloaded."
  const UnavailableText: string := "This video is not available. It may have been removed or made private."

  /** The message rewriting in `download_audio`'s outer `except`. */
  function DownloadErrorMessage(message: string): (r: string)
    ensures Contains(message, FormatUnavailableMarker) ==> r == FormatUnavailableText
    ensures !Contains(message, FormatUnavailableMarker) && Contains(message, PrivateMarker) ==> r == PrivateText
    ensures (!Contains(message, FormatUnavailableMarker) && !Contains(message, PrivateMarker)
             && Contains(message, UnavailableMarker)) ==> r == UnavailableText
    ensures (!Contains(message, FormatUnavailableMarker) && !Contains(message, PrivateMarker)
             && !Contains(message, UnavailableMarker)) ==> r == message
  {
    if Contains(message, FormatUnavailableMarker) then FormatUnavailableText
    else if Contains(message, PrivateMarker) then PrivateText
    else if Contains(message, UnavailableMarker) then UnavailableText
    else message
  }

  /** `download_audio(url)`, given the audio path the download produced or the
      message of the exception it ended with. */
  function DownloadAudio(attempt: Result<string, string>): (r: Result<string, string>)
    ensures r.Success? <==> attempt.Success?
    ensures attempt.Success? ==> r.value == attempt.value
    ensures attempt.Failure? ==> r.error == DownloadErrorMessage(attempt.error)
  {
    match attempt
    case Success(path) => Success(path)
    case Failure(message) => Failure(DownloadErrorMessage(message))
  }
}
