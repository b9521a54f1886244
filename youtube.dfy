/**
 * Recognising a YouTube link and building the text that stands in for the video
 * (extractYouTubeVideoId, the context block of summarizeYouTubeVideo and the
 * description cap of getYouTubeVideoInfo).
 *
 * The two regular expressions of the source are written out as matchers with the
 * same leftmost-first semantics PCRE gives them:
 *   1. `(?:youtube\.com\/watch\?v=|youtu\.be\/|youtube\.com\/embed\/)([a-zA-Z0-9_-]{11})`
 *   2. `youtube\.com\/watch\?.*v=([a-zA-Z0-9_-]{11})`
 */
module YouTube {
  import opened Wrappers
  import opened PhpStrings

  const WatchPrefix := "youtube.com/watch?v="
  const ShortPrefix := "youtu.be/"
  const EmbedPrefix := "youtube.com/embed/"
  /** The alternation of the first pattern, in the order PCRE tries it. */
  const Alternatives: seq<string> := [WatchPrefix, ShortPrefix, EmbedPrefix]
  /** The literal head of the second pattern. */
  const WatchQuery := "youtube.com/watch?"
  const IdLength := 11

  /** `[a-zA-Z0-9_-]` */
  predicate IsIdChar(c: char) {
    ('a' <= c <= 'z') || ('A' <= c <= 'Z') || ('0' <= c <= '9') || c == '_' || c == '-'
  }

  /** Exactly eleven characters from `[a-zA-Z0-9_-]`. */
  predicate IsVideoId(id: string) {
    |id| == IdLength && forall k :: 0 <= k < |id| ==> IsIdChar(id[k])
  }

  /** `[a-zA-Z0-9_-]{11}` matches at offset `i`. */
  predicate IdAt(s: string, i: int) {
    0 <= i && i + IdLength <= |s| && IsVideoId(s[i..i + IdLength])
  }

  // ---------------------------------------------------------------- pattern 1

  /** Alternative `a` matches at `i` and is followed by an id: the id it captures. */
  function AlternativeAt(s: string, i: nat, a: string): (r: Option<string>)
    ensures r.Some? ==> IsVideoId(r.value) && StartsAt(s, i, a)
  {
    if StartsAt(s, i, a) && IdAt(s, i + |a|) then Some(s[i + |a|..i + |a| + IdLength]) else None
  }

  /** Pattern 1 anchored at offset `i`: the alternatives are tried in order. */
  function PrefixedIdAt(s: string, i: nat): (r: Option<string>)
    ensures r.Some? ==> IsVideoId(r.value)
  {
    var watch := AlternativeAt(s, i, WatchPrefix);
    var short := AlternativeAt(s, i, ShortPrefix);
    if watch.Some? then watch else if short.Some? then short else AlternativeAt(s, i, EmbedPrefix)
  }

  /** The leftmost offset, from `i` on, at which pattern 1 matches. */
  function FirstPrefixedFrom(s: string, i: nat): (r: Option<nat>)
    requires i <= |s|
    ensures r.Some? ==> i <= r.value <= |s| && PrefixedIdAt(s, r.value).Some?
    ensures r.Some? ==> forall m :: i <= m < r.value ==> PrefixedIdAt(s, m).None?
    ensures r.None? ==> forall m :: i <= m <= |s| ==> PrefixedIdAt(s, m).None?
    decreases |s| - i
  {
    if PrefixedIdAt(s, i).Some? then Some(i)
    else if i == |s| then None
    else FirstPrefixedFrom(s, i + 1)
  }

  /** `preg_match` of pattern 1: the capture of the leftmost match. */
  function MatchPrefixed(s: string): (r: Option<string>)
    ensures r.Some? ==> IsVideoId(r.value)
    ensures r.Some? <==> exists m :: 0 <= m <= |s| && PrefixedIdAt(s, m).Some?
  {
    match FirstPrefixedFrom(s, 0)
    case Some(k) => PrefixedIdAt(s, k)
    case None => None
  }

  // ---------------------------------------------------------------- pattern 2

  /** `v=[a-zA-Z0-9_-]{11}` matches at offset `j`. */
  predicate VIdAt(s: string, j: int) {
    StartsAt(s, j, "v=") && IdAt(s, j + 2)
  }

  /** How far `.*` can reach from `lo`: the first newline at or after `lo`, or the end. */
  function NextNewline(s: string, lo: nat): (r: nat)
    requires lo <= |s|
    ensures lo <= r <= |s|
    ensures forall k :: lo <= k < r ==> s[k] != '\n'
    ensures r < |s| ==> s[r] == '\n'
    decreases |s| - lo
  {
    if lo == |s| || s[lo] == '\n' then lo else NextNewline(s, lo + 1)
  }

  /** The largest `j` in [lo, hi] where `v=` and an id follow: greedy `.*` backing off. */
  function LastVIdIn(s: string, lo: int, hi: int): (r: Option<int>)
    ensures r.Some? ==> lo <= r.value <= hi && VIdAt(s, r.value)
    ensures r.Some? ==> forall m :: r.value < m <= hi ==> !VIdAt(s, m)
    ensures r.None? ==> forall m :: lo <= m <= hi ==> !VIdAt(s, m)
    decreases hi - lo
  {
    if hi < lo then None
    else if VIdAt(s, hi) then Some(hi)
    else LastVIdIn(s, lo, hi - 1)
  }

  /** Pattern 2 anchored at offset `i`, with its capture. */
  function WatchQueryIdAt(s: string, i: nat): (r: Option<string>)
    ensures r.Some? ==> IsVideoId(r.value)
  {
    if !StartsAt(s, i, WatchQuery) then None
    else
      var lo := i + |WatchQuery|;
      match LastVIdIn(s, lo, NextNewline(s, lo))
      case Some(j) => Some(s[j + 2..j + 2 + IdLength])
      case None => None
  }

  /** The leftmost offset, from `i` on, at which pattern 2 matches. */
  function FirstWatchQueryFrom(s: string, i: nat): (r: Option<nat>)
    requires i <= |s|
    ensures r.Some? ==> i <= r.value <= |s| && WatchQueryIdAt(s, r.value).Some?
    ensures r.Some? ==> forall m :: i <= m < r.value ==> WatchQueryIdAt(s, m).None?
    ensures r.None? ==> forall m :: i <= m <= |s| ==> WatchQueryIdAt(s, m).None?
    decreases |s| - i
  {
    if WatchQueryIdAt(s, i).Some? then Some(i)
    else if i == |s| then None
    else FirstWatchQueryFrom(s, i + 1)
  }

  /** `preg_match` of pattern 2: the capture of the leftmost match. */
  function MatchWatchQuery(s: string): (r: Option<string>)
    ensures r.Some? ==> IsVideoId(r.value)
    ensures r.Some? <==> exists m :: 0 <= m <= |s| && WatchQueryIdAt(s, m).Some?
  {
    match FirstWatchQueryFrom(s, 0)
    case Some(k) => WatchQueryIdAt(s, k)
    case None => None
  }

  // ---------------------------------------------------------------- the resolver

  datatype Pattern = PrefixedId | WatchQueryId

  /** YOUTUBE_PATTERNS, in priority order. */
  const Patterns: seq<Pattern> := [PrefixedId, WatchQueryId]

  function MatchPattern(p: Pattern, url: string): (r: Option<string>)
    ensures r.Some? ==> IsVideoId(r.value)
  {
    match p
    case PrefixedId => MatchPrefixed(url)
    case WatchQueryId => MatchWatchQuery(url)
  }

  /** The capture of the first pattern that matches, as a value. */
  function VideoIdOf(url: string): Option<string> {
    var first := MatchPattern(Patterns[0], url);
    if first.Some? then first else MatchPattern(Patterns[1], url)
  }

  /**
   * extractYouTubeVideoId: the capture of the first pattern, in list order, that
   * matches the URL; nothing when none does.
   */
  method ExtractVideoId(url: string) returns (id: Option<string>)
    ensures id == VideoIdOf(url)
    ensures id.Some? ==> IsVideoId(id.value)
    ensures id.None? <==> forall k :: 0 <= k < |Patterns| ==> MatchPattern(Patterns[k], url).None?
    ensures id.Some? ==> exists k :: 0 <= k < |Patterns| && id == MatchPattern(Patterns[k], url)
                                  && forall m :: 0 <= m < k ==> MatchPattern(Patterns[m], url).None?
  {
    for k := 0 to |Patterns|
      invariant forall m :: 0 <= m < k ==> MatchPattern(Patterns[m], url).None?
    {
      var found := MatchPattern(Patterns[k], url);
      if found.Some? {
        return found;
      }
    }
    return None;
  }

  /** A string that occurs at `m` starts with the character found at `m`. */
  lemma OccurrenceHead(s: string, m: int, a: string)
    requires a != []
    ensures StartsAt(s, m, a) ==> m < |s| && s[m] == a[0]
  {
    if StartsAt(s, m, a) {
      assert s[m..m + |a|][0] == s[m];
    }
  }

  /** Every alternative of pattern 1 begins with a `y`, so no match starts elsewhere. */
  lemma NoPrefixedMatchWithoutY(s: string, m: nat)
    requires m < |s| ==> s[m] != 'y'
    ensures PrefixedIdAt(s, m).None?
  {
    OccurrenceHead(s, m, WatchPrefix);
    OccurrenceHead(s, m, ShortPrefix);
    OccurrenceHead(s, m, EmbedPrefix);
  }

  /** No match of pattern 1 starts inside a head that holds no `y`. */
  lemma NoPrefixedMatchInHead(head: string, tail: string)
    requires forall k :: 0 <= k < |head| ==> head[k] != 'y'
    ensures forall m :: 0 <= m < |head| ==> PrefixedIdAt(head + tail, m).None?
  {
    forall m | 0 <= m < |head|
      ensures PrefixedIdAt(head + tail, m).None?
    {
      assert (head + tail)[m] == head[m];
      NoPrefixedMatchWithoutY(head + tail, m);
    }
  }

  /** The three alternatives are told apart by their sixth or thirteenth character. */
  lemma AlternativeCapture(s: string, at: nat, a: string, id: string)
    requires a in Alternatives && IsVideoId(id)
    requires StartsAt(s, at, a + id)
    ensures PrefixedIdAt(s, at) == Some(id)
  {
    assert s[at..at + |a|] == a by {
      assert s[at..at + |a|] == s[at..at + |a + id|][..|a|];
    }
    assert s[at + |a|..at + |a| + IdLength] == id by {
      assert s[at + |a|..at + |a| + IdLength] == s[at..at + |a + id|][|a|..];
    }
    if a == ShortPrefix {
      assert !StartsAt(s, at, WatchPrefix) by { assert s[at + 5] == a[5]; }
    }
    if a == EmbedPrefix {
      assert !StartsAt(s, at, WatchPrefix) by { assert s[at + 12] == a[12]; }
      assert !StartsAt(s, at, ShortPrefix) by { assert s[at + 5] == a[5]; }
    }
  }

  /** Behind a head without `y`, an alternative followed by an id is the leftmost match. */
  lemma LeadingAlternativeWins(head: string, a: string, id: string, rest: string)
    requires a in Alternatives && IsVideoId(id)
    requires forall k :: 0 <= k < |head| ==> head[k] != 'y'
    ensures MatchPrefixed(head + a + id + rest) == Some(id)
  {
    var s := head + a + id + rest;
    assert s == head + ((a + id) + rest);
    assert StartsAt(s, |head|, a + id) by {
      assert s[|head|..|head| + |a + id|] == a + id;
    }
    AlternativeCapture(s, |head|, a, id);
    NoPrefixedMatchInHead(head, (a + id) + rest);
  }

  /**
   * The three link shapes pattern 1 knows, behind the usual scheme and host, all
   * resolve to the same id.
   */
  lemma LinkShapesAgree(id: string, rest: string)
    requires IsVideoId(id)
    ensures MatchPrefixed("https://www." + WatchPrefix + id + rest) == Some(id)
    ensures MatchPrefixed("https://" + ShortPrefix + id + rest) == Some(id)
    ensures MatchPrefixed("https://www." + EmbedPrefix + id + rest) == Some(id)
  {
    LeadingAlternativeWins("https://www.", WatchPrefix, id, rest);
    LeadingAlternativeWins("https://", ShortPrefix, id, rest);
    LeadingAlternativeWins("https://www.", EmbedPrefix, id, rest);
  }

  /** With no newline after `lo`, `.*` reaches the end of the string. */
  lemma NewlineFreeTail(s: string, lo: nat)
    requires lo <= |s|
    requires forall k :: lo <= k < |s| ==> s[k] != '\n'
    ensures NextNewline(s, lo) == |s|
  {
  }

  /** The greedy scan settles on the last `v=` when it is followed by exactly an id. */
  lemma GreedyFindsFinalV(s: string, lo: int)
    requires 13 <= |s| && lo <= |s| - 13 && VIdAt(s, |s| - 13)
    ensures LastVIdIn(s, lo, |s|) == Some(|s| - 13)
  {
  }

  /** A watch link whose `v=` parameter comes after other query parameters is found by pattern 2. */
  lemma QueryLinkFound(id: string)
    requires IsVideoId(id)
    ensures MatchWatchQuery("https://www." + WatchQuery + "feature=share&" + "v=" + id) == Some(id)
  {
    WatchQueryLinkFound("https://www.", "feature=share&", id);
  }

  /** Pattern 2 at `at` captures the id behind the final `v=` when no newline intervenes. */
  lemma WatchQueryCapture(s: string, at: nat, id: string)
    requires StartsAt(s, at, WatchQuery) && IsVideoId(id)
    requires at + |WatchQuery| + 13 <= |s|
    requires s[|s| - 13..] == "v=" + id
    requires forall k :: at + |WatchQuery| <= k < |s| ==> s[k] != '\n'
    ensures WatchQueryIdAt(s, at) == Some(id)
  {
    var j := |s| - 13;
    assert VIdAt(s, j) by {
      assert s[j..j + 2] == s[j..][..2] == "v=";
      assert s[j + 2..j + 2 + IdLength] == s[j..][2..] == id;
    }
    NewlineFreeTail(s, at + |WatchQuery|);
    GreedyFindsFinalV(s, at + |WatchQuery|);
    assert s[j + 2..j + 2 + IdLength] == id;
  }

  /** No match of pattern 2 starts inside a head that holds no `y`. */
  lemma NoWatchQueryInHead(head: string, tail: string)
    requires forall k :: 0 <= k < |head| ==> head[k] != 'y'
    ensures forall m :: 0 <= m < |head| ==> WatchQueryIdAt(head + tail, m).None?
  {
    forall m | 0 <= m < |head|
      ensures WatchQueryIdAt(head + tail, m).None?
    {
      assert (head + tail)[m] == head[m];
      OccurrenceHead(head + tail, m, WatchQuery);
    }
  }

  /** A newline-free query with `v=<id>` appended holds no newline. */
  lemma TailHasNoNewline(mid: string, id: string)
    requires IsVideoId(id)
    requires forall k :: 0 <= k < |mid| ==> mid[k] != '\n'
    ensures forall k :: 0 <= k < |mid + "v=" + id| ==> (mid + "v=" + id)[k] != '\n'
  {
    var tail := mid + "v=" + id;
    forall k | 0 <= k < |tail| ensures tail[k] != '\n' {
      if k >= |mid| + 2 {
        assert tail[k] == id[k - |mid| - 2];
      }
    }
  }

  /**
   * Behind a head without `y`, a watch query whose last parameter is `v=<id>` and
   * that holds no newline is matched by pattern 2, capturing that id.
   */
  lemma WatchQueryLinkFound(head: string, mid: string, id: string)
    requires IsVideoId(id)
    requires forall k :: 0 <= k < |head| ==> head[k] != 'y'
    requires forall k :: 0 <= k < |mid| ==> mid[k] != '\n'
    ensures MatchWatchQuery(head + WatchQuery + mid + "v=" + id) == Some(id)
  {
    var tail := mid + "v=" + id;
    var s := head + WatchQuery + tail;
    assert s == head + WatchQuery + mid + "v=" + id;
    var at := |head|;
    var lo := at + |WatchQuery|;
    assert StartsAt(s, at, WatchQuery) by {
      assert s[at..at + |WatchQuery|] == WatchQuery;
    }
    assert s[|s| - 13..] == "v=" + id;
    TailHasNoNewline(mid, id);
    forall k | lo <= k < |s| ensures s[k] != '\n' {
      assert s[k] == tail[k - lo];
    }
    WatchQueryCapture(s, at, id);
    NoWatchQueryInHead(head, WatchQuery + tail);
    assert s == head + (WatchQuery + tail);
    FirstWatchQueryIs(s, 0, at);
  }

  /** From `i` on, the leftmost match is the one at `at` when none starts between them. */
  lemma {:induction false} FirstWatchQueryIs(s: string, i: nat, at: nat)
    requires i <= at <= |s| && WatchQueryIdAt(s, at).Some?
    requires forall m :: i <= m < at ==> WatchQueryIdAt(s, m).None?
    ensures FirstWatchQueryFrom(s, i) == Some(at)
    decreases at - i
  {
    if i < at {
      FirstWatchQueryIs(s, i + 1, at);
    }
  }

  /** A URL in which no `y` occurs is not a video link: neither pattern matches it. */
  lemma NoVideoWithoutY(url: string)
    requires forall k :: 0 <= k < |url| ==> url[k] != 'y'
    ensures forall k :: 0 <= k < |Patterns| ==> MatchPattern(Patterns[k], url).None?
  {
    assert url + [] == url;
    NoPrefixedMatchInHead(url, []);
    NoWatchQueryInHead(url, []);
    NoPrefixedMatchWithoutY(url, |url|);
    OccurrenceHead(url, |url|, WatchQuery);
  }

  // ---------------------------------------------------------------- video context

  /** What the best-effort page fetch yields: a title and a description. */
  datatype VideoInfo = VideoInfo(title: string, description: string)

  const DescriptionCap: nat := 500
  const TitleSuffix := " - YouTube"

  /**
   * getYouTubeVideoInfo after scraping: the title loses every " - YouTube" and the
   * description is cut to its first 500 characters.
   */
  function VideoInfoFromPage(rawTitle: string, rawDescription: string): (info: VideoInfo)
    ensures |info.description| <= DescriptionCap
    ensures info.description <= rawDescription
    ensures |rawDescription| <= DescriptionCap ==> info.description == rawDescription
    ensures |rawDescription| > DescriptionCap ==> |info.description| == DescriptionCap
  {
    VideoInfo(ReplaceAll(rawTitle, TitleSuffix, ""), Prefix(rawDescription, DescriptionCap))
  }

  /** A page title ending in " - YouTube" is shown without it. */
  lemma TitleSuffixDropped(title: string, rawDescription: string)
    requires forall i :: 0 <= i < |title| ==> !StartsAt(title + TitleSuffix, i, TitleSuffix)
    ensures VideoInfoFromPage(title + TitleSuffix, rawDescription).title == title
  {
    ReplaceAllSkips(title, TitleSuffix, TitleSuffix, "");
    ReplaceAllAtStart([], TitleSuffix, "");
    assert TitleSuffix + [] == TitleSuffix;
    assert ReplaceAll([], TitleSuffix, "") == [];
    assert title + "" == title;
  }

  /** A page title without " - YouTube" is shown as it is. */
  lemma TitleWithoutSuffixKept(title: string, rawDescription: string)
    requires !Contains(title, TitleSuffix)
    ensures VideoInfoFromPage(title, rawDescription).title == title
  {
    ReplaceAllAbsent(title, TitleSuffix, "");
  }

  /** The canonical watch URL the context names. */
  function WatchUrl(id: string): string {
    "https://www." + WatchPrefix + id
  }

  const ContextHeader := "YouTube Video Analysis Request\n"
  const UrlLabel := "Video URL: "
  const TitleLabel := "Video Title: "
  const DescriptionLabel := "Video Description: "
  const ContextNote := "\nNote: This is a YouTube video. Please provide a summary based on the video title and description, "
                       + "focusing on the main topics, key points, and overall content theme."

  /**
   * The optional title and description lines: nothing without page data; otherwise the
   * title line, followed by the description line exactly when the description is not
   * `empty()`.
   */
  function InfoLines(info: Option<VideoInfo>): (lines: string)
    ensures info.None? <==> lines == ""
    ensures info.Some? ==> TitleLabel + info.value.title + "\n" <= lines
    ensures info.Some? ==> var titleLine := TitleLabel + info.value.title + "\n";
              (IsEmptyString(info.value.description) <==> |lines| == |titleLine|)
              && (!IsEmptyString(info.value.description) ==>
                    lines[|titleLine|..] == DescriptionLabel + info.value.description + "\n")
  {
    match info
    case None => ""
    case Some(v) =>
      TitleLabel + v.title + "\n"
      + (if IsEmptyString(v.description) then "" else DescriptionLabel + v.description + "\n")
  }

  /** The first line of the context and the line naming the video's watch URL. */
  function ContextHead(id: string): string {
    ContextHeader + UrlLabel + WatchUrl(id) + "\n"
  }

  /**
   * The context block that replaces the article text for a video: the header, the
   * watch URL line, the page data lines, and the closing note.
   */
  function VideoContext(id: string, info: Option<VideoInfo>): (ctx: string)
    ensures ContextHead(id) <= ctx
    ensures |ctx| == |ContextHead(id)| + |InfoLines(info)| + |ContextNote|
    ensures ctx[|ContextHead(id)|..|ctx| - |ContextNote|] == InfoLines(info)
    ensures ctx[|ctx| - |ContextNote|..] == ContextNote
  {
    var ctx := ContextHead(id) + InfoLines(info) + ContextNote;
    assert ctx[..|ContextHead(id)|] == ContextHead(id);
    assert ctx[|ContextHead(id)|..|ctx| - |ContextNote|] == InfoLines(info);
    ctx
  }

  /** The watch URL sits right after the header and label, and resolves back to the video. */
  lemma VideoContextNamesVideo(id: string, info: Option<VideoInfo>)
    requires IsVideoId(id)
    ensures var start := |ContextHeader| + |UrlLabel|;
            var ctx := VideoContext(id, info);
            && start + |WatchUrl(id)| <= |ctx|
            && ctx[start..start + |WatchUrl(id)|] == WatchUrl(id)
            && MatchPrefixed(ctx[start..start + |WatchUrl(id)|]) == Some(id)
  {
    var head := ContextHead(id);
    var start := |ContextHeader| + |UrlLabel|;
    assert head[start..start + |WatchUrl(id)|] == WatchUrl(id);
    WatchUrlResolves(id);
  }

  /** Two contexts for recognised ids are equal only for the same video and page data. */
  lemma VideoContextInjective(id1: string, info1: Option<VideoInfo>, id2: string, info2: Option<VideoInfo>)
    requires IsVideoId(id1) && IsVideoId(id2)
    requires VideoContext(id1, info1) == VideoContext(id2, info2)
    ensures id1 == id2 && InfoLines(info1) == InfoLines(info2)
  {
    var ctx := VideoContext(id1, info1);
    var n := |ContextHead(id1)|;
    assert |ContextHead(id2)| == n;
    assert ContextHead(id1) == ctx[..n] == ContextHead(id2);
    var m := |ContextHeader + UrlLabel + "https://www." + WatchPrefix|;
    assert id1 == ContextHead(id1)[m..m + IdLength];
    assert id2 == ContextHead(id2)[m..m + IdLength];
  }

  /** Whatever pattern matched, the id it captured has the id shape. */
  lemma VideoIdShape(url: string)
    ensures VideoIdOf(url).Some? ==> IsVideoId(VideoIdOf(url).value)
  {
  }

  /** A video id is never one of PHP's falsy strings, so `if ($id)` is the same as `$id !== null`. */
  lemma VideoIdIsTruthy(id: string)
    requires IsVideoId(id)
    ensures !IsEmptyString(id)
  {
  }

  /** The watch URL written into the context resolves back to the same id. */
  lemma WatchUrlResolves(id: string)
    requires IsVideoId(id)
    ensures MatchPrefixed(WatchUrl(id)) == Some(id)
  {
    LeadingAlternativeWins("https://www.", WatchPrefix, id, "");
    assert "https://www." + WatchPrefix + id + "" == WatchUrl(id);
  }
}
