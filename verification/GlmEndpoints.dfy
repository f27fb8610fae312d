/**
 * What the GLM classifiers and URL builders do, by positions in the URL text: which endpoint
 * is cut off, which bases are Anthropic or coding ones, how a path is put behind a base, and
 * which URL each configuration gets.
 */
module GlmEndpoints {
  import opened Options
  import opened Text
  import opened GlmProvider

  // -------------------------------------------------------------------- parts of a URL

  predicate Slashes(s: string) {
    forall i | 0 <= i < |s| :: s[i] == '/'
  }

  /** Text without a query or a hash. */
  predicate Plain(s: string) {
    '?' !in s && '#' !in s
  }

  /** Nothing, or a query or hash. */
  predicate QueryOrHash(s: string) {
    s == "" || s[0] == '?' || s[0] == '#'
  }

  lemma PlainIff(s: string)
    ensures Plain(s) <==> NoQuery(s)
    ensures QueryOrHash(s) <==> Suffix(s)
  {
  }

  /** A URL as its base, the slashes behind it, and its query and hash. */
  predicate Parts(url: string, base: string, slashes: string, suffix: string) {
    && url == base + slashes + suffix
    && Plain(base) && Slashes(slashes) && QueryOrHash(suffix)
    && (base == "" || base[|base| - 1] != '/')
  }

  lemma {:induction false} StripsSlashes(base: string, slashes: string)
    requires Slashes(slashes) && (base == "" || base[|base| - 1] != '/')
    ensures StripSlashes(base + slashes) == base
  {
    if slashes == "" {
      assert base + slashes == base;
    } else {
      var fewer := slashes[..|slashes| - 1];
      assert (base + slashes)[..|base + slashes| - 1] == base + fewer;
      StripsSlashes(base, fewer);
    }
  }

  /** The base of a URL is the part before the slashes that precede its query and hash. */
  lemma PlainBaseIs(url: string, base: string, slashes: string, suffix: string)
    requires Parts(url, base, slashes, suffix)
    ensures PlainBase(url) == base && url[QueryStart(url)..] == suffix
  {
    PlainIff(base);
    PlainIff(suffix);
    assert NoQuery(base + slashes);
    QueryStartAt(base + slashes, suffix);
    assert url[..|base + slashes|] == base + slashes && url[|base + slashes|..] == suffix;
    StripsSlashes(base, slashes);
  }

  lemma {:induction false} StrippedSlashes(s: string)
    ensures StripSlashes(s) <= s && Slashes(s[|StripSlashes(s)|..])
    ensures StripSlashes(s) == "" || StripSlashes(s)[|StripSlashes(s)| - 1] != '/'
  {
    if s != "" && s[|s| - 1] == '/' {
      var fewer := s[..|s| - 1];
      StrippedSlashes(fewer);
      assert s[|StripSlashes(fewer)|..] == fewer[|StripSlashes(fewer)|..] + "/";
    }
  }

  /** Every URL has such parts. */
  lemma PartsExist(url: string) returns (slashes: string)
    ensures Parts(url, PlainBase(url), slashes, url[QueryStart(url)..])
  {
    var whole := url[..QueryStart(url)];
    QuerySplits(url);
    StrippedSlashes(whole);
    slashes := whole[|StripSlashes(whole)|..];
    PlainIff(PlainBase(url));
    PlainIff(url[QueryStart(url)..]);
    assert url == whole + url[QueryStart(url)..];
  }

  // ----------------------------------------------------------------- endpoints cut off

  /** A whole known endpoint: a messages endpoint with or without a version, or a chat or models path, in any case. */
  ghost predicate KnownEndpoint(t: string) {
    || IsMessages(t, "/messages/count_tokens") || IsMessages(t, "/messages")
    || Lower(t) == "/chat/completions" || Lower(t) == "/models"
  }

  lemma LowerEnd(base: string, n: nat, endpoint: string)
    requires n <= |base|
    ensures Lower(base[|base| - n..]) == endpoint <==> EndsWithIgnoringCase(base, endpoint) && n == |endpoint|
  {
    LowerOfEnd(base, n);
  }

  lemma MessagesEndsIn(base: string, n: nat, endpoint: string)
    requires endpoint != "" && n <= |base| && IsMessages(base[|base| - n..], endpoint)
    ensures EndsWithIgnoringCase(base, endpoint) && n <= MessagesLength(base, endpoint)
  {
    MessagesLengthIsLeftmost(base, endpoint, n);
  }

  lemma EndChars(base: string, a: string)
    requires |a| >= 3
    ensures EndsWithIgnoringCase(base, a) ==>
              && |base| >= 3 && Lower(base)[|base| - 1] == a[|a| - 1]
              && Lower(base)[|base| - 2] == a[|a| - 2] && Lower(base)[|base| - 3] == a[|a| - 3]
  {
    var low := Lower(base);
    if EndsWith(low, a) {
      var end := low[|low| - |a|..];
      assert end[|a| - 1] == low[|low| - 1] && end[|a| - 2] == low[|low| - 2] && end[|a| - 3] == low[|low| - 3];
    }
  }

  lemma OneEnding(base: string)
    ensures EndsWithIgnoringCase(base, COUNT_TOKENS) ==>
              !EndsWithIgnoringCase(base, MESSAGES) && !EndsWithIgnoringCase(base, CHAT_PATH)
              && !EndsWithIgnoringCase(base, MODELS_PATH)
    ensures EndsWithIgnoringCase(base, MESSAGES) ==>
              !EndsWithIgnoringCase(base, CHAT_PATH) && !EndsWithIgnoringCase(base, MODELS_PATH)
    ensures EndsWithIgnoringCase(base, CHAT_PATH) ==> !EndsWithIgnoringCase(base, MODELS_PATH)
  {
    EndChars(base, COUNT_TOKENS);
    EndChars(base, MESSAGES);
    EndChars(base, CHAT_PATH);
    EndChars(base, MODELS_PATH);
  }

  /** What is cut off is the longest known endpoint the base ends in, and nothing exactly when it ends in none. */
  lemma EndpointIsLongest(base: string, n: nat)
    requires n <= |base|
    ensures KnownEndpoint(base[|base| - n..]) ==> n <= EndpointLength(base)
    ensures n == EndpointLength(base) > 0 ==> KnownEndpoint(base[|base| - n..])
  {
    var t := base[|base| - n..];
    MessagesLengthIsLeftmost(base, COUNT_TOKENS, n);
    MessagesLengthIsLeftmost(base, MESSAGES, n);
    LowerEnd(base, n, CHAT_PATH);
    LowerEnd(base, n, MODELS_PATH);
    OneEnding(base);
    if IsMessages(t, COUNT_TOKENS) {
      MessagesEndsIn(base, n, COUNT_TOKENS);
    }
    if IsMessages(t, MESSAGES) {
      MessagesEndsIn(base, n, MESSAGES);
    }
  }

  /** Stripping a URL cuts that endpoint off its base and keeps query and hash. */
  lemma StripIs(url: string, base: string, slashes: string, suffix: string)
    requires Parts(url, base, slashes, suffix)
    ensures Strip(url) == Split(base[..|base| - EndpointLength(base)], suffix)
  {
    PlainBaseIs(url, base, slashes, suffix);
  }

  // ------------------------------------------------------------- a path behind a base

  /** The path begins with the version, in either case, and a slash. */
  predicate Repeats(path: string, version: string) {
    |version| < |path| && Lower(path[..|version|]) == Lower(version) && path[|version|] == '/'
  }

  lemma SnocEqual(a: string, c: char, b: string, d: char)
    ensures a + [c] == b + [d] <==> a == b && c == d
  {
    if a + [c] == b + [d] {
      assert (a + [c])[..|a|] == a && (b + [d])[..|b|] == b && |a| == |b|;
      assert (a + [c])[|a|] == c && (b + [d])[|b|] == d;
    }
  }

  lemma RepeatsIff(path: string, version: string)
    ensures Repeats(path, version) <==> StartsWith(Lower(path), Lower(version) + "/")
  {
    var n := |version|;
    if n < |path| {
      assert Lower(path)[..n + 1] == Lower(path[..n]) + [LowerChar(path[n])];
      SnocEqual(Lower(path[..n]), LowerChar(path[n]), Lower(version), '/');
    }
  }

  /** A version the path repeats, in either case, is written once. */
  lemma JoinMergesVersion(url: string, front: string, version: string, path: string)
    requires Strip(url).base == front + version && IsVersion(version) && Repeats(path, version)
    ensures GlmProvider.Join(url, path) == front + version + path[|version|..] + Strip(url).suffix
  {
    var base, n := front + version, |version|;
    assert base[|base| - n..] == version;
    VersionLengthIff(base, n);
    RepeatsIff(path, version);
    assert LowerChar(path[0]) == Lower(path[..n])[0] == Lower(version)[0] == '/';
  }

  /** Any other path is written whole. */
  lemma JoinKeepsPath(url: string, path: string)
    requires path != "" && path[0] == '/'
    requires forall version | IsVersion(version) && EndsWith(Strip(url).base, version) :: !Repeats(path, version)
    ensures GlmProvider.Join(url, path) == Strip(url).base + path + Strip(url).suffix
  {
    var base := Strip(url).base;
    var n := VersionLength(base);
    if n > 0 {
      VersionLengthIff(base, n);
      RepeatsIff(path, base[|base| - n..]);
    }
  }

  /** A path without a leading slash gets one. */
  lemma JoinAddsSlash(url: string, path: string)
    requires path == "" || path[0] != '/'
    ensures GlmProvider.Join(url, path) == GlmProvider.Join(url, "/" + path)
  {
  }

  // -------------------------------------------------------------------- classification

  /** `/api/anthropic`, in any case, stands at `i` as a whole path part. */
  predicate AnthropicAt(base: string, i: nat) {
    var end := i + |"/api/anthropic"|;
    end <= |base| && Lower(base[i..end]) == "/api/anthropic" && (end == |base| || base[end] == '/')
  }

  lemma LowerPart(base: string, i: nat, end: nat)
    requires i <= end <= |base|
    ensures Lower(base[i..end]) == Lower(base)[i..end]
  {
  }

  lemma AnthropicAtIff(base: string, i: nat)
    ensures AnthropicAt(base, i) <==>
              || OccursAt(Lower(base), "/api/anthropic/", i)
              || (OccursAt(Lower(base), "/api/anthropic", i) && i + 14 == |base|)
  {
    var end, low := i + 14, Lower(base);
    if end <= |base| {
      LowerPart(base, i, end);
    }
    if end < |base| {
      assert low[i..end + 1] == low[i..end] + [low[end]];
      assert "/api/anthropic/" == "/api/anthropic" + ['/'];
      SnocEqual(low[i..end], low[end], "/api/anthropic", '/');
    }
  }

  /**
   * A URL is Anthropic exactly when, before its query and the slashes that precede it,
   * `/api/anthropic` is a whole part of it somewhere.
   */
  lemma IsAnthropicIff(url: string, base: string, slashes: string, suffix: string)
    requires Parts(url, base, slashes, suffix)
    ensures IsAnthropic(url) <==> exists i: nat :: AnthropicAt(base, i)
  {
    PlainBaseIs(url, base, slashes, suffix);
    var low := Lower(base);
    forall i: nat ensures AnthropicAt(base, i) <==>
        OccursAt(low, "/api/anthropic/", i) || (OccursAt(low, "/api/anthropic", i) && i + 14 == |base|)
    {
      AnthropicAtIff(base, i);
    }
    assert ANTHROPIC + "/" == "/api/anthropic/";
    if EndsWith(low, ANTHROPIC) {
      assert OccursAt(low, "/api/anthropic", |low| - 14);
      assert AnthropicAt(base, |low| - 14);
    }
    if Contains(low, "/api/anthropic/") {
      var i :| 0 <= i <= |low| && OccursAt(low, "/api/anthropic/", i);
      assert AnthropicAt(base, i);
    }
    if i: nat :| AnthropicAt(base, i) {
      assert OccursAt(low, "/api/anthropic/", i) ==> Contains(low, "/api/anthropic/");
    }
  }

  /** `/api/coding/paas/v`, in any case, stands at `i`. */
  predicate CodingAt(base: string, i: nat) {
    i + |"/api/coding/paas/v"| <= |base| && Lower(base[i..i + |"/api/coding/paas/v"|]) == "/api/coding/paas/v"
  }

  lemma {:induction false} FirstOccurrenceIs(s: string, pat: string, from: nat)
    requires from <= |s|
    ensures
      var i := FirstOccurrence(s, pat, from);
      forall j | from <= j < (if i < 0 then |s| + 1 else i) :: !OccursAt(s, pat, j)
    decreases |s| - from
  {
    if !OccursAt(s, pat, from) && from < |s| {
      FirstOccurrenceIs(s, pat, from + 1);
    }
  }

  lemma CodingAtIff(base: string, i: nat)
    ensures CodingAt(base, i) <==> OccursAt(Lower(base), "/api/coding/paas/v", i)
  {
    if i + |"/api/coding/paas/v"| <= |base| {
      LowerPart(base, i, i + |"/api/coding/paas/v"|);
    }
  }

  /** The first `/api/coding/paas/v` of the base is at `i`, and a digit follows it. */
  ghost predicate CodingVersionAt(base: string, i: nat) {
    && CodingAt(base, i) && (forall j: nat | j < i :: !CodingAt(base, j))
    && i + 18 < |base| && IsDigit(base[i + 18])
  }

  lemma FirstCoding(base: string)
    ensures
      var first := FirstOccurrence(Lower(base), "/api/coding/paas/v", 0);
      && (first >= 0 ==> CodingAt(base, first))
      && (forall j: nat | first < 0 || j < first :: !CodingAt(base, j))
  {
    var low, marker := Lower(base), "/api/coding/paas/v";
    FirstOccurrenceIs(low, marker, 0);
    var first := FirstOccurrence(low, marker, 0);
    if first >= 0 {
      CodingAtIff(base, first);
    }
    forall j: nat | first < 0 || j < first ensures !CodingAt(base, j) {
      CodingAtIff(base, j);
    }
  }

  /** A URL is a coding one exactly when a digit follows the first `/api/coding/paas/v` of its base. */
  lemma IsCodingIff(url: string, base: string, slashes: string, suffix: string)
    requires Parts(url, base, slashes, suffix)
    ensures IsCoding(url) <==> exists i: nat :: CodingVersionAt(base, i)
  {
    PlainBaseIs(url, base, slashes, suffix);
    FirstCoding(base);
    var first := FirstOccurrence(Lower(base), "/api/coding/paas/v", 0);
    if 0 <= first && first + 18 < |base| {
      assert Lower(base)[first + 18] == LowerChar(base[first + 18]);
      assert IsDigit(base[first + 18]) <==> CodingVersionAt(base, first);
    }
    forall i: nat | CodingVersionAt(base, i) ensures i == first {
    }
  }

  // ---------------------------------------------------------------------------- URLs

  /** The literal chat URL of the region a connection names. */
  function RegionChatUrl(data: ProviderData): string {
    if data.apiRegion == Some("china") then "https://open.bigmodel.cn" + "/api/coding/paas/v4" + "/chat/completions"
    else "https://api.z.ai" + "/api/coding/paas/v4" + "/chat/completions"
  }

  function RegionModelsUrl(data: ProviderData): string {
    if data.apiRegion == Some("china") then "https://open.bigmodel.cn" + "/api/coding/paas/v4" + "/models"
    else "https://api.z.ai" + "/api/coding/paas/v4" + "/models"
  }

  lemma RegionDefaults(data: ProviderData)
    ensures DefaultBaseUrl(RegionOf(data)) == RegionChatUrl(data)
    ensures DefaultModelsUrl(RegionOf(data)) == RegionModelsUrl(data)
    ensures GlmProvider.Join(DefaultBaseUrl(RegionOf(data)), CHAT_PATH) == RegionChatUrl(data)
  {
    var root := DefaultRoot(RegionOf(data));
    DefaultRootChars(RegionOf(data));
    assert root + CHAT_PATH + "" == root + CHAT_PATH;
    StripOfParts(root, CHAT_PATH, "");
    OpenAIPathIsPlain(CHAT_PATH);
    AttachPlain(Split(root, ""), CHAT_PATH);
  }

  lemma NonBlankIs(v: Option<string>)
    ensures NonBlank(v) == if v.Some? && !Blank(v.value) then Some(Trim(v.value)) else None
  {
    if v.Some? {
      TrimEmptyIff(v.value);
    }
  }

  /**
   * With a configured base: the region's own URL when that base is Anthropic anywhere, else the
   * base with the chat path.
   */
  lemma ChatUrlOfConfigured(data: ProviderData, fallback: Option<string>, base: string, slashes: string, suffix: string)
    requires data.baseUrl.Some? && !Blank(data.baseUrl.value)
    requires Parts(Trim(data.baseUrl.value), base, slashes, suffix)
    ensures OpenAIChatUrl(data, fallback) ==
              if exists i: nat :: AnthropicAt(base, i) then RegionChatUrl(data)
              else GlmProvider.Join(Trim(data.baseUrl.value), "/chat/completions")
  {
    NonBlankIs(data.baseUrl);
    RegionDefaults(data);
    IsAnthropicIff(Trim(data.baseUrl.value), base, slashes, suffix);
  }

  /**
   * Without one: a coding fallback that is not Anthropic gets the chat path, and everything else
   * the region's own URL.
   */
  lemma ChatUrlWithoutBase(data: ProviderData, fallback: Option<string>)
    requires data.baseUrl.None? || Blank(data.baseUrl.value)
    ensures
      var usable := fallback.Some? && !Blank(fallback.value) && IsCoding(fallback.value);
      OpenAIChatUrl(data, fallback) ==
        if usable && !IsAnthropic(Trim(fallback.value)) then GlmProvider.Join(Trim(fallback.value), "/chat/completions")
        else RegionChatUrl(data)
  {
    NonBlankIs(data.baseUrl);
    NonBlankIs(fallback);
    RegionDefaults(data);
    DefaultBases(RegionOf(data));
  }

  /** A models URL of its own comes first, then the base when it is not Anthropic, then the region's. */
  lemma ModelsUrlIs(data: ProviderData)
    ensures OpenAIModelsUrl(data) ==
              if data.modelsUrl.Some? && !Blank(data.modelsUrl.value) then Trim(data.modelsUrl.value)
              else if data.baseUrl.Some? && !Blank(data.baseUrl.value) && !IsAnthropic(Trim(data.baseUrl.value))
              then GlmProvider.Join(Trim(data.baseUrl.value), "/models")
              else RegionModelsUrl(data)
  {
    NonBlankIs(data.modelsUrl);
    NonBlankIs(data.baseUrl);
    RegionDefaults(data);
  }

  lemma OtherCharIsInBase(base: string, slashes: string, k: nat)
    requires Slashes(slashes) && k < |base + slashes|
    ensures (base + slashes)[k] != '/' ==> k < |base|
  {
    if k >= |base| {
      assert (base + slashes)[k] == slashes[k - |base|];
    }
  }

  lemma AnthropicPart(host: string, rest: string, base: string, slashes: string)
    requires host + "/api/anthropic" + rest == base + slashes && Slashes(slashes)
    requires rest == "" || rest[0] == '/'
    ensures AnthropicAt(base, |host|)
  {
    var whole, end := base + slashes, |host| + 14;
    assert whole[end - 1] == "/api/anthropic"[13] == 'c';
    OtherCharIsInBase(base, slashes, end - 1);
    assert base[|host|..end] == whole[|host|..end] == "/api/anthropic";
    if end < |base| {
      assert base[end] == whole[end] == rest[0];
    }
    LowerAnthropic();
  }

  lemma LowerAnthropic()
    ensures Lower("/api/anthropic") == "/api/anthropic"
  {
  }

  /**
   * Any host's Anthropic endpoint, with whatever path behind it, gets exactly the literal OpenAI
   * URLs of the region.
   */
  lemma AnthropicBaseGetsRegionUrls(data: ProviderData, fallback: Option<string>, host: string, rest: string)
    requires data.baseUrl.Some? && Trim(data.baseUrl.value) == host + "/api/anthropic" + rest
    requires Plain(host + "/api/anthropic" + rest) && (rest == "" || rest[0] == '/')
    ensures OpenAIChatUrl(data, fallback) == RegionChatUrl(data)
    ensures (data.modelsUrl.None? || Blank(data.modelsUrl.value)) ==> OpenAIModelsUrl(data) == RegionModelsUrl(data)
  {
    var url := host + "/api/anthropic" + rest;
    TrimEmptyIff(data.baseUrl.value);
    assert url[|host|] == '/';
    var slashes := PartsExist(url);
    var base, suffix := PlainBase(url), url[QueryStart(url)..];
    NoSuffix(url, base + slashes, suffix);
    AnthropicPart(host, rest, base, slashes);
    ChatUrlOfConfigured(data, fallback, base, slashes, suffix);
    IsAnthropicIff(url, base, slashes, suffix);
    ModelsUrlIs(data);
  }

  lemma SuffixIsQuery(front: string, suffix: string)
    requires QueryOrHash(suffix)
    ensures suffix != "" ==> !Plain(front + suffix)
  {
    if suffix != "" {
      assert (front + suffix)[|front|] == suffix[0];
    }
  }

  lemma NoSuffix(url: string, front: string, suffix: string)
    requires url == front + suffix && Plain(url) && QueryOrHash(suffix)
    ensures suffix == "" && url == front
  {
    SuffixIsQuery(front, suffix);
  }
}
