/**
 * GLM endpoint URLs: splitting off query and hash, stripping a known endpoint suffix,
 * joining a base with a path, and telling Anthropic bases from OpenAI ones.
 */
module GlmProvider {
  import opened Options
  import opened Text

  const CHAT_PATH := "/chat/completions"
  const MODELS_PATH := "/models"
  const MESSAGES_PATH := "/v1/messages"

  // ------------------------------------------------------------ splitting and stripping

  predicate StartsQuery(c: char) {
    c == '?' || c == '#'
  }

  predicate NoQuery(s: string) {
    forall c | c in s :: !StartsQuery(c)
  }

  /** Where the query or hash of a URL begins. */
  function QueryStart(url: string): (i: nat)
    ensures i <= |url|
  {
    if url == "" || StartsQuery(url[0]) then 0 else 1 + QueryStart(url[1..])
  }

  function StripSlashes(s: string): string {
    if s != "" && s[|s| - 1] == '/' then StripSlashes(s[..|s| - 1]) else s
  }

  predicate EndsWithIgnoringCase(s: string, suffix: string) {
    EndsWith(Lower(s), suffix)
  }

  /** How many digits `s` ends in. */
  function TrailingDigits(s: string): (n: nat)
    ensures n <= |s|
    ensures n < |s| ==> !IsDigit(s[|s| - n - 1])
  {
    if s != "" && IsDigit(s[|s| - 1]) then 1 + TrailingDigits(s[..|s| - 1]) else 0
  }

  /** The length of a final `/v<digits>`, in either case of the letter; 0 when there is none. */
  function VersionLength(s: string): (n: nat)
    ensures n <= |s|
  {
    var d := TrailingDigits(s);
    if 0 < d <= |s| - 2 && LowerChar(s[|s| - d - 1]) == 'v' && s[|s| - d - 2] == '/' then d + 2 else 0
  }

  /** The length of a final messages endpoint with the version in front of it; 0 when there is none. */
  function MessagesLength(base: string, endpoint: string): (n: nat)
    ensures n <= |base|
  {
    if EndsWithIgnoringCase(base, endpoint) then |endpoint| + VersionLength(base[..|base| - |endpoint|]) else 0
  }

  const COUNT_TOKENS := "/messages/count_tokens"
  const MESSAGES := "/messages"

  /** The length of the known endpoint suffix of a base: count tokens first, then messages, chat and models. */
  function EndpointLength(base: string): (n: nat)
    ensures n <= |base|
  {
    if MessagesLength(base, COUNT_TOKENS) > 0 then MessagesLength(base, COUNT_TOKENS)
    else if MessagesLength(base, MESSAGES) > 0 then MessagesLength(base, MESSAGES)
    else if EndsWithIgnoringCase(base, CHAT_PATH) then |CHAT_PATH|
    else if EndsWithIgnoringCase(base, MODELS_PATH) then |MODELS_PATH|
    else 0
  }

  datatype Split = Split(base: string, suffix: string)

  /** The base of a URL without trailing slashes, query and hash. */
  function PlainBase(url: string): string {
    StripSlashes(url[..QueryStart(url)])
  }

  function Strip(url: string): Split {
    var base := PlainBase(url);
    Split(base[..|base| - EndpointLength(base)], url[QueryStart(url)..])
  }

  method StripQueryAndTrailingSlash(url: string) returns (base: string)
    ensures base == PlainBase(url)
  {
    base := url[..QueryStart(url)];
    while base != "" && base[|base| - 1] == '/'
      invariant StripSlashes(base) == PlainBase(url)
      decreases |base|
    {
      base := base[..|base| - 1];
    }
  }

  /** `/v` and digits, in either case of the letter. */
  predicate IsVersion(v: string) {
    |v| >= 3 && v[0] == '/' && LowerChar(v[1]) == 'v' && forall i | 2 <= i < |v| :: IsDigit(v[i])
  }

  /** A whole messages endpoint, with or without a version. */
  ghost predicate IsMessages(t: string, endpoint: string) {
    exists n | 0 <= n <= |t| :: (n == 0 || IsVersion(t[..n])) && Lower(t[n..]) == endpoint
  }

  lemma {:induction false} DigitsAtEnd(s: string, d: nat)
    requires d < |s| && !IsDigit(s[|s| - d - 1]) && forall i | |s| - d <= i < |s| :: IsDigit(s[i])
    ensures TrailingDigits(s) == d
  {
    if d > 0 {
      DigitsAtEnd(s[..|s| - 1], d - 1);
    }
  }

  lemma {:induction false} EndsInDigits(s: string)
    ensures forall i | |s| - TrailingDigits(s) <= i < |s| :: IsDigit(s[i])
  {
    if s != "" && IsDigit(s[|s| - 1]) {
      EndsInDigits(s[..|s| - 1]);
    }
  }

  /** The final version is the whole of it: what precedes its digits is `/v`. */
  lemma VersionLengthIff(s: string, n: nat)
    requires 0 < n <= |s|
    ensures IsVersion(s[|s| - n..]) <==> VersionLength(s) == n
  {
    var v := s[|s| - n..];
    EndsInDigits(s);
    if IsVersion(v) {
      assert s[|s| - n] == v[0] && s[|s| - n + 1] == v[1];
      assert forall i | |s| - n + 2 <= i < |s| :: s[i] == v[i - (|s| - n)];
      DigitsAtEnd(s, n - 2);
    }
  }

  /**
   * What is cut off is the match that begins furthest to the left, as a search for the pattern
   * finds it; 0 when none exists.
   */
  lemma MessagesLengthIsLeftmost(base: string, endpoint: string, n: nat)
    requires endpoint != "" && n <= |base|
    ensures IsMessages(base[|base| - n..], endpoint) ==> n <= MessagesLength(base, endpoint)
    ensures n == MessagesLength(base, endpoint) > 0 ==> IsMessages(base[|base| - n..], endpoint)
  {
    var t := base[|base| - n..];
    if IsMessages(t, endpoint) {
      var v :| 0 <= v <= |t| && (v == 0 || IsVersion(t[..v])) && Lower(t[v..]) == endpoint;
      EndsInPart(base, n, v, endpoint);
      var front := base[..|base| - |endpoint|];
      if v > 0 {
        assert front[|front| - v..] == t[..v];
        VersionLengthIff(front, v);
      }
    }
    if n == MessagesLength(base, endpoint) > 0 {
      var front := base[..|base| - |endpoint|];
      var v := VersionLength(front);
      if v > 0 {
        VersionLengthIff(front, v);
        assert t[..v] == front[|front| - v..];
      }
      assert t[v..] == base[|base| - |endpoint|..];
      LowerOfEnd(base, |endpoint|);
    }
  }

  lemma LowerOfEnd(s: string, n: nat)
    requires n <= |s|
    ensures Lower(s[|s| - n..]) == Lower(s)[|s| - n..]
  {
  }

  lemma EndsInPart(base: string, n: nat, v: nat, endpoint: string)
    requires v <= n <= |base| && Lower(base[|base| - n..][v..]) == endpoint
    ensures EndsWithIgnoringCase(base, endpoint) && n == v + |endpoint|
  {
    assert base[|base| - n..][v..] == base[|base| - (n - v)..];
    LowerOfEnd(base, n - v);
  }

  method StripKnownEndpointSuffix(url: string) returns (parts: Split)
    ensures parts == Strip(url)
  {
    var base := url[..QueryStart(url)];
    while base != "" && base[|base| - 1] == '/'
      invariant StripSlashes(base) == PlainBase(url)
      decreases |base|
    {
      base := base[..|base| - 1];
    }
    var countTokensMatch := MessagesLength(base, COUNT_TOKENS);
    if countTokensMatch > 0 {
      base := base[..|base| - countTokensMatch];
    } else {
      var messagesMatch := MessagesLength(base, MESSAGES);
      if messagesMatch > 0 {
        base := base[..|base| - messagesMatch];
      } else if EndsWithIgnoringCase(base, CHAT_PATH) {
        base := base[..|base| - |CHAT_PATH|];
      } else if EndsWithIgnoringCase(base, MODELS_PATH) {
        base := base[..|base| - |MODELS_PATH|];
      }
    }
    parts := Split(base, url[QueryStart(url)..]);
  }

  /** A path put behind a stripped base; a version the two share is written once. */
  function Attach(parts: Split, path: string): string {
    var normalized := if StartsWith(path, "/") then path else "/" + path;
    var v := VersionLength(parts.base);
    var version := Lower(parts.base[|parts.base| - v..]);
    if v > 0 && StartsWith(Lower(normalized), version + "/") then parts.base + normalized[v..] + parts.suffix
    else parts.base + normalized + parts.suffix
  }

  function Join(url: string, path: string): string {
    Attach(Strip(url), path)
  }

  // ----------------------------------------------------------------- stripping undoes joining

  predicate Suffix(s: string) {
    s == "" || StartsQuery(s[0])
  }

  lemma {:induction false} QueryStartAt(base: string, suffix: string)
    requires NoQuery(base) && Suffix(suffix)
    ensures QueryStart(base + suffix) == |base|
  {
    if base == "" {
      assert base + suffix == suffix;
    } else {
      assert base[0] in base;
      assert (base + suffix)[1..] == base[1..] + suffix;
      QueryStartAt(base[1..], suffix);
    }
  }

  lemma {:induction false} QuerySplits(url: string)
    ensures NoQuery(url[..QueryStart(url)]) && Suffix(url[QueryStart(url)..])
  {
    if url != "" && !StartsQuery(url[0]) {
      QuerySplits(url[1..]);
      assert url[..QueryStart(url)] == [url[0]] + url[1..][..QueryStart(url[1..])];
    }
  }

  lemma {:induction false} StripSlashesIsPrefix(s: string)
    ensures StripSlashes(s) <= s
  {
    if s != "" && s[|s| - 1] == '/' {
      StripSlashesIsPrefix(s[..|s| - 1]);
    }
  }

  /** A stripped base has no query, and the kept suffix is empty or begins with one. */
  lemma StripShape(url: string)
    ensures NoQuery(Strip(url).base) && Suffix(Strip(url).suffix)
  {
    QuerySplits(url);
    StripSlashesIsPrefix(url[..QueryStart(url)]);
  }

  predicate OpenAIPath(path: string) {
    path == CHAT_PATH || path == MODELS_PATH
  }

  lemma EndOfConcat(a: string, b: string, pat: string)
    requires |pat| <= |b|
    ensures EndsWithIgnoringCase(a + b, pat) <==> EndsWithIgnoringCase(b, pat)
  {
    LowerConcat(a, b);
    assert Lower(a + b)[|a + b| - |pat|..] == Lower(b)[|b| - |pat|..];
  }

  /** A path that ends differently from a pattern keeps the pattern from being the end. */
  lemma NotAtEnd(a: string, path: string, pat: string, k: nat)
    requires k < |pat| && k < |path|
    requires LowerChar(path[|path| - 1 - k]) != pat[|pat| - 1 - k]
    ensures !EndsWithIgnoringCase(a + path, pat)
  {
    var s := Lower(a + path);
    assert s[|s| - 1 - k] == LowerChar(path[|path| - 1 - k]);
    assert |pat| <= |s| ==> s[|s| - |pat|..][|pat| - 1 - k] == s[|s| - 1 - k];
  }

  lemma EndpointOfOpenAIPath(base: string, path: string)
    requires OpenAIPath(path)
    ensures EndpointLength(base + path) == |path|
  {
    var countTokens, messages := "/messages/count_tokens", "/messages";
    if path == CHAT_PATH {
      NotAtEnd(base, path, countTokens, 2);
      NotAtEnd(base, path, messages, 1);
      EndOfConcat(base, path, CHAT_PATH);
      assert Lower(path) == path;
    } else {
      NotAtEnd(base, path, countTokens, 1);
      NotAtEnd(base, path, messages, 1);
      NotAtEnd(base, path, CHAT_PATH, 1);
      EndOfConcat(base, path, MODELS_PATH);
      assert Lower(path) == path;
    }
  }

  lemma PlainBaseOf(base: string, suffix: string)
    requires NoQuery(base) && Suffix(suffix)
    requires base != "" && base[|base| - 1] != '/'
    ensures QueryStart(base + suffix) == |base| && PlainBase(base + suffix) == base
  {
    QueryStartAt(base, suffix);
    assert (base + suffix)[..|base|] == base;
  }

  lemma StripOf(base: string, suffix: string)
    requires NoQuery(base) && Suffix(suffix)
    requires base != "" && base[|base| - 1] != '/'
    ensures Strip(base + suffix) == Split(base[..|base| - EndpointLength(base)], suffix)
  {
    PlainBaseOf(base, suffix);
  }

  /** A base, an OpenAI path and a suffix are taken apart into the base and the suffix. */
  lemma StripOfParts(base: string, path: string, suffix: string)
    requires NoQuery(base) && Suffix(suffix) && OpenAIPath(path)
    ensures Strip(base + path + suffix) == Split(base, suffix)
  {
    OpenAIPathIsPlain(path);
    EndpointOfOpenAIPath(base, path);
    StripOf(base + path, suffix);
    assert (base + path)[..|base|] == base;
  }

  lemma VersionShape(base: string)
    requires VersionLength(base) > 0
    ensures var version := Lower(base[|base| - VersionLength(base)..]);
      |version| >= 3 && version[0] == '/' && version[1] == 'v'
  {
  }

  /** A path that can neither merge with a version nor be mistaken for a query or a trailing slash. */
  predicate PlainPath(path: string) {
    |path| >= 2 && path[0] == '/' && LowerChar(path[1]) != 'v' && path[|path| - 1] != '/' && NoQuery(path)
  }

  lemma OpenAIPathIsPlain(path: string)
    requires OpenAIPath(path)
    ensures PlainPath(path) && Lower(path) == path
  {
  }

  lemma AttachPlain(parts: Split, path: string)
    requires PlainPath(path)
    ensures Attach(parts, path) == parts.base + path + parts.suffix
  {
    assert path[..1] == "/";
    var v := VersionLength(parts.base);
    if v > 0 {
      VersionShape(parts.base);
      var start := Lower(parts.base[|parts.base| - v..]) + "/";
      assert start[1] == 'v' != Lower(path)[1];
    }
  }

  /**
   * Joining with a chat or models path is absorbed by any later join: the second join sees
   * the same base, and query and hash are preserved.
   */
  lemma JoinAbsorbsOpenAIJoin(url: string, first: string, path: string)
    requires OpenAIPath(first)
    ensures Strip(Join(url, first)) == Strip(url)
    ensures Join(Join(url, first), path) == Join(url, path)
  {
    StripShape(url);
    OpenAIPathIsPlain(first);
    AttachPlain(Strip(url), first);
    StripOfParts(Strip(url).base, first, Strip(url).suffix);
  }

  // ------------------------------------------------------- the messages path, exactly

  /** The base ends in `/v1`, in either case: the guard under which a join merges versions. */
  predicate EndsInV1(base: string) {
    EndsWithIgnoringCase(base, "/v1")
  }

  lemma VersionIsV1(base: string)
    ensures EndsInV1(base) <==> VersionLength(base) > 0 && Lower(base[|base| - VersionLength(base)..]) == "/v1"
    ensures EndsInV1(base) ==> VersionLength(base) == 3
  {
    var v := VersionLength(base);
    if EndsInV1(base) {
      var n := |base|;
      assert Lower(base)[n - 3..] == "/v1";
      assert Lower(base)[n - 3..][0] == LowerChar(base[n - 3]) && Lower(base)[n - 3..][1] == LowerChar(base[n - 2])
          && Lower(base)[n - 3..][2] == LowerChar(base[n - 1]);
      assert TrailingDigits(base[..n - 1]) == 0;
      assert TrailingDigits(base) == 1;
      assert Lower(base[n - 3..]) == Lower(base)[n - 3..];
    } else if v > 0 {
      assert Lower(base[|base| - v..]) == Lower(base)[|base| - v..];
    }
  }

  lemma LowerMessages()
    ensures Lower(MESSAGES_PATH) == MESSAGES_PATH
  {
    assert forall i | 0 <= i < |MESSAGES_PATH| :: LowerChar(MESSAGES_PATH[i]) == MESSAGES_PATH[i];
  }

  lemma MergedMessages(parts: Split)
    requires EndsInV1(parts.base)
    ensures Attach(parts, MESSAGES_PATH) == parts.base + "/messages" + parts.suffix
  {
    VersionIsV1(parts.base);
    LowerMessages();
    assert "/v1" + "/" == MESSAGES_PATH[..4];
    assert MESSAGES_PATH[3..] == "/messages";
  }

  lemma UnmergedMessages(parts: Split)
    requires !EndsInV1(parts.base)
    ensures Attach(parts, MESSAGES_PATH) == parts.base + MESSAGES_PATH + parts.suffix
  {
    VersionIsV1(parts.base);
    LowerMessages();
    var v := VersionLength(parts.base);
    if v > 0 && StartsWith(MESSAGES_PATH, Lower(parts.base[|parts.base| - v..]) + "/") {
      VersionBeforeSlash(parts.base);
    }
  }

  lemma AttachMessages(parts: Split)
    ensures Attach(parts, MESSAGES_PATH) ==
      if EndsInV1(parts.base) then parts.base + "/messages" + parts.suffix
      else parts.base + "/v1/messages" + parts.suffix
  {
    if EndsInV1(parts.base) {
      MergedMessages(parts);
    } else {
      UnmergedMessages(parts);
    }
  }

  /** The only version the messages path can begin with is v1. */
  lemma VersionBeforeSlash(base: string)
    requires VersionLength(base) > 0
    requires StartsWith(MESSAGES_PATH, Lower(base[|base| - VersionLength(base)..]) + "/")
    ensures Lower(base[|base| - VersionLength(base)..]) == "/v1"
  {
    var v := VersionLength(base);
    var version := Lower(base[|base| - v..]);
    assert v >= 3 && (version + "/")[v] == '/' == MESSAGES_PATH[v];
    assert v == 3;
    assert version == (version + "/")[..3] == MESSAGES_PATH[..3] == "/v1";
  }

  lemma EndpointOfMessages(base: string)
    ensures EndpointLength(base + "/messages") == |"/messages"| + VersionLength(base)
  {
    var path := "/messages";
    NotAtEnd(base, path, "/messages/count_tokens", 1);
    EndOfConcat(base, path, path);
    assert Lower(path) == path;
    assert (base + path)[..|base|] == base;
  }

  lemma StripOfMessages(base: string, suffix: string)
    requires NoQuery(base) && Suffix(suffix)
    ensures Strip(base + "/messages" + suffix) == Split(base[..|base| - VersionLength(base)], suffix)
  {
    var path := "/messages";
    assert NoQuery(path) && path[|path| - 1] == 's';
    EndpointOfMessages(base);
    StripOf(base + path, suffix);
    var n := |base| - VersionLength(base);
    assert (base + path)[..n] == base[..n];
  }

  lemma VersionOfV1(base: string)
    ensures VersionLength(base + "/v1") == 3
  {
    LowerConcat(base, "/v1");
    assert Lower("/v1") == "/v1";
    VersionIsV1(base + "/v1");
  }

  /** What a messages join leaves for the next join: the base, or the base without its v1. */
  function AfterMessages(parts: Split): Split {
    if EndsInV1(parts.base) then Split(parts.base[..|parts.base| - 3], parts.suffix) else parts
  }

  lemma StripOfAttachedMessages(parts: Split)
    requires NoQuery(parts.base) && Suffix(parts.suffix)
    ensures Strip(Attach(parts, MESSAGES_PATH)) == AfterMessages(parts)
  {
    var base, suffix := parts.base, parts.suffix;
    AttachMessages(parts);
    if EndsInV1(base) {
      VersionIsV1(base);
      StripOfMessages(base, suffix);
    } else {
      VersionOfV1(base);
      assert NoQuery("/v1");
      StripOfMessages(base + "/v1", suffix);
      WithV1(base);
    }
  }

  lemma WithV1(base: string)
    ensures base + "/v1/messages" == base + "/v1" + "/messages"
    ensures (base + "/v1")[..|base|] == base
  {
  }

  lemma StripAfterMessagesJoin(url: string)
    ensures Strip(Join(url, MESSAGES_PATH)) == AfterMessages(Strip(url))
  {
    StripShape(url);
    StripOfAttachedMessages(Strip(url));
  }

  /** A messages join is absorbed by every later join exactly when the stripped base does not end in v1. */
  lemma MessagesJoinAbsorbedIff(url: string)
    ensures (forall path :: Join(Join(url, MESSAGES_PATH), path) == Join(url, path)) <==> !EndsInV1(Strip(url).base)
  {
    StripAfterMessagesJoin(url);
    var parts := Strip(url);
    if EndsInV1(parts.base) {
      OpenAIPathIsPlain(MODELS_PATH);
      AttachPlain(parts, MODELS_PATH);
      AttachPlain(AfterMessages(parts), MODELS_PATH);
      assert Join(Join(url, MESSAGES_PATH), MODELS_PATH) != Join(url, MODELS_PATH);
    }
  }

  lemma AttachMessagesTwice(parts: Split)
    ensures Attach(AfterMessages(parts), MESSAGES_PATH) == Attach(parts, MESSAGES_PATH) <==>
      !EndsInV1(parts.base) || (EndsWith(parts.base, "/v1") && !EndsInV1(parts.base[..|parts.base| - 3]))
  {
    var base, suffix := parts.base, parts.suffix;
    AttachMessages(parts);
    if EndsInV1(base) {
      var shorter, version := base[..|base| - 3], base[|base| - 3..];
      AttachMessages(AfterMessages(parts));
      assert base == shorter + version;
      if EndsInV1(shorter) {
        assert |shorter + "/messages" + suffix| < |base + "/messages" + suffix|;
      } else {
        WithV1(shorter);
        Cancel(shorter, "/v1", version, "/messages", suffix);
      }
    }
  }

  lemma Cancel(before: string, x: string, y: string, middle: string, after: string)
    requires |x| == |y|
    ensures before + x + middle + after == before + y + middle + after <==> x == y
  {
    var n := |before|;
    assert (before + x + middle + after)[n..n + |x|] == x;
    assert (before + y + middle + after)[n..n + |y|] == y;
  }

  /** Joining with the messages path twice is joining once, unless versions are stacked or spelled V1. */
  lemma MessagesJoinIdempotentIff(url: string)
    ensures
      var base := Strip(url).base;
      Join(Join(url, MESSAGES_PATH), MESSAGES_PATH) == Join(url, MESSAGES_PATH) <==>
        !EndsInV1(base) || (EndsWith(base, "/v1") && !EndsInV1(base[..|base| - 3]))
  {
    StripAfterMessagesJoin(url);
    AttachMessagesTwice(Strip(url));
  }

  // --------------------------------------------------------------- classifying bases

  const ANTHROPIC := "/api/anthropic"

  predicate IsAnthropic(url: string) {
    var base := Lower(PlainBase(url));
    Contains(base, ANTHROPIC + "/") || EndsWith(base, ANTHROPIC)
  }

  /** The first position at or after `from` where `pat` occurs, or -1. */
  function FirstOccurrence(s: string, pat: string, from: nat): (i: int)
    requires from <= |s|
    ensures i == -1 || (from <= i && OccursAt(s, pat, i))
    decreases |s| - from
  {
    if OccursAt(s, pat, from) then from
    else if from == |s| then -1
    else FirstOccurrence(s, pat, from + 1)
  }

  predicate IsCoding(url: string) {
    var base, marker := Lower(PlainBase(url)), "/api/coding/paas/v";
    var i := FirstOccurrence(base, marker, 0);
    i >= 0 && i + |marker| < |base| && IsDigit(base[i + |marker|])
  }

  lemma PlainBaseOfAttached(parts: Split, path: string)
    requires NoQuery(parts.base) && Suffix(parts.suffix) && PlainPath(path)
    ensures PlainBase(Attach(parts, path)) == parts.base + path
  {
    AttachPlain(parts, path);
    PlainBaseOf(parts.base + path, parts.suffix);
  }

  /** What stripping removes is nothing or begins with a slash, so an Anthropic base cannot hide behind it. */
  lemma RemovedStartsWithSlash(url: string)
    ensures
      var (whole, base) := (PlainBase(url), Strip(url).base);
      base <= whole && (base == whole || whole[|base|] == '/')
  {
    var base := PlainBase(url);
    var n := EndpointLength(base);
    if n > 0 {
      var low := Lower(base);
      assert low[|base| - n] == LowerChar(base[|base| - n]);
      if EndsWithIgnoringCase(base, "/messages/count_tokens") {
        RemovedMessages(base, "/messages/count_tokens");
      } else if EndsWithIgnoringCase(base, "/messages") {
        RemovedMessages(base, "/messages");
      } else {
        assert low[|base| - n] == low[|base| - n..][0] == '/';
      }
    }
  }

  lemma RemovedMessages(base: string, endpoint: string)
    requires endpoint != "" && endpoint[0] == '/' && EndsWithIgnoringCase(base, endpoint)
    ensures base[|base| - |endpoint| - VersionLength(base[..|base| - |endpoint|])] == '/'
  {
    var n := |base| - |endpoint|;
    assert Lower(base)[n] == Lower(base)[n..][0] == '/';
    assert LowerChar(base[n]) == '/';
  }

  /** Joining a base that is not Anthropic with a chat or models path never makes it look Anthropic. */
  lemma JoinStaysOpenAI(url: string, path: string)
    requires !IsAnthropic(url) && OpenAIPath(path)
    ensures !IsAnthropic(Join(url, path))
  {
    StripShape(url);
    OpenAIPathIsPlain(path);
    PlainBaseOfAttached(Strip(url), path);
    RemovedStartsWithSlash(url);
    var base, whole := Strip(url).base, PlainBase(url);
    LowerConcat(base, path);
    AnthropicMarker();
    OpenAIPathAvoidsMarker(path);
    StraddleFree(Lower(base), Lower(whole), path, ANTHROPIC + "/");
  }

  lemma StraddleFree(low: string, lowWhole: string, path: string, marker: string)
    requires low <= lowWhole && (low == lowWhole || lowWhole[|low|] == '/')
    requires PlainPath(path) && SlashesLeadTo(marker, 'a') && NoSlashLeadsTo(path, 'a')
    requires marker[|marker| - 2] != path[|path| - 1]
    requires !Contains(lowWhole, marker) && !EndsWith(lowWhole, marker[..|marker| - 1])
    ensures !Contains(low + path, marker) && !EndsWith(low + path, marker[..|marker| - 1])
  {
    var joined, name := low + path, marker[..|marker| - 1];
    assert |name| <= |joined| ==> joined[|joined| - |name|..][|name| - 1] == joined[|joined| - 1];
    if i :| 0 <= i <= |joined| && OccursAt(joined, marker, i) {
      NoStraddle(low, lowWhole, path, i, marker);
    }
  }

  /** A marker that starts and ends with a slash, and whose other slashes are all followed by `next`. */
  ghost predicate SlashesLeadTo(marker: string, next: char) {
    && |marker| >= 2 && marker[0] == '/' == marker[|marker| - 1]
    && forall k | 0 <= k < |marker| - 1 && marker[k] == '/' :: marker[k + 1] == next
  }

  ghost predicate NoSlashLeadsTo(path: string, next: char) {
    forall k | 0 <= k < |path| - 1 && path[k] == '/' :: path[k + 1] != next
  }

  /**
   * A marker in `low + path` is already visible in the base `low` was stripped from: inside
   * it, or as its end, or in front of the slash that was stripped.
   */
  lemma NoStraddle(low: string, lowWhole: string, path: string, i: nat, marker: string)
    requires low <= lowWhole && (low == lowWhole || lowWhole[|low|] == '/')
    requires PlainPath(path) && SlashesLeadTo(marker, 'a') && NoSlashLeadsTo(path, 'a')
    requires OccursAt(low + path, marker, i)
    ensures Contains(lowWhole, marker) || EndsWith(lowWhole, marker[..|marker| - 1])
  {
    var joined, end := low + path, i + |marker|;
    if end <= |low| {
      assert lowWhole[i..end] == joined[i..end];
      assert OccursAt(lowWhole, marker, i);
    } else if end == |low| + 1 {
      assert joined[i..end] == low[i..] + "/";
      assert marker[..|marker| - 1] == low[i..];
      if low != lowWhole {
        assert lowWhole[i..end] == low[i..] + "/";
        assert OccursAt(lowWhole, marker, i);
      }
    } else {
      var k := if i <= |low| then |low| - i else 0;
      MarkerAt(joined, marker, i, k);
      MarkerAt(joined, marker, i, k + 1);
      assert false;
    }
  }

  lemma MarkerAt(joined: string, marker: string, i: nat, k: nat)
    requires OccursAt(joined, marker, i) && k < |marker|
    ensures marker[k] == joined[i + k]
  {
    assert joined[i..i + |marker|][k] == joined[i + k];
  }

  lemma OpenAIPathAvoidsMarker(path: string)
    requires OpenAIPath(path)
    ensures NoSlashLeadsTo(path, 'a') && path[|path| - 1] == 's'
  {
  }

  lemma AnthropicMarker()
    ensures SlashesLeadTo(ANTHROPIC + "/", 'a')
    ensures (ANTHROPIC + "/")[..|ANTHROPIC + "/"| - 1] == ANTHROPIC
  {
  }

  // --------------------------------------------------------------------- building URLs

  datatype Region = International | China

  /** The provider-specific fields these builders read; a field that is not text is absent. */
  datatype ProviderData = ProviderData(apiRegion: Option<string>, baseUrl: Option<string>, modelsUrl: Option<string>)

  function RegionOf(data: ProviderData): Region {
    if data.apiRegion == Some("china") then China else International
  }

  function Host(region: Region): string {
    match region
    case International => "https://api.z.ai"
    case China => "https://open.bigmodel.cn"
  }

  /** What the literal default URLs of a region have in common. */
  function DefaultRoot(region: Region): string {
    Host(region) + "/api/coding/paas/v4"
  }

  function DefaultBaseUrl(region: Region): string {
    DefaultRoot(region) + "/chat/completions"
  }

  function DefaultModelsUrl(region: Region): string {
    DefaultRoot(region) + "/models"
  }

  function NonBlank(v: Option<string>): Option<string> {
    if v.Some? && Trim(v.value) != "" then Some(Trim(v.value)) else None
  }

  function BaseUrl(data: ProviderData, fallback: Option<string>): string {
    var configured := NonBlank(data.baseUrl);
    if configured.Some? then configured.value
    else if NonBlank(fallback).Some? && IsCoding(fallback.value) then NonBlank(fallback).value
    else DefaultBaseUrl(RegionOf(data))
  }

  function OpenAIChatUrl(data: ProviderData, fallback: Option<string>): string {
    var configured := BaseUrl(data, fallback);
    var base := if IsAnthropic(configured) then DefaultBaseUrl(RegionOf(data)) else configured;
    Join(base, CHAT_PATH)
  }

  function OpenAIModelsUrl(data: ProviderData): string {
    var custom, configured := NonBlank(data.modelsUrl), NonBlank(data.baseUrl);
    if custom.Some? then custom.value
    else if configured.Some? && !IsAnthropic(configured.value) then Join(configured.value, MODELS_PATH)
    else DefaultModelsUrl(RegionOf(data))
  }

  lemma WithoutRIsNotAnthropic(url: string)
    requires forall c | c in url :: LowerChar(c) != 'r'
    ensures !IsAnthropic(url)
  {
    StripSlashesIsPrefix(url[..QueryStart(url)]);
    var base, low := PlainBase(url), Lower(PlainBase(url));
    forall k | 0 <= k < |low| ensures low[k] != 'r' {
      assert low[k] == LowerChar(base[k]) && base[k] == url[k];
    }
    var marker := ANTHROPIC + "/";
    assert marker[9] == 'r' == ANTHROPIC[9];
    forall i | 0 <= i <= |low| ensures !OccursAt(low, marker, i) {
      assert 0 <= i <= |low| - |marker| ==> low[i..i + |marker|][9] == low[i + 9];
    }
    assert |ANTHROPIC| <= |low| ==> low[|low| - |ANTHROPIC|..][9] == low[|low| - |ANTHROPIC| + 9];
  }

  /** No letter of `s`, in either case, is the `r` every Anthropic base contains, and there is no query. */
  ghost predicate Harmless(s: string) {
    forall c | c in s :: LowerChar(c) != 'r' && !StartsQuery(c)
  }

  lemma InternationalHost()
    ensures Harmless("https://api.z.ai")
  {
  }

  lemma ChinaHost()
    ensures Harmless("https://open.bigmodel.cn")
  {
  }

  lemma CodingPath()
    ensures Harmless("/api/coding/paas/v4")
  {
  }

  lemma DefaultRootChars(region: Region)
    ensures Harmless(DefaultRoot(region))
  {
    InternationalHost();
    ChinaHost();
    CodingPath();
  }

  lemma DefaultBases(region: Region)
    ensures !IsAnthropic(DefaultBaseUrl(region))
    ensures Join(DefaultBaseUrl(region), MODELS_PATH) == DefaultModelsUrl(region)
  {
    DefaultRootChars(region);
    var root := DefaultRoot(region);
    assert forall c | c in CHAT_PATH :: LowerChar(c) != 'r';
    WithoutRIsNotAnthropic(root + CHAT_PATH);
    assert root + CHAT_PATH + "" == root + CHAT_PATH && root + MODELS_PATH + "" == root + MODELS_PATH;
    StripOfParts(root, CHAT_PATH, "");
    OpenAIPathIsPlain(MODELS_PATH);
    AttachPlain(Split(root, ""), MODELS_PATH);
  }

  /**
   * Whatever the provider data and the fallback, the chat URL is never classified as
   * Anthropic, not even after it is stripped and joined again with an OpenAI path.
   */
  lemma ChatUrlIsNeverAnthropic(data: ProviderData, fallback: Option<string>, path: string)
    requires OpenAIPath(path)
    ensures !IsAnthropic(OpenAIChatUrl(data, fallback))
    ensures !IsAnthropic(Join(OpenAIChatUrl(data, fallback), path))
  {
    var configured := BaseUrl(data, fallback);
    var base := if IsAnthropic(configured) then DefaultBaseUrl(RegionOf(data)) else configured;
    DefaultBases(RegionOf(data));
    JoinStaysOpenAI(base, CHAT_PATH);
    JoinStaysOpenAI(base, path);
    JoinAbsorbsOpenAIJoin(base, CHAT_PATH, path);
  }

  /** With a configured base and no models URL of its own, chat and models URLs share base, query and hash. */
  lemma ChatAndModelsUrlsAgree(data: ProviderData, fallback: Option<string>)
    requires NonBlank(data.baseUrl).Some? && NonBlank(data.modelsUrl).None?
    ensures OpenAIModelsUrl(data) == Join(OpenAIChatUrl(data, fallback), MODELS_PATH)
    ensures !IsAnthropic(OpenAIModelsUrl(data))
  {
    var configured := NonBlank(data.baseUrl).value;
    var base := if IsAnthropic(configured) then DefaultBaseUrl(RegionOf(data)) else configured;
    DefaultBases(RegionOf(data));
    JoinAbsorbsOpenAIJoin(base, CHAT_PATH, MODELS_PATH);
    JoinStaysOpenAI(base, MODELS_PATH);
  }
}
