/**
 * The identity of a Codex connection: the persisted fingerprint seed, the session and
 * thread ids derived from it, and the decision whether a client's turn-state echo may
 * go upstream. The hash behind the derived ids is a parameter, `derive`; what this module
 * proves is about the strings fed to it.
 */
module CodexIdentity {
  import opened Options
  import opened Text
  import opened CodexTurnState

  const SEED_KEY := "codexFingerprintSeed"
  const MODE_KEY := "codexFingerprintMode"
  const MODE_KEY_SNAKE := "codex_fingerprint_mode"
  const SESSION_PREFIX := "omniroute:codex-session-id:v1:"
  const THREAD_PREFIX := "omniroute:codex-thread-id:v1:"
  const SESSION_PREFIX_V2 := "omniroute:codex-session-id:v2:"
  const THREAD_PREFIX_V2 := "omniroute:codex-thread-id:v2:"
  const TURN_STATE_HEADER := "x-codex-turn-state"

  /** A field of a stored record or a header value; only text is ever looked at. */
  datatype Value = Str(text: string) | Other

  type Record = map<string, Value>

  function Field(data: Option<Record>, key: string): Option<Value> {
    if data.Some? && key in data.value then Some(data.value[key]) else None
  }

  function NonEmpty(v: Option<Value>): Option<string> {
    if v.Some? && v.value.Str? then Normalize(Some(v.value.text)) else None
  }

  /** `t` is the text of a field or header value, without the blank text around it. */
  predicate TextOf(v: Option<Value>, t: string) {
    v.Some? && v.value.Str? && !Blank(v.value.text) && t == Trim(v.value.text)
  }

  lemma NonEmptyIff(v: Option<Value>)
    ensures forall t :: NonEmpty(v) == Some(t) <==> TextOf(v, t)
    ensures NonEmpty(v).None? <==> forall t :: !TextOf(v, t)
  {
    if v.Some? && v.value.Str? {
      TrimEmptyIff(v.value.text);
      assert !Blank(v.value.text) ==> TextOf(v, Trim(v.value.text));
    }
  }

  // -------------------------------------------------------------- fingerprint seed

  predicate IsHex(c: char) {
    IsDigit(c) || 'a' <= LowerChar(c) <= 'f'
  }

  predicate IsUuid(s: string) {
    |s| == 36 &&
    forall i | 0 <= i < 36 ::
      if i in {8, 13, 18, 23} then s[i] == '-'
      else if i == 14 then '1' <= s[i] <= '5'
      else if i == 19 then LowerChar(s[i]) in {'8', '9', 'a', 'b'}
      else IsHex(s[i])
  }

  predicate HexDigit(c: char) {
    '0' <= c <= '9' || 'a' <= c <= 'f' || 'A' <= c <= 'F'
  }

  predicate HexText(s: string) {
    forall i | 0 <= i < |s| :: HexDigit(s[i])
  }

  /** The five groups of a UUID, with its version and variant digits. */
  lemma UuidIff(s: string)
    ensures IsUuid(s) <==>
              && |s| == 36 && s[8] == s[13] == s[18] == s[23] == '-'
              && HexText(s[..8]) && HexText(s[9..13]) && '1' <= s[14] <= '5' && HexText(s[15..18])
              && s[19] in {'8', '9', 'a', 'b', 'A', 'B'} && HexText(s[20..23]) && HexText(s[24..])
  {
    if |s| == 36 {
      forall i | 0 <= i < 36 ensures IsHex(s[i]) <==> HexDigit(s[i]) {
      }
      assert forall i | 9 <= i < 13 :: s[9..13][i - 9] == s[i];
      assert forall i | 15 <= i < 18 :: s[15..18][i - 15] == s[i];
      assert forall i | 20 <= i < 23 :: s[20..23][i - 20] == s[i];
      assert forall i | 24 <= i < 36 :: s[24..][i - 24] == s[i];
      assert forall i | 0 <= i < 8 :: s[..8][i] == s[i];
    }
  }

  /** The persisted seed, when it is present and a UUID. */
  function FingerprintSeed(data: Option<Record>): Option<string> {
    var v := Field(data, SEED_KEY);
    if v.Some? && v.value.Str? && IsUuid(Trim(v.value.text)) then Some(Trim(v.value.text)) else None
  }

  lemma FingerprintSeedIff(data: Option<Record>, t: string)
    ensures FingerprintSeed(data) == Some(t) <==> TextOf(Field(data, "codexFingerprintSeed"), t) && IsUuid(t)
  {
    var v := Field(data, SEED_KEY);
    if v.Some? && v.value.Str? {
      TrimEmptyIff(v.value.text);
    }
  }

  datatype Mode = Off | Device | Session | Full

  function FingerprintMode(data: Option<Record>): Mode {
    var named := NonEmpty(Field(data, MODE_KEY));
    var snake := NonEmpty(Field(data, MODE_KEY_SNAKE));
    var raw := if named.Some? then Lower(named.value) else if snake.Some? then Lower(snake.value) else "";
    match raw
    case "off" => Off
    case "device" => Device
    case "full" => Full
    case _ => Session
  }

  datatype Credentials = Credentials(accessToken: Option<Value>, refreshToken: Option<Value>)

  predicate IsOAuth(credentials: Option<Credentials>) {
    credentials.Some? &&
    (NonEmpty(credentials.value.accessToken).Some? || NonEmpty(credentials.value.refreshToken).Some?)
  }

  predicate Says(t: string, mode: Mode) {
    match mode
    case Off => Lower(t) == "off"
    case Device => Lower(t) == "device"
    case Full => Lower(t) == "full"
    case Session => Lower(t) != "off" && Lower(t) != "device" && Lower(t) != "full"
  }

  /**
   * The mode is what the first of the two mode fields with text says, in any case; text that
   * names no mode, and no text at all, mean `session`.
   */
  lemma ModeIsFirstNamed(data: Option<Record>)
    ensures
      var (named, snake) := (Field(data, "codexFingerprintMode"), Field(data, "codex_fingerprint_mode"));
      && (forall t | TextOf(named, t) :: Says(t, FingerprintMode(data)))
      && (forall t | (forall u :: !TextOf(named, u)) && TextOf(snake, t) :: Says(t, FingerprintMode(data)))
      && ((forall t :: !TextOf(named, t) && !TextOf(snake, t)) ==> FingerprintMode(data) == Session)
  {
    NonEmptyIff(Field(data, MODE_KEY));
    NonEmptyIff(Field(data, MODE_KEY_SNAKE));
  }

  /** Credentials are OAuth exactly when one of the two tokens has text. */
  lemma OAuthIff(credentials: Credentials)
    ensures IsOAuth(Some(credentials)) <==>
              exists t :: TextOf(credentials.accessToken, t) || TextOf(credentials.refreshToken, t)
    ensures !IsOAuth(None)
  {
    NonEmptyIff(credentials.accessToken);
    NonEmptyIff(credentials.refreshToken);
  }

  /** One save of a connection: what is stored, given what came in and what was stored before. */
  function EnsureSeed(inbound: Option<Record>, credentials: Option<Credentials>, existing: Option<Record>,
                      randomUuid: string): Option<Record> {
    var data := (if inbound.Some? then inbound.value else map[]) - {SEED_KEY};
    var unseeded := if data != map[] then Some(data) else None;
    if !IsOAuth(credentials) then unseeded
    else if FingerprintSeed(existing).Some? then Some(data[SEED_KEY := Str(FingerprintSeed(existing).value)])
    else if FingerprintMode(Some(data)) != Off then Some(data[SEED_KEY := Str(randomUuid)])
    else unseeded
  }

  lemma UuidIsTrimmed(s: string)
    requires IsUuid(s)
    ensures Trim(s) == s
  {
    assert IsHex(s[0]) && IsHex(s[35]);
    TrimFixes(s);
  }

  lemma SeedIsUuid(data: Option<Record>)
    ensures FingerprintSeed(data).Some? ==> IsUuid(FingerprintSeed(data).value)
  {
  }

  /**
   * The seed after a save depends only on the stored seed, the mode and the kind of
   * credentials: an inbound seed is never adopted, and every other field passes through.
   */
  lemma SeedAfterSave(inbound: Option<Record>, credentials: Option<Credentials>, existing: Option<Record>,
                      randomUuid: string)
    requires IsUuid(randomUuid)
    ensures
      var saved := EnsureSeed(inbound, credentials, existing, randomUuid);
      && FingerprintSeed(saved) ==
           (if !IsOAuth(credentials) then None
            else if FingerprintSeed(existing).Some? then FingerprintSeed(existing)
            else if FingerprintMode(inbound) != Off then Some(randomUuid)
            else None)
      && (forall key | key != "codexFingerprintSeed" :: Field(saved, key) == Field(inbound, key))
      && (FingerprintSeed(saved).None? ==> Field(saved, "codexFingerprintSeed").None?)
      && saved != Some(map[])
  {
    UuidIsTrimmed(randomUuid);
    if FingerprintSeed(existing).Some? {
      UuidIsTrimmed(FingerprintSeed(existing).value);
    }
    var data := (if inbound.Some? then inbound.value else map[]) - {SEED_KEY};
    assert Field(Some(data), MODE_KEY) == Field(inbound, MODE_KEY);
    assert Field(Some(data), MODE_KEY_SNAKE) == Field(inbound, MODE_KEY_SNAKE);
    var saved := EnsureSeed(inbound, credentials, existing, randomUuid);
    forall key | key != SEED_KEY ensures Field(saved, key) == Field(inbound, key) {
      assert inbound.Some? && key in inbound.value ==> key in data;
    }
  }

  /** A valid stored seed survives a save exactly when the save carries OAuth credentials. */
  lemma SeedSurvivesIffOAuth(inbound: Option<Record>, credentials: Option<Credentials>, existing: Option<Record>,
                             randomUuid: string)
    requires IsUuid(randomUuid) && FingerprintSeed(existing).Some?
    ensures FingerprintSeed(EnsureSeed(inbound, credentials, existing, randomUuid)) == FingerprintSeed(existing)
       <==> IsOAuth(credentials)
  {
    SeedAfterSave(inbound, credentials, existing, randomUuid);
  }

  // ----------------------------------------------------------------- runs of saves

  /** A connection's life: an initial record, then saves, each fed the previous result. */
  datatype Saves =
    | Initial(stored: Option<Record>)
    | Save(before: Saves, inbound: Option<Record>, credentials: Option<Credentials>, randomUuid: string)

  function Stored(h: Saves): Option<Record> {
    match h
    case Initial(stored) => stored
    case Save(before, inbound, credentials, randomUuid) => EnsureSeed(inbound, credentials, Stored(before), randomUuid)
  }

  /** Every save after `earlier` carries OAuth credentials and a well-formed random UUID. */
  predicate OAuthSince(earlier: Saves, h: Saves) {
    earlier == h || (h.Save? && IsOAuth(h.credentials) && IsUuid(h.randomUuid) && OAuthSince(earlier, h.before))
  }

  /** The seeds a run may hold: the one it started with and the random ones it generated. */
  function OwnSeeds(h: Saves): set<string> {
    match h
    case Initial(stored) => var seed := FingerprintSeed(stored); if seed.Some? then {seed.value} else {}
    case Save(before, _, _, randomUuid) => OwnSeeds(before) + {randomUuid}
  }

  predicate RandomUuidsWellFormed(h: Saves) {
    h.Save? ==> IsUuid(h.randomUuid) && RandomUuidsWellFormed(h.before)
  }

  /** However saves are interleaved, the stored seed never comes from an inbound record. */
  lemma {:induction false} InboundSeedNeverAdopted(h: Saves)
    requires RandomUuidsWellFormed(h)
    ensures FingerprintSeed(Stored(h)).Some? ==> FingerprintSeed(Stored(h)).value in OwnSeeds(h)
  {
    if h.Save? {
      InboundSeedNeverAdopted(h.before);
      SeedAfterSave(h.inbound, h.credentials, Stored(h.before), h.randomUuid);
    }
  }

  /** Once there is a seed, no sequence of OAuth saves changes it. */
  lemma {:induction false} SeedIsStable(earlier: Saves, h: Saves)
    requires OAuthSince(earlier, h)
    requires FingerprintSeed(Stored(earlier)).Some?
    ensures FingerprintSeed(Stored(h)) == FingerprintSeed(Stored(earlier))
  {
    if earlier != h {
      SeedIsStable(earlier, h.before);
      SeedAfterSave(h.inbound, h.credentials, Stored(h.before), h.randomUuid);
    }
  }

  // --------------------------------------------------------------- derived identity

  function AccountSeed(data: Option<Record>, accountKey: Option<string>): string {
    var key := Normalize(accountKey);
    var connection := NonEmpty(Field(data, "connectionId"));
    var workspace := NonEmpty(Field(data, "workspaceId"));
    var account := NonEmpty(Field(data, "accountId"));
    var email := NonEmpty(Field(data, "email"));
    if key.Some? then key.value
    else if connection.Some? then connection.value
    else if workspace.Some? then workspace.value
    else if account.Some? then account.value
    else if email.Some? then email.value
    else "default"
  }

  const ACCOUNT_FIELDS := ["connectionId", "workspaceId", "accountId", "email"]

  /** An account is known by its key, else by the first of its four fields that has text, else by "default". */
  lemma AccountSeedIsFirstText(data: Option<Record>, accountKey: Option<string>)
    ensures
      if accountKey.Some? && !Blank(accountKey.value) then AccountSeed(data, accountKey) == Trim(accountKey.value)
      else
        && (forall n, t | 0 <= n < 4 && TextOf(Field(data, ACCOUNT_FIELDS[n]), t)
                          && (forall m, u | 0 <= m < n :: !TextOf(Field(data, ACCOUNT_FIELDS[m]), u)) ::
              AccountSeed(data, accountKey) == t)
        && ((forall n, t | 0 <= n < 4 :: !TextOf(Field(data, ACCOUNT_FIELDS[n]), t)) ==>
              AccountSeed(data, accountKey) == "default")
  {
    if accountKey.Some? {
      TrimEmptyIff(accountKey.value);
    }
    NonEmptyIff(Field(data, ACCOUNT_FIELDS[0]));
    NonEmptyIff(Field(data, ACCOUNT_FIELDS[1]));
    NonEmptyIff(Field(data, ACCOUNT_FIELDS[2]));
    NonEmptyIff(Field(data, ACCOUNT_FIELDS[3]));
  }

  function SessionSource(data: Option<Record>, accountKey: Option<string>): string {
    var seed := FingerprintSeed(data);
    if seed.Some? then SESSION_PREFIX_V2 + seed.value else SESSION_PREFIX + AccountSeed(data, accountKey)
  }

  function ThreadSource(clientSessionId: string, data: Option<Record>, accountKey: Option<string>): string {
    var seed := FingerprintSeed(data);
    if seed.Some? then THREAD_PREFIX_V2 + seed.value + ":" + clientSessionId
    else THREAD_PREFIX + AccountSeed(data, accountKey) + ":" + clientSessionId
  }

  function ConvergedSessionId(derive: string -> string, data: Option<Record>, accountKey: Option<string>): string {
    derive(SessionSource(data, accountKey))
  }

  function ConvergedThreadId(derive: string -> string, clientSessionId: Option<string>, data: Option<Record>,
                             accountKey: Option<string>): string {
    if Normalize(clientSessionId).None? then ""
    else derive(ThreadSource(clientSessionId.value, data, accountKey))
  }

  /**
   * From the moment a seed is stored, the session id, and the thread id of each client
   * session, are the same after any OAuth saves and for any account key.
   */
  lemma IdentityIsStable(derive: string -> string, earlier: Saves, h: Saves, clientSessionId: Option<string>,
                         oldKey: Option<string>, newKey: Option<string>)
    requires OAuthSince(earlier, h)
    requires FingerprintSeed(Stored(earlier)).Some?
    ensures ConvergedSessionId(derive, Stored(h), newKey) == ConvergedSessionId(derive, Stored(earlier), oldKey)
    ensures ConvergedThreadId(derive, clientSessionId, Stored(h), newKey)
         == ConvergedThreadId(derive, clientSessionId, Stored(earlier), oldKey)
  {
    SeedIsStable(earlier, h);
  }

  /** With persisted seeds, two thread ids share a source only if both seed and client session agree. */
  lemma SeededThreadSourcesAreDistinct(s1: string, d1: Option<Record>, k1: Option<string>,
                                       s2: string, d2: Option<Record>, k2: Option<string>)
    requires FingerprintSeed(d1).Some? && FingerprintSeed(d2).Some?
    requires ThreadSource(s1, d1, k1) == ThreadSource(s2, d2, k2)
    ensures FingerprintSeed(d1) == FingerprintSeed(d2) && s1 == s2
  {
    SeedIsUuid(d1);
    SeedIsUuid(d2);
    var u1, u2 := FingerprintSeed(d1).value, FingerprintSeed(d2).value;
    var n := |THREAD_PREFIX_V2|;
    assert ThreadSource(s1, d1, k1)[n..n + 36] == u1 && ThreadSource(s2, d2, k2)[n..n + 36] == u2;
    assert ThreadSource(s1, d1, k1)[n + 37..] == s1 && ThreadSource(s2, d2, k2)[n + 37..] == s2;
  }

  /** A client session id for which there is a thread id at all. */
  predicate Usable(clientSessionId: string) {
    Normalize(Some(clientSessionId)).Some?
  }

  /** One account seed is the other, continued by a colon and more. */
  predicate Continues(a: string, b: string) {
    StartsWith(a + ":", b + ":")
  }

  /** Without a seed two sources agree only if one account seed continues the other. */
  lemma LegacyCollisionContinues(s1: string, d1: Option<Record>, k1: Option<string>, s2: string, d2: Option<Record>,
                                 k2: Option<string>)
    requires FingerprintSeed(d1).None? && FingerprintSeed(d2).None?
    requires ThreadSource(s1, d1, k1) == ThreadSource(s2, d2, k2)
    ensures Continues(AccountSeed(d1, k1), AccountSeed(d2, k2)) || Continues(AccountSeed(d2, k2), AccountSeed(d1, k1))
  {
    var a1, a2 := AccountSeed(d1, k1), AccountSeed(d2, k2);
    DropPrefix(THREAD_PREFIX, a1, s1);
    DropPrefix(THREAD_PREFIX, a2, s2);
    SameTextNested(a1 + ":", s1, a2 + ":", s2);
  }

  lemma DropPrefix(prefix: string, a: string, s: string)
    ensures (prefix + a + ":" + s)[|prefix|..] == a + ":" + s
  {
  }

  lemma SameTextNested(p: string, s: string, q: string, t: string)
    requires p + s == q + t
    ensures StartsWith(p, q) || StartsWith(q, p)
  {
    if |q| <= |p| {
      assert p[..|q|] == (p + s)[..|q|] == q;
    } else {
      assert q[..|p|] == (q + t)[..|p|] == p;
    }
  }

  /** A seed that continues another collides with it in usable client sessions. */
  lemma ContinuedSeedCollides(d1: Option<Record>, k1: Option<string>, d2: Option<Record>, k2: Option<string>)
    returns (s1: string, s2: string)
    requires FingerprintSeed(d1).None? && FingerprintSeed(d2).None?
    requires AccountSeed(d1, k1) != AccountSeed(d2, k2) && Continues(AccountSeed(d1, k1), AccountSeed(d2, k2))
    ensures Usable(s1) && Usable(s2) && ThreadSource(s1, d1, k1) == ThreadSource(s2, d2, k2)
  {
    var a1, a2 := AccountSeed(d1, k1), AccountSeed(d2, k2);
    s1 := "s";
    var rest := (a1 + ":")[|a2| + 1..];
    s2 := rest + s1;
    assert a1 + ":" == a2 + ":" + rest;
    assert THREAD_PREFIX + a1 + ":" + s1 == THREAD_PREFIX + (a1 + ":") + s1;
    assert THREAD_PREFIX + a2 + ":" + s2 == THREAD_PREFIX + (a2 + ":" + rest) + s1;
    TrimFixes("s");
    EndsUsable(rest, 's');
  }

  lemma EndsUsable(before: string, c: char)
    requires !IsSpace(c)
    ensures Usable(before + [c])
  {
    var s := before + [c];
    var left, right := TrimParts(s);
    assert s[|before|] == c && c in left + Trim(s) + right;
    assert c in Trim(s);
  }

  /**
   * Without a seed, two different accounts can be given the same thread id source exactly
   * when one account's seed continues the other's past a colon.
   */
  lemma LegacyThreadSourcesCollideIff(d1: Option<Record>, k1: Option<string>, d2: Option<Record>, k2: Option<string>)
    requires FingerprintSeed(d1).None? && FingerprintSeed(d2).None?
    requires AccountSeed(d1, k1) != AccountSeed(d2, k2)
    ensures (exists s1, s2 :: Usable(s1) && Usable(s2) && ThreadSource(s1, d1, k1) == ThreadSource(s2, d2, k2))
       <==> Continues(AccountSeed(d1, k1), AccountSeed(d2, k2)) || Continues(AccountSeed(d2, k2), AccountSeed(d1, k1))
  {
    forall s1, s2 | Usable(s1) && Usable(s2) && ThreadSource(s1, d1, k1) == ThreadSource(s2, d2, k2)
      ensures Continues(AccountSeed(d1, k1), AccountSeed(d2, k2)) || Continues(AccountSeed(d2, k2), AccountSeed(d1, k1))
    {
      LegacyCollisionContinues(s1, d1, k1, s2, d2, k2);
    }
    if Continues(AccountSeed(d1, k1), AccountSeed(d2, k2)) {
      var s1, s2 := ContinuedSeedCollides(d1, k1, d2, k2);
    } else if Continues(AccountSeed(d2, k2), AccountSeed(d1, k1)) {
      var s2, s1 := ContinuedSeedCollides(d2, k2, d1, k1);
    }
  }

  /** Two accounts that collide: their keys, and the client sessions. */
  lemma LegacyThreadSourcesCollide()
    ensures exists s1, k1, s2, k2 ::
      ThreadSource(s1, None, Some(k1)) == ThreadSource(s2, None, Some(k2)) && k1 != k2 && s1 != s2
  {
    TrimFixes("a");
    TrimFixes("a:b");
    assert ThreadSource("b:c", None, Some("a")) == THREAD_PREFIX + "a:b:c" == ThreadSource("c", None, Some("a:b"));
  }

  /** A session id and a thread id never have the same source. */
  lemma SessionAndThreadSourcesDiffer(s: string, d1: Option<Record>, k1: Option<string>, d2: Option<Record>,
                                      k2: Option<string>)
    ensures SessionSource(d1, k1) != ThreadSource(s, d2, k2)
  {
    assert SessionSource(d1, k1)[16] == 's' && ThreadSource(s, d2, k2)[16] == 't';
  }

  // -------------------------------------------------------------- turn-state echoes

  type Headers = seq<(string, Value)>

  /** The first non-blank text value of the header `name`, whatever the case of its key. */
  function ReadHeader(headers: Headers, name: string): Option<string> {
    if headers == [] then None
    else
      var v := NonEmpty(Some(headers[0].1));
      if Lower(headers[0].0) == Lower(name) && v.Some? then v else ReadHeader(headers[1..], name)
  }

  /** Entry `i` is a header of that name, up to case, with text. */
  predicate HeaderAt(headers: Headers, name: string, i: nat) {
    i < |headers| && Lower(headers[i].0) == Lower(name) && headers[i].1.Str? && !Blank(headers[i].1.text)
  }

  ghost predicate FirstHeader(headers: Headers, name: string, i: nat) {
    HeaderAt(headers, name, i) && forall j: nat | j < i :: !HeaderAt(headers, name, j)
  }

  ghost predicate NoHeader(headers: Headers, name: string) {
    forall i: nat | i < |headers| :: !HeaderAt(headers, name, i)
  }

  lemma {:induction false} HeaderFound(headers: Headers, name: string) returns (i: nat)
    ensures
      if ReadHeader(headers, name).None? then NoHeader(headers, name)
      else FirstHeader(headers, name, i) && ReadHeader(headers, name) == Some(Trim(headers[i].1.text))
  {
    i := 0;
    if headers != [] {
      NonEmptyIff(Some(headers[0].1));
      if !HeaderAt(headers, name, 0) {
        i := HeaderFound(headers[1..], name);
        i := i + 1;
        forall j: nat | 0 < j < |headers| ensures HeaderAt(headers, name, j) == HeaderAt(headers[1..], name, j - 1) {
          assert headers[j] == headers[1..][j - 1];
        }
      }
    }
  }

  /**
   * Wherever it stands among the headers: what is read is the trimmed text of the first header
   * of that name, up to case, that has text; and nothing exactly when there is none.
   */
  lemma ReadHeaderIff(headers: Headers, name: string)
    ensures forall v :: ReadHeader(headers, name) == Some(v) <==>
              exists i: nat :: FirstHeader(headers, name, i) && v == Trim(headers[i].1.text)
    ensures ReadHeader(headers, name).None? <==> NoHeader(headers, name)
  {
    var i := HeaderFound(headers, name);
    forall j: nat | FirstHeader(headers, name, j) && FirstHeader(headers, name, i) ensures i == j {
    }
  }

  predicate SafeSessionIdChar(c: char) {
    IsDigit(c) || 'a' <= LowerChar(c) <= 'z' || c in {'.', '_', ':', '-'}
  }

  function NormalizeSessionId(v: Option<string>): Option<string> {
    if v.Some? && 1 <= |Trim(v.value)| <= 200 && (forall c | c in Trim(v.value) :: SafeSessionIdChar(c))
    then Some(Trim(v.value)) else None
  }

  function ClientSessionId(headers: Headers): Option<string> {
    var dashed := NormalizeSessionId(ReadHeader(headers, "session-id"));
    if dashed.Some? then dashed else NormalizeSessionId(ReadHeader(headers, "session_id"))
  }

  /** A session id the client may use: one to two hundred safe characters. */
  predicate SafeSessionId(t: string) {
    1 <= |t| <= 200
    && forall i | 0 <= i < |t| :: 'a' <= t[i] <= 'z' || 'A' <= t[i] <= 'Z' || '0' <= t[i] <= '9' || t[i] in "._:-"
  }

  /** The header names a usable session id. */
  ghost predicate Identifies(headers: Headers, name: string, t: string) {
    exists i: nat :: FirstHeader(headers, name, i) && t == Trim(headers[i].1.text) && SafeSessionId(t)
  }

  lemma NormalizedHeader(headers: Headers, name: string)
    ensures forall t :: NormalizeSessionId(ReadHeader(headers, name)) == Some(t) <==> Identifies(headers, name, t)
  {
    ReadHeaderIff(headers, name);
    var v := ReadHeader(headers, name);
    if v.Some? {
      TrimIdempotent(Trim(v.value));
      var i := HeaderFound(headers, name);
      TrimIdempotent(headers[i].1.text);
      assert NormalizeSessionId(v).Some? <==> SafeSessionId(v.value) by {
        SafeSessionIdIff(v.value);
      }
    }
  }

  lemma SafeSessionIdIff(t: string)
    requires Trim(t) == t
    ensures NormalizeSessionId(Some(t)).Some? <==> SafeSessionId(t)
  {
    if forall c | c in t :: SafeSessionIdChar(c) {
      forall i | 0 <= i < |t| ensures SafeSessionIdChar(t[i]) {
      }
    }
    if SafeSessionId(t) {
      forall c | c in t ensures SafeSessionIdChar(c) {
        var i :| 0 <= i < |t| && t[i] == c;
      }
    }
  }

  /** The client's session is the one `session-id` names, else the one `session_id` names. */
  lemma ClientSessionIdIff(headers: Headers, t: string)
    ensures ClientSessionId(headers) == Some(t) <==>
              || Identifies(headers, "session-id", t)
              || (Identifies(headers, "session_id", t) && forall u :: !Identifies(headers, "session-id", u))
  {
    NormalizedHeader(headers, "session-id");
    NormalizedHeader(headers, "session_id");
    var dashed := NormalizeSessionId(ReadHeader(headers, "session-id"));
    if dashed.Some? {
      assert Identifies(headers, "session-id", dashed.value);
    }
  }

  /** The echo that may go upstream, judged from the plain history of the table. */
  function AllowedEcho(h: History, headers: Headers, accountKey: Option<string>, now: int): Option<string> {
    var session := ClientSessionId(headers);
    if session.Some? && KnownForeign(h, session, accountKey, now) then None
    else ReadHeader(headers, TURN_STATE_HEADER)
  }

  method ResolveTurnStateEcho(table: TurnStateOrigins, headers: Headers, accountKey: Option<string>, now: int)
    returns (echo: Option<string>)
    requires table.Valid()
    modifies table
    ensures table.Valid()
    ensures table.calls ==
              if NoHeader(headers, "x-codex-turn-state") || ClientSessionId(headers).None? then old(table.calls)
              else Then(old(table.calls), CheckCall(ClientSessionId(headers), accountKey, now))
    ensures echo ==
              if ForgottenFor(old(table.calls), ClientSessionId(headers)) then ReadHeader(headers, TURN_STATE_HEADER)
              else AllowedEcho(old(table.calls), headers, accountKey, now)
    ensures MonotoneUpTo(old(table.calls), now) ==> echo == AllowedEcho(old(table.calls), headers, accountKey, now)
  {
    ReadHeaderIff(headers, TURN_STATE_HEADER);
    echo := ReadHeader(headers, TURN_STATE_HEADER);
    if echo.None? {
      return;
    }
    var sessionId := ClientSessionId(headers);
    if sessionId.Some? {
      var foreign := table.IsCrossAccount(sessionId, accountKey, now);
      if foreign {
        echo := None;
      }
    }
  }

  /** What may go upstream is the first turn-state header with text, trimmed, or nothing: nothing is ever injected. */
  ghost predicate PassesOrNothing(headers: Headers, echo: Option<string>, passes: bool) {
    && (forall i: nat | FirstHeader(headers, "x-codex-turn-state", i) ::
          echo == if passes then Some(Trim(headers[i].1.text)) else None)
    && (NoHeader(headers, "x-codex-turn-state") ==> echo == None)
  }

  /**
   * Failover: when account `minter` last minted the session's blob at `at`, the client's first
   * turn-state header is stripped for exactly the other accounts, for exactly two hours, and
   * otherwise goes through as it was sent.
   */
  lemma EchoAfterFailover(h: History, headers: Headers, session: string, accountKey: Option<string>, now: int,
                          minter: string, at: int)
    requires ClientSessionId(headers) == Some(session)
    requires LatestNote(h, session) == Some(Minted(minter, at))
    ensures
      var foreign := accountKey.Some? && !Blank(accountKey.value) && Trim(accountKey.value) != minter;
      PassesOrNothing(headers, AllowedEcho(h, headers, accountKey, now), !(foreign && now < at + 7_200_000))
  {
    ClientSessionIdIsNormal(headers);
    ReadHeaderIff(headers, TURN_STATE_HEADER);
    if accountKey.Some? {
      TrimEmptyIff(accountKey.value);
    }
  }

  lemma ClientSessionIdIsNormal(headers: Headers)
    requires ClientSessionId(headers).Some?
    ensures Normalize(ClientSessionId(headers)) == ClientSessionId(headers)
  {
    var dashed, snake := ReadHeader(headers, "session-id"), ReadHeader(headers, "session_id");
    TrimIdempotent(if NormalizeSessionId(dashed).Some? then dashed.value else snake.value);
  }

  /**
   * With a session no account is known to have minted for, or no usable session id, the client's
   * header goes through.
   */
  lemma UnknownProvenancePasses(h: History, headers: Headers, accountKey: Option<string>, now: int)
    requires var s := ClientSessionId(headers); s.Some? ==> LatestNote(h, s.value).None?
    ensures PassesOrNothing(headers, AllowedEcho(h, headers, accountKey, now), true)
  {
    ReadHeaderIff(headers, TURN_STATE_HEADER);
    if ClientSessionId(headers).Some? {
      ClientSessionIdIsNormal(headers);
    }
  }

  lemma SafeIsTrimmed(t: string)
    requires SafeSessionId(t)
    ensures Trim(t) == t && !Blank(t)
  {
    assert !IsSpace(t[0]) && !IsSpace(t[|t| - 1]);
    TrimFixes(t);
    TrimEmptyIff(t);
  }

  /** Among headers of other names, the one header of a name is the first of it. */
  lemma OnlyHeaderIsFirst(before: Headers, name: string, text: string, after: Headers)
    requires !Blank(text) && forall x | x in before :: Lower(x.0) != Lower(name)
    ensures FirstHeader(before + [(name, Str(text))] + after, name, |before|)
  {
    var headers := before + [(name, Str(text))] + after;
    forall j: nat | j < |before| ensures !HeaderAt(headers, name, j) {
      assert headers[j] == before[j] && before[j] in before;
    }
  }

  lemma LowerNames()
    ensures Lower("session-id") == "session-id" && Lower("x-codex-turn-state") == "x-codex-turn-state"
    ensures |"session-id"| != |"x-codex-turn-state"|
  {
  }

  /**
   * A client that sends back the blob this account has just minted for its session: the blob
   * goes up again, wherever the two headers stand.
   */
  lemma OwnBlobReturns(h: History, before: Headers, middle: Headers, after: Headers, session: string, blob: string,
                       account: string, now: int)
    requires SafeSessionId(session) && !Blank(blob)
    requires forall x | x in before || x in middle :: Lower(x.0) != "session-id" && Lower(x.0) != "x-codex-turn-state"
    ensures
      var headers := before + [("session-id", Str(session))] + middle + [("x-codex-turn-state", Str(blob))] + after;
      var noted := Then(h, NoteCall(Some(session), Some(account), now));
      && ClientSessionId(headers) == Some(session)
      && (!Blank(account) ==> AllowedEcho(noted, headers, Some(account), now) == Some(Trim(blob)))
  {
    var rest := middle + [("x-codex-turn-state", Str(blob))] + after;
    var front := before + [("session-id", Str(session))] + middle;
    var headers := front + [("x-codex-turn-state", Str(blob))] + after;
    assert headers == before + [("session-id", Str(session))] + rest;
    LowerNames();
    SafeIsTrimmed(session);
    OnlyHeaderIsFirst(before, "session-id", session, rest);
    assert Identifies(headers, "session-id", session);
    ClientSessionIdIff(headers, session);
    forall x | x in front ensures Lower(x.0) != Lower("x-codex-turn-state") {
      assert x in before || x == ("session-id", Str(session)) || x in middle;
    }
    OnlyHeaderIsFirst(front, "x-codex-turn-state", blob, after);
    OwnAccountPasses(h, headers, session, account, now);
  }

  lemma OwnAccountPasses(h: History, headers: Headers, session: string, account: string, now: int)
    requires ClientSessionId(headers) == Some(session)
    ensures !Blank(account) ==>
              PassesOrNothing(headers, AllowedEcho(Then(h, NoteCall(Some(session), Some(account), now)), headers,
                                                   Some(account), now), true)
  {
    if !Blank(account) {
      ClientSessionIdIsNormal(headers);
      TrimEmptyIff(account);
      var noted := Then(h, NoteCall(Some(session), Some(account), now));
      assert LatestNote(noted, session) == Some(Minted(Trim(account), now));
      EchoAfterFailover(noted, headers, session, Some(account), now, Trim(account), now);
    }
  }
}
