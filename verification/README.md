# OmniRoute cores in Dafny

OmniRoute is a proxy in front of many model providers, with a desktop app around it. Most of its
code is catalogs; this project models the parts that hold state, parse, index or aggregate, and
proves what they are for. `dafny verify dfyconfig.toml` checks everything.

| file | what it models |
|---|---|
| `CodexTurnState.dfy`, `CodexIdentity.dfy` | which account minted a session's turn-state blob: a table with a time to live, lazy deletion and a periodic sweep; the failover guard and the persisted fingerprint seed on top of it |
| `FreeModelCatalog.dfy`, `FreeModelTotals.dfy` | the free-tier figures: token budgets summed with each shared pool counted once, and what one more entry changes |
| `RegistryUtils.dfy`, `ScopedModels.dfy`, `ModelIds.dfy`, `EmbeddingRegistry.dfy`, `RerankRegistry.dfy`, `ProviderModels.dfy`, `ModelLookups.dfy` | parsing model ids against registries, the cached index, the catalogs those ids come from, and the longest-prefix lookup |
| `GlmProvider.dfy`, `GlmEndpoints.dfy`, `AnthropicHeaders.dfy`, `CliFingerprints.dfy`, `FieldOrder.dfy`, `ProviderErrorRules.dfy` | URL joining, `anthropic-beta` merging, header and field reordering, countdown parsing |
| `EnvFile.dfy`, `EnvReading.dfy`, `SecretBootstrap.dfy` | the desktop app's `server.env` reader and writer, and the secret bootstrap between them |
| `LoginProtocol.dfy`, `LoginEvents.dfy`, `LoginSessions.dfy`, `LoginCredentials.dfy`, `LoginManager.dfy` | the web-login manager as event steps, what each event does, the run-level theorems, and the object itself |
| `ServerReadiness.dfy` | the readiness polling loop and its time budget |
| `Text.dfy`, `Objects.dfy`, `Options.dfy`, `Sets.dfy` | strings, JavaScript objects as lists of fields in insertion order, missing values, and sizes of sets |

Code that updates things in place is written that way (`TurnStateOrigins`, `IndexCache`,
`LoginManager`, and methods with the source's loops), each method proved against a function or a
history; the laws are lemmas about those functions and histories. Registries, catalogs,
allow lists and field orders are arbitrary: nothing rests on the literal tables. The clock, the hash
behind derived ids, random values, requests and replies are parameters.

## What turned out not to hold as promised

- The turn-state guard departs from the plain history, whatever the clock does, if and only if a known
  foreign record was forgotten: a sweep, or a check of its session, ran at or past its expiry and the
  clock then went back to before it (`GuardExactly`). A clock that never runs backwards rules that out
  (`GuardMatchesHistory`).
- Without a persisted seed two accounts can be given the same thread id if and only if one account's
  key continues the other's past a colon (`LegacyThreadSourcesCollideIff`).
- A listed id of the shared registries parses back if and only if no key or alias that is looked for
  earlier, followed by a slash, starts it (`ListingParsesBackIff`).
- Joining with `/v1/messages` is absorbed by later joins if and only if the stripped base does not end in
  `/v1` (`MessagesJoinAbsorbedIff`).
- Reordering headers keeps all of them if and only if the order is empty or no two names agree up
  to case (`HeadersKeptIff`).
- A listed embedding or rerank id reads back if and only if the same provider does not also list
  the id without its own prefix (`Shadowed`).
- The comment at `electron/main.js:728-730` promises that generated secrets persist; a restart
  keeps them if and only if no overriding environment holds a blank value for one
  (`RestartKeepsSecretsIff`), and it is refused if and only if credentials are stored by then and the
  blank one is the encryption key (`BlankKeyLocksOut`).
- Readiness polling always ends under the platform's timer, which takes at least a millisecond. With a
  sleep function passed in that takes exactly as long as asked, it ends for every server if and only if
  there is no budget or the poll interval is positive (`EndsIff`).
- Two logins keep apart if and only if the second starts after the first one's callbacks have
  drained (`StartIsSafeIff`); a late window close ends the wrong login otherwise
  (`LateCloseEndsNextLogin`).
- A login starts with a header captured for an earlier one if and only if, since that one ended, some
  request carried a header its window's login asks for (`StartsFreshIff`); waiting for the window to be
  gone does not help (`LateRequestReachesNextLogin`).
- The comment at `electron/loginManager.js:332` says polling continues until all required credentials
  are there. A page-storage key counts as found when the page answers null, so the answer alone
  completes the login (`StorageAnswerAlwaysCounts`); a success lacks a value if and only if the event
  that reported it is such an answer (`ReportedPresentIff`, with a whole run in `NullTokenIsReported`).
- The documented status event always names a provider; the one sent by `cancel` never does
  (`OnlyCancelStatusIsNameless`).

## Model

| member | source | states |
|---|---|---|
| CodexTurnState.GuardMatchesHistory | open-sse/config/codexTurnState.ts:121-138 | For every run of notes and checks under a non-decreasing clock, the guard says yes exactly when the latest effective note for the trimmed session named another account less than the time to live ago; deletion and sweeping are never observable. |
| CodexTurnState.RunAgrees | open-sse/config/codexTurnState.ts:78-138 | Under a clock that does not run backwards the table's record of a session is what the history says, except that an expired one may be gone. |
| CodexTurnState.BlankCallsAreInert | open-sse/config/codexTurnState.ts:98-100 | A call with a blank or missing session or account changes nothing and is answered no. |
| CodexTurnState.SameNameIff | open-sse/config/codexTurnState.ts:46-50 | Two spellings are one session or account exactly when neither is blank and they agree after trimming. |
| CodexTurnState.RunIsHistory | open-sse/config/codexTurnState.ts:78-138 | For every history and any clock: the table holds a record of a session exactly when there is a latest note that no sweep or check has forgotten, and then exactly that one. |
| CodexTurnState.GuardExactly | open-sse/config/codexTurnState.ts:121-138 | For every history and any clock: the guard says yes exactly for a known foreign, unforgotten blob, and so departs from the plain history exactly when the blob is known foreign and forgotten. |
| CodexTurnState.LiveIsNotForgotten | open-sse/config/codexTurnState.ts:78-138 | Under a clock that does not run backwards a live note is never forgotten. |
| CodexTurnState.SweepLeavesLive | open-sse/config/codexTurnState.ts:78-84 | Right after a sweep the table holds exactly the sessions whose latest note is still live. |
| CodexTurnState.RecordsOutliveSweep | open-sse/config/codexTurnState.ts:93-112 | In every reachable state every record expires after the time of the last sweep. |
| CodexTurnState.WritesSinceSweepIsRemainder | open-sse/config/codexTurnState.ts:108-111 | The writes since the last sweep are the write count modulo 256. |
| CodexTurnState.TableIsBounded | open-sse/config/codexTurnState.ts:93-112 | In every reachable state the table is no larger than the sessions live at the last sweep plus the write count modulo 256. |
| CodexTurnState.TurnStateOrigins.SweepExpired | open-sse/config/codexTurnState.ts:78-84 | The in-place sweep removes exactly the expired records. |
| CodexTurnState.TurnStateOrigins.NoteProvenance | open-sse/config/codexTurnState.ts:93-112 | The in-place note is the history's note step, write counter and sweep included. |
| CodexTurnState.TurnStateOrigins.IsCrossAccount | open-sse/config/codexTurnState.ts:121-138 | The in-place check answers, under any clock, what the history without what was forgotten says, and is the history's check step. |
| CodexIdentity.SeedAfterSave | open-sse/config/codexIdentity.ts:120-143 | After a save the seed depends only on the stored seed, the mode and the kind of credentials; an inbound seed has no influence and every other field passes through. |
| CodexIdentity.FingerprintSeedIff | open-sse/config/codexIdentity.ts:91-95 | The seed is the trimmed text of its field exactly when that is a UUID. |
| CodexIdentity.UuidIff | open-sse/config/codexIdentity.ts:17-47 | What a UUID is, group by group, with its version and variant digits. |
| CodexIdentity.ModeIsFirstNamed | open-sse/config/codexIdentity.ts:171-184 | The mode is what the first of the two mode fields with text says, in any case; other text, and none, mean session. |
| CodexIdentity.OAuthIff | open-sse/config/codexIdentity.ts:160-169 | Credentials are OAuth exactly when one of the two tokens has text. |
| CodexIdentity.AccountSeedIsFirstText | open-sse/config/codexIdentity.ts:76-88 | An account is known by its key, else by the first of its four fields with text, else by "default". |
| CodexIdentity.SeedSurvivesIffOAuth | open-sse/config/codexIdentity.ts:128-136 | A valid stored seed survives a save exactly when the save carries OAuth credentials. |
| CodexIdentity.InboundSeedNeverAdopted | open-sse/config/codexIdentity.ts:120-143 | Over every sequence of saves the stored seed is the initial one or one the system drew, never an inbound one. |
| CodexIdentity.SeedIsStable | open-sse/config/codexIdentity.ts:132-136 | Once there is a seed, no sequence of OAuth saves changes it. |
| CodexIdentity.IdentityIsStable | open-sse/config/codexIdentity.ts:211-237 | From then on the converged session id, and the thread id of each client session, are constant over any OAuth saves and account keys. |
| CodexIdentity.SeededThreadSourcesAreDistinct | open-sse/config/codexIdentity.ts:224-237 | With persisted seeds two thread ids are derived from the same text only if seed and client session agree. |
| CodexIdentity.LegacyThreadSourcesCollideIff | open-sse/config/codexIdentity.ts:224-237 | Without a seed two different accounts have usable client sessions with one thread id source exactly when one account's key continues the other's past a colon. |
| CodexIdentity.SessionAndThreadSourcesDiffer | open-sse/config/codexIdentity.ts:211-237 | A session id and a thread id are never derived from the same text. |
| CodexIdentity.ResolveTurnStateEcho | open-sse/config/codexIdentity.ts:258-267 | The echo decision against the live table is the one read off the plain history of calls, or, where that session's record was forgotten, the client's own echo; the table is asked exactly when there is an echo and a session. |
| CodexIdentity.EchoAfterFailover | open-sse/config/codexIdentity.ts:249-267 | After an account minted the blob, the first turn-state header with text is stripped for exactly the other accounts, for exactly two hours, and else passes trimmed. |
| CodexIdentity.UnknownProvenancePasses | open-sse/config/codexIdentity.ts:249-267 | With no known minter, or no usable session id, the first turn-state header with text passes trimmed, and without one nothing does. |
| CodexIdentity.ReadHeaderIff | open-sse/config/codexIdentity.ts:145-158 | For all headers and names: what is read is the trimmed text of the first header of that name, up to case, that has text, wherever it stands, and nothing exactly when there is none. |
| CodexIdentity.ClientSessionIdIff | open-sse/config/codexIdentity.ts:239-247 | The session is the one `session-id` names, else the one `session_id` names, when its text is one to two hundred safe characters. |
| CodexIdentity.OwnBlobReturns | open-sse/config/codexIdentity.ts:258-267 | A blob this account has just minted for the session goes up again, wherever its header and the session header stand in the request. |
| FreeModelCatalog.SumOncePerPool | open-sse/config/freeModelCatalog.ts:192-207 | The one-pass loop over a map computes the pool-less entries plus each pool's maximum. |
| FreeModelCatalog.OrderIndependent | open-sse/config/freeModelCatalog.ts:190-207 | The sum is the same for every permutation of the catalog. |
| FreeModelCatalog.SubadditiveAndExactlyWhenAdditive | open-sse/config/freeModelCatalog.ts:190-207 | Joining catalogs never exceeds the two sums, and equals them exactly when no pool has a positive entry on both sides. |
| FreeModelCatalog.DisjointPoolsAdd | open-sse/config/freeModelCatalog.ts:190-207 | Catalogs that share no pool add up exactly. |
| FreeModelCatalog.NeverAbovePlainSum | open-sse/config/freeModelCatalog.ts:190-207 | For naturals the deduplicated sum lies between zero and the plain sum. |
| FreeModelCatalog.MarginalContribution | open-sse/config/freeModelCatalog.ts:199-204 | One more entry is worth its tokens, or what it adds over the best of its pool. |
| FreeModelCatalog.BucketMembers | open-sse/config/freeModelCatalog.ts:109-168 | Which regimes feed which figure; exactly a regime that grants no access feeds none. |
| FreeModelCatalog.ComputeTotals | open-sse/config/freeModelCatalog.ts:209-275 | The totals are those of the enabled, terms-filtered catalog by the reference sums. |
| FreeModelCatalog.TotalsAreOrdered | open-sse/config/freeModelCatalog.ts:227-244 | For non-negative budgets 0 <= steady <= steady with credits <= first month. |
| FreeModelCatalog.EntryFeedsOneFigure | open-sse/config/freeModelCatalog.ts:227-241 | Adding one entry anywhere changes at most one of the three sums, upward, by at most its tokens. |
| FreeModelCatalog.DisabledIsAbsent | open-sse/config/freeModelCatalog.ts:213-225 | A disabled entry gives the same totals as removing it. |
| FreeModelCatalog.ExcludingAvoidNeverRaises | open-sse/config/freeModelCatalog.ts:223-270 | Excluding the entries marked "avoid" never raises any figure. |
| FreeModelCatalog.TotalsAreOrderIndependent | open-sse/config/freeModelCatalog.ts:209-275 | No total depends on the order of the catalog. |
| FreeModelTotals.FilterKeeps | open-sse/config/freeModelCatalog.ts:223-225 | Each entry is kept as often as it occurs exactly when it is enabled and not an excluded "avoid" entry. |
| FreeModelTotals.TotalsOfNone | open-sse/config/freeModelCatalog.ts:227-271 | The empty catalog gives zero everywhere. |
| FreeModelTotals.FigureOfOneMore | open-sse/config/freeModelCatalog.ts:199-206 | One more counted entry raises a figure by its tokens when its pool key is absent or empty, and else by what it offers over the best counted entry of the same pool key. |
| FreeModelTotals.SumsOfOneMore | open-sse/config/freeModelCatalog.ts:227-244 | How the three token figures change with one more entry, by its regime. |
| FreeModelTotals.CountsOfOneMore | open-sse/config/freeModelCatalog.ts:246-271 | How the counts, the uncapped providers and the boost change with one more entry. |
| FreeModelTotals.PoolsAndBoost | open-sse/config/freeModelCatalog.ts:246-257 | The pool count is the number of distinct non-empty pool keys of steady entries, and the boost the sum of exactly their boosts. |
| FreeModelTotals.SharedPoolCountsOnce | open-sse/config/freeModelCatalog.ts:190-207 | Two steady entries of one pool count once, by the larger, open one pool and unlock its boost once. |
| RegistryUtils.BuildIndex | open-sse/config/registryUtils.ts:36-44 | The nested loops build an index that says of every id what a first-match scan says. |
| RegistryUtils.IndexCache.GetIndex | open-sse/config/registryUtils.ts:31-46 | A registry is indexed at its first use and the index is kept from then on. |
| RegistryUtils.IndexCache.ParseModel | open-sse/config/registryUtils.ts:52-76 | After any earlier calls the answer is the linear scan's while the registry is unchanged since it was indexed, and the scan of the contents at indexing time otherwise; a string no prefix starts gets the first provider that lists it, with the string as its model. |
| RegistryUtils.BareStringsAreScanned | open-sse/config/registryUtils.ts:56-75 | By positions: a string that no key or usable alias starts is the first listing provider's model, if that provider has a name, else no provider's; no string gives nothing. |
| RegistryUtils.PrefixedStringsAreCut | open-sse/config/registryUtils.ts:58-66 | Any other string is cut behind the key, or else the alias, of the first provider that opens it. |
| RegistryUtils.GetAllModels | open-sse/config/registryUtils.ts:82-107 | The loops list every model of every provider under its key and its non-empty alias, in order. |
| RegistryUtils.CatalogOfConcat | open-sse/config/registryUtils.ts:89-104 | The catalog lists provider after provider. |
| RegistryUtils.CatalogOfModels | open-sse/config/registryUtils.ts:91-103 | A provider's models are listed in their order. |
| RegistryUtils.CatalogOfOneModel | open-sse/config/registryUtils.ts:92-102 | One model is listed under the key, then under the alias, each unless empty, with the key as provider. |
| RegistryUtils.ListingOf | open-sse/config/registryUtils.ts:89-104 | Every catalog entry is a model some provider lists, under that provider's key or alias. |
| RegistryUtils.PrefixFinds | open-sse/config/registryUtils.ts:58-66 | With distinct slash-free prefixes, a prefixed string is cut at that provider, whatever follows. |
| RegistryUtils.CatalogIdsParseBack | open-sse/config/registryUtils.ts:52-107 | With distinct slash-free prefixes every listed id, by key or alias, parses back to its provider and model. |
| RegistryUtils.PrefixFindsIff | open-sse/config/registryUtils.ts:58-66 | With distinct keys, a prefixed string is read as its own provider and model exactly when no key or alias looked for earlier, followed by a slash, starts it. |
| RegistryUtils.ListingParsesBackIff | open-sse/config/registryUtils.ts:52-107 | With distinct keys, any listed id parses back exactly under that condition. |
| ScopedModels.GetAllModels | open-sse/config/rerankRegistry.ts:208-220 | The nested loops list every model under its provider-scoped id, in order. |
| ScopedModels.CatalogOfConcat | open-sse/config/rerankRegistry.ts:210-218 | The catalog lists provider after provider. |
| ScopedModels.CatalogOfOne | open-sse/config/rerankRegistry.ts:211-217 | A provider's models are listed in order, each once, under its key; an id that has that prefix keeps it. |
| ScopedModels.NormalizeIs | open-sse/config/rerankRegistry.ts:138-153 | By positions: the id a provider lists for a model is the one called, else the one under its own prefix, else the call without that prefix. |
| ScopedModels.ScopedParts | open-sse/config/rerankRegistry.ts:155-157 | The scoped id's first slash ends the provider, and what follows is the id without its own scope. |
| ScopedModels.NormalizeScoped | open-sse/config/embeddingRegistry.ts:449-464 | Normalising the rest of a listed id's scoped form gives the id back exactly when no shorter listed id shadows it. |
| RerankRegistry.ScopedIdRoundTrip | open-sse/config/rerankRegistry.ts:138-203 | The scoped id of a listed model parses to provider and model exactly when nothing shadows it. |
| RerankRegistry.KnownProviderComesFirst | open-sse/config/rerankRegistry.ts:173-183 | A string whose first part names a provider, itself or by alias, is that provider's. |
| RerankRegistry.OtherStrings | open-sse/config/rerankRegistry.ts:185-202 | Failing that, the first key that starts it decides, then the first provider that lists it, and else none. |
| RerankRegistry.CatalogRoundTrip | open-sse/config/rerankRegistry.ts:138-220 | In a registry with plain keys and no shadowing every catalog id parses back. |
| EmbeddingRegistry.ScopedIdRoundTrip | open-sse/config/embeddingRegistry.ts:433-528 | The same for embeddings, when no entry of the alias table decides the id except for itself, whatever dynamic providers there are. |
| EmbeddingRegistry.KnownProviderComesFirst | open-sse/config/embeddingRegistry.ts:482-495 | After the model aliases, a string whose first part names a provider, itself or by alias, is that provider's. |
| EmbeddingRegistry.PrefixedStrings | open-sse/config/embeddingRegistry.ts:497-517 | Failing that: the first registered key that starts it, else the first dynamic provider that does, else its first part itself. |
| EmbeddingRegistry.BareStrings | open-sse/config/embeddingRegistry.ts:520-527 | A string without a part before a slash is the first listing provider's model, or no provider's. |
| EmbeddingRegistry.CatalogRoundTrip | open-sse/config/embeddingRegistry.ts:433-608 | Under that condition on the alias table every embedding catalog id parses back. |
| EmbeddingRegistry.FirstAliasDecides | open-sse/config/embeddingRegistry.ts:433-443 | For any alias table: the first entry that equals the string, or is slash-free and its last segment, decides the rewrite; with none the string is untouched. |
| EmbeddingRegistry.NamesMeansEnd | open-sse/config/embeddingRegistry.ts:435-440 | The test for a slash and alias at the end is the test that the alias is the last segment. |
| EmbeddingRegistry.UntouchedIff | open-sse/config/embeddingRegistry.ts:433-443 | A string is left as it is exactly when no entry decides it or the deciding one stands for itself. |
| EmbeddingRegistry.BareAliasUnderAnyProvider | open-sse/config/embeddingRegistry.ts:438-440 | Where a slash-free alias of any table decides, the model is rewritten behind whatever prefix it has. |
| EmbeddingRegistry.SlashedAliasIsExact | open-sse/config/embeddingRegistry.ts:435-440 | An alias of any table that has a slash decides nothing but itself. |
| ProviderModels.CollectHits | open-sse/config/providerModels.ts:109-113 | The loop collects the first exact hit of each provider, in registry order. |
| ProviderModels.GetGlobalModel | open-sse/config/providerModels.ts:107-146 | The loops return what the reference lookup says: exact, then basename, then longest prefix. |
| ProviderModels.BestIsFirstBest | open-sse/config/providerModels.ts:131-145 | The scan returns the first match that no other match beats, and nothing exactly when nothing matches. |
| ProviderModels.RichestOfHits | open-sse/config/providerModels.ts:114-116 | Of the exact hits it is the first of the richest, as the stable sort would put in front. |
| ProviderModels.GlobalAgreesWithExact | open-sse/config/providerModels.ts:107-171 | Whenever the exact lookup finds an entry, the global one finds one with the same id, at least as rich. |
| ProviderModels.GlobalFallsBackToLongestPrefix | open-sse/config/providerModels.ts:107-146 | Otherwise it is the first lexicographic maximum of id length and richness among registered ids that start the basename, and none exactly when there is none; a registered empty id, which the exact lookup refuses, is found as the first richest of its hits. |
| ProviderModels.BasenameDropsVendor | open-sse/config/providerModels.ts:118-119 | A vendor prefix of any depth is dropped. |
| ModelLookups.BasenameWhole | open-sse/config/providerModels.ts:119-119 | An id without a slash, or that ends in one, is its own basename. |
| ModelLookups.RichnessOfOne | open-sse/config/providerModels.ts:94-105 | What each capability field is worth. |
| ModelLookups.RichnessAdds | open-sse/config/providerModels.ts:94-105 | Fields add up, and nothing else about an entry counts. |
| ModelLookups.GlobalOfRegistered | open-sse/config/providerModels.ts:109-116 | By positions: a registered id finds some provider's first entry of it, at least as rich as every other provider's first and richer than those of earlier providers. |
| ModelLookups.GlobalOfVendorId | open-sse/config/providerModels.ts:118-127 | An unregistered id finds that entry of its last path segment, when that is registered. |
| ModelLookups.GlobalOfUnregistered | open-sse/config/providerModels.ts:129-145 | Otherwise the first longest, and among those richest, entry in catalog order whose id the basename starts with; nothing exactly when there is none. |
| ModelLookups.ExactLookup | open-sse/config/providerModels.ts:158-171 | The exact lookup finds the first entry of an id, for a vendor id that of its last segment, and nothing for the empty id. |
| ModelLookups.ExactLookupOfRegistered | open-sse/config/providerModels.ts:160-163 | It prefers the id as it stands. |
| GlmProvider.StripQueryAndTrailingSlash | open-sse/config/glmProvider.ts:382-388 | The loop leaves the base without query, hash and trailing slashes. |
| GlmProvider.StripKnownEndpointSuffix | open-sse/config/glmProvider.ts:346-367 | The slash loop and the four endpoint branches take a URL apart into stripped base and kept query or hash. |
| GlmProvider.MessagesLengthIsLeftmost | open-sse/config/glmProvider.ts:353-359 | What is cut off a messages URL is the leftmost match of the pattern that reaches the end, version included, and nothing exactly when there is none. |
| GlmProvider.StripOfParts | open-sse/config/glmProvider.ts:232-367 | A base, an OpenAI path and a query or hash are taken apart into exactly the base and the query or hash. |
| GlmProvider.JoinAbsorbsOpenAIJoin | open-sse/config/glmProvider.ts:346-380 | For every URL and every path, joining with `/chat/completions` or `/models` first changes nothing about a later join. |
| GlmProvider.MessagesJoinAbsorbedIff | open-sse/config/glmProvider.ts:346-380 | A `/v1/messages` join is absorbed by every later join exactly when the stripped base does not end in v1. |
| GlmProvider.MessagesJoinIdempotentIff | open-sse/config/glmProvider.ts:346-380 | Joining with `/v1/messages` twice is joining once exactly unless versions are stacked or spelled V1. |
| GlmProvider.JoinStaysOpenAI | open-sse/config/glmProvider.ts:346-399 | Joining a base that is not Anthropic with an OpenAI path never makes it look Anthropic. |
| GlmProvider.ChatUrlIsNeverAnthropic | open-sse/config/glmProvider.ts:396-499 | For every provider data and fallback the chat URL is not classified as Anthropic, nor after it is stripped and joined again. |
| GlmProvider.ChatAndModelsUrlsAgree | open-sse/config/glmProvider.ts:243-267 | With a configured base the models URL is the chat URL joined with `/models`: same base, query and hash. |
| GlmEndpoints.EndpointIsLongest | open-sse/config/glmProvider.ts:353-365 | What is cut off a base is the longest known endpoint it ends in, in any case, and nothing exactly when it ends in none. |
| GlmEndpoints.StripIs | open-sse/config/glmProvider.ts:346-367 | Base, trailing slashes and query or hash of any URL: the endpoint is cut off the base, the slashes go, the query or hash stays. |
| GlmEndpoints.JoinMergesVersion | open-sse/config/glmProvider.ts:371-378 | A version that the path repeats, in either case, is written once. |
| GlmEndpoints.JoinKeepsPath | open-sse/config/glmProvider.ts:371-379 | Any other path is written whole between base and query. |
| GlmEndpoints.JoinAddsSlash | open-sse/config/glmProvider.ts:371-371 | A path without a leading slash gets one. |
| GlmEndpoints.IsAnthropicIff | open-sse/config/glmProvider.ts:396-399 | A URL is Anthropic exactly when `/api/anthropic`, in any case, stands somewhere in its base, followed by a slash or the end. |
| GlmEndpoints.IsCodingIff | open-sse/config/glmProvider.ts:401-407 | A URL is a coding one exactly when a digit follows the first `/api/coding/paas/v` of its base. |
| GlmEndpoints.ChatUrlOfConfigured | open-sse/config/glmProvider.ts:409-499 | With a configured base the chat URL is the region's literal one when that base is Anthropic anywhere, else the base joined with the chat path. |
| GlmEndpoints.ChatUrlWithoutBase | open-sse/config/glmProvider.ts:409-499 | Without one, a coding fallback that is not Anthropic gets the chat path, and everything else the region's literal URL. |
| GlmEndpoints.ModelsUrlIs | open-sse/config/glmProvider.ts:248-266 | A models URL of its own comes first, then the base when it is not Anthropic, then the region's literal one. |
| GlmEndpoints.AnthropicBaseGetsRegionUrls | open-sse/config/glmProvider.ts:10-19 | Any host's `/api/anthropic` base, with whatever path behind it, gets exactly the region's literal chat and models URLs. |
| AnthropicHeaders.MergeClientBeta | open-sse/config/anthropicHeaders.ts:84-115 | The loop over the client's tokens computes the reference merge. |
| AnthropicHeaders.TokensOfMerged | open-sse/config/anthropicHeaders.ts:90-114 | The merged header reads back as the merged token list. |
| AnthropicHeaders.TokensOfPiece | open-sse/config/anthropicHeaders.ts:90-93 | A piece without a comma is its own trimmed text, or nothing when blank. |
| AnthropicHeaders.MergeAppendsExactlyTheNew | open-sse/config/anthropicHeaders.ts:68-115 | The result is the normalised base followed by exactly the allowed client tokens that are new up to case, once each, in client order. |
| AnthropicHeaders.MergeIsCompositional | open-sse/config/anthropicHeaders.ts:84-115 | Merging two client lists in turn is merging their concatenation. |
| AnthropicHeaders.MergeIsIdempotent | open-sse/config/anthropicHeaders.ts:84-115 | Merging the same list again changes nothing. |
| AnthropicHeaders.LongContextIsGated | open-sse/config/anthropicHeaders.ts:96-102 | The long-context beta is never appended for a named model that does not support it. |
| AnthropicHeaders.AllowSetIff | open-sse/config/anthropicHeaders.ts:96-103 | A beta may be forwarded exactly when the list has it, in any case, and, for the long-context one, no model is named or the named one takes it. |
| AnthropicHeaders.DatedSupport | open-sse/config/context1m.ts:15-39 | A dated model takes the long context exactly when, without its date, it is one of the six listed or a variant of one. |
| AnthropicHeaders.UndatedSupport | open-sse/config/context1m.ts:15-39 | Any other model takes it exactly when it is one of them as it stands. |
| AnthropicHeaders.DatedModelAlike | open-sse/config/context1m.ts:30-39 | A dated model id qualifies exactly when the bare one does. |
| CliFingerprints.PlacePermutes | open-sse/config/cliFingerprints.ts:206-262 | Reordering loses and invents nothing. |
| CliFingerprints.PlaceSplits | open-sse/config/cliFingerprints.ts:206-262 | Listed names come first, in listed order; the rest keep their order. |
| CliFingerprints.PlaceIdempotent | open-sse/config/cliFingerprints.ts:206-262 | Reordering twice is reordering once. |
| FieldOrder.PlaceIsRanked | open-sse/config/cliFingerprints.ts:206-262 | In the result every field goes before the later ones: by first mention, and the unmentioned behind, in their original order. |
| CliFingerprints.OrderFields | open-sse/config/cliFingerprints.ts:206-226 | The two loops over body fields compute that placement. |
| CliFingerprints.OrderHeaders | open-sse/config/cliFingerprints.ts:232-262 | The loops over headers compute that placement of the headers collapsed up to case. |
| CliFingerprints.CollapseKeepsAllIff | open-sse/config/cliFingerprints.ts:241-245 | The lower-cased lookup keeps every header, in order, exactly when no two names agree up to case. |
| FieldOrder.CollapseKeepsLast | open-sse/config/cliFingerprints.ts:241-245 | Of several headers of one name, up to case, the last is kept, where the first stood. |
| CliFingerprints.HeadersKeptIff | open-sse/config/cliFingerprints.ts:232-262 | The result is a permutation, values kept, exactly when the order is empty or the names are distinct up to case. |
| CliFingerprints.HeadersSplit | open-sse/config/cliFingerprints.ts:247-259 | Distinct headers: listed names first in listed order, the rest as they were. |
| CliFingerprints.HeadersIdempotent | open-sse/config/cliFingerprints.ts:232-262 | Reordering any headers twice is reordering them once. |
| ProviderErrorRules.NumeralOfPrint | open-sse/config/providerErrorRules.ts:492-492 | Reading a printed number gives the number. |
| ProviderErrorRules.MatchHereOf | open-sse/config/providerErrorRules.ts:488-490 | A countdown phrase matches where it starts, with its own count and unit. |
| ProviderErrorRules.PhraseHere | open-sse/config/providerErrorRules.ts:488-490 | Whatever matches is such a phrase. |
| ProviderErrorRules.CountdownOfFirstPhrase | open-sse/config/providerErrorRules.ts:486-511 | The cooldown of a text is that of its first phrase, whatever surrounds it, and none when the count is zero. |
| ProviderErrorRules.CountdownIff | open-sse/config/providerErrorRules.ts:486-511 | A text yields a cooldown exactly when its first countdown phrase has a positive count, and then it is that count times its unit. |
| ProviderErrorRules.PrintedCountdown | open-sse/config/providerErrorRules.ts:486-511 | Parsing inverts decimal printing for every positive n and every unit. |
| ProviderErrorRules.PrintedInWords | open-sse/config/providerErrorRules.ts:488-507 | The same in so many words, for the eight unit words and their lengths in milliseconds. |
| ProviderErrorRules.MonthlyQuotaIff | open-sse/config/providerErrorRules.ts:105-127 | The rule fires exactly for a 429 whose body, in any case, holds the monthly-limit text and a countdown of positive count, and locks the connection for the length of the first one. |
| ProviderErrorRules.MonthlyQuotaCooldown | open-sse/config/providerErrorRules.ts:110-125 | A printed countdown behind the limit text, in any case, locks the connection for exactly that long. |
| EnvFile.ParseEnvFile | electron/main.js:734-745 | The loop over lines computes the reference reading of the file. |
| EnvFile.ParsedIsStorable | electron/main.js:734-745 | Every map the reader can return holds distinct variables the format can carry. |
| EnvFile.ParseWrittenLine | electron/main.js:737-790 | A line written for a storable variable reads back as that variable. |
| EnvFile.RoundTripIff | electron/main.js:734-793 | Reading what was written gives the map back for exactly the maps the reader can return. |
| EnvReading.ParseLineIff | electron/main.js:738-742 | A line assigns exactly the trimmed sides of its first `=`, when the left one is not empty and it is no comment; every other line is skipped. |
| EnvReading.LinesAre | electron/main.js:737-737 | A line ends at a newline, with or without a carriage return; the last needs no end. |
| EnvReading.LastAssignmentHolds | electron/main.js:736-744 | A key holds the value of the last line that assigns it, and is absent exactly when no line does. |
| EnvReading.SerializedText | electron/main.js:787-793 | The written file is the comment, an empty line, and one line for each variable, in order. |
| SecretBootstrap.EnsureSecrets | electron/main.js:752-798 | The in-place fill of missing secrets is the reference start. |
| SecretBootstrap.NamesAreWellNamed | electron/main.js:755-784 | The application's variable names are distinct and storable, so the laws apply to them. |
| SecretBootstrap.StartSettles | electron/main.js:755-798 | A start that is not refused ends with every secret present, either on file or overridden, and with a storable file. |
| SecretBootstrap.StartLeaves | electron/main.js:752-793 | The server runs with file, overrides and exactly the generated values, plus the mark when there are any; on file is what was there and what was generated. |
| SecretBootstrap.RefusedIff | electron/main.js:760-770 | A start is refused exactly when credentials are stored and their key is missing. |
| SecretBootstrap.UnchangedIff | electron/main.js:753-783 | A start generates nothing exactly when no secret is missing to begin with. |
| SecretBootstrap.FileKeepsPersisted | electron/main.js:783-793 | The next start reads exactly what this one kept, whether or not it rewrote the file. |
| SecretBootstrap.RestartKeepsSecretsIff | electron/main.js:728-798 | A restart generates nothing and runs with the same secrets exactly when no override holds a blank secret. |
| SecretBootstrap.BlankKeyLocksOut | electron/main.js:760-770 | After any start that was not refused, a restart is refused exactly when credentials are stored by then and a blank override hides their key. |
| ServerReadiness.WaitForServer | electron/lib/serverReadiness.js:14-56 | The loop ends within its budget, and returns true exactly when an attempt got an ok answer in time; under the platform's timer it asks nothing of its configuration. |
| ServerReadiness.BudgetIsKept | electron/lib/serverReadiness.js:25-52 | However the probes behave, the time spent never exceeds the budget; a timeout spends exactly all of it. |
| ServerReadiness.ReadyIffAnswered | electron/lib/serverReadiness.js:31-47 | The loop is ready exactly when one of its attempts got an ok answer in time. |
| ServerReadiness.AttemptsAreSpaced | electron/lib/serverReadiness.js:49-52 | While it polls, every attempt was followed by the sleep for a whole poll interval. |
| ServerReadiness.RoundIs | electron/lib/serverReadiness.js:25-51 | One round in numbers: the limit of an attempt, what an answer within it does, and the pause before the next. |
| ServerReadiness.TimerLoopEnds | electron/lib/serverReadiness.js:20-52 | With the default sleep the loop ends for every server and every configuration, within one attempt per millisecond of budget. |
| ServerReadiness.EndsIff | electron/lib/serverReadiness.js:20-52 | The loop ends for every server exactly when there is no budget, or the poll interval is positive, or the sleep is the platform's timer. |
| LoginProtocol.StepSound | electron/loginManager.js:56-425 | Every event keeps the shared invariant: flags, promise and settlements agree, and every callback belongs to a started session. |
| LoginProtocol.EverySessionSettledOnce | electron/loginManager.js:56-425 | In every interleaving, overlapping sessions included, a started session is settled exactly once when it is over and not at all while active. |
| LoginProtocol.OnlyCancelStatusIsNameless | electron/loginManager.js:391-402 | In every interleaving exactly the statuses of `cancel` carry no provider. |
| LoginEvents.CookiesDo | electron/loginManager.js:242-371 | In every reachable active state: unreadable cookies arm one poll; for a login with storage keys and an open window the page is asked, with headers and cookies merged; otherwise the login succeeds with exactly the merged values when all its names are there, and else arms one poll. |
| LoginEvents.StorageDoes | electron/loginManager.js:289-371 | The page's answer, or failure, completes the login with exactly what was collected when all its names are there, and else arms one poll. |
| LoginEvents.TimersDo | electron/loginManager.js:199-251 | The first wait leads to a poll, a poll to a reply, and the overall timer ends the login as timed out. |
| LoginEvents.ClosingDoes | electron/loginManager.js:184-196 | A closing window ends the active login. |
| LoginEvents.CancellingDoes | electron/loginManager.js:391-402 | Cancelling ends it, with a status that names no provider. |
| LoginEvents.IdleDoesNothing | electron/loginManager.js:184-251 | With no login active, late callbacks are only used up. |
| LoginEvents.StartDoes | electron/loginManager.js:56-217 | A login that starts takes a new session, shows a window, arms its two timers and sends two statuses; one whose window cannot open is settled at once; an active one is left alone. |
| LoginEvents.RequestDoes | electron/lib/loginHeaderCapture.js:3-16 | A request adds exactly the missing headers its own login asks for, trimmed, and changes nothing else. |
| LoginEvents.CookieLoginSucceeds | electron/loginManager.js:199-386 | A whole run of one login with one cookie that ends in success with its value. |
| LoginSessions.StepTidy | electron/loginManager.js:184-386 | With drained starts every event keeps: everything pending is the newest session's, each armed timer is held by a field, and at most one poll or reply is outstanding. |
| LoginSessions.SessionsKeepToThemselves | electron/loginManager.js:56-425 | In every run of drained logins a session is settled by its own callback, no timer is armed unless a login is active, at most one poll or reply is outstanding, and an active login is never stuck. |
| LoginSessions.StartIsSafeIff | electron/loginManager.js:75-81 | A login that starts after drained ones is safe exactly when every earlier callback has drained too; otherwise some event possible next settles it from the earlier session, or arms a timer for that session. |
| LoginSessions.LateCloseEndsNextLogin | electron/loginManager.js:184-196 | A possible run in which the first window's late close settles the second login. |
| LoginCredentials.CaptureAddsMissing | electron/lib/loginHeaderCapture.js:3-16 | A request adds exactly the configured, non-blank headers that were still missing, trimmed; captured values stay. |
| LoginCredentials.SuccessHasEveryName | electron/loginManager.js:333-386 | In every interleaving a success holds every required name, and only a page-storage value can be missing. |
| LoginCredentials.SuccessHoldsExactlyItsNames | electron/loginManager.js:254-386 | With drained logins, none of which starts with a header carried before it, a success holds exactly the names of the session that reports it. |
| LoginCredentials.StorageAnswerAlwaysCounts | electron/loginManager.js:277-360 | A page that answers for its keys completes the login exactly when cookies and headers are there, whatever the storage holds, null included. |
| LoginCredentials.ReportedPresentIff | electron/loginManager.js:242-386 | In every reachable state, the credentials an event reports are all present exactly when it is not a page's answer holding a null. |
| LoginCredentials.NullTokenIsReported | electron/loginManager.js:199-386 | A whole run of one login that ends in a success whose only token is null. |
| LoginCredentials.HeadersHeldIff | electron/loginManager.js:128-133 | In every reachable state, however sessions overlap, headers are held exactly when some request since the last clean-up carried one its window's login asks for. |
| LoginCredentials.StartsFreshIff | electron/loginManager.js:75-109 | A login starts with no captured header exactly when none was carried since the last one ended. |
| LoginCredentials.LateRequestReachesNextLogin | electron/loginManager.js:128-133 | From any drained state but for a closing window, a run in which its request reaches the next login. |
| LoginManager.CaptureConfiguredHeaders | electron/lib/loginHeaderCapture.js:8-15 | The loop over header sources computes the reference capture. |
| LoginManager.LoginManager.CleanUp | electron/loginManager.js:407-428 | Clears the three timers, the window, the headers and the flags, and nothing else. |
| LoginManager.LoginManager.StartLogin | electron/loginManager.js:56-109 | Starts a session exactly when none is active; otherwise nothing changes. |
| LoginManager.LoginManager.TimerFires | electron/loginManager.js:199-251 | The timer callbacks are the protocol's timer steps. |
| LoginManager.LoginManager.CookiesArrive | electron/loginManager.js:242-323 | The cookie callback is the protocol's cookie step. |
| LoginManager.LoginManager.StorageArrives | electron/loginManager.js:289-310 | The page-storage callback is the protocol's storage step. |
| LoginManager.LoginManager.Check | electron/loginManager.js:333-371 | The credential check completes or re-arms exactly one poll. |
| LoginManager.LoginManager.WindowCloses | electron/loginManager.js:184-196 | The close callback is the protocol's close step. |
| LoginManager.LoginManager.RequestSent | electron/loginManager.js:128-133 | The request hook is the protocol's request step. |
| LoginManager.LoginManager.CancelLogin | electron/loginManager.js:391-402 | Cancelling is the protocol's cancel step. |
| LoginManager.LoginManager.GetActiveProvider | electron/loginManager.js:430-432 | No provider is active exactly when every promise handed out has been settled, once each. |

## Left out

- Characters: lower-casing is ASCII only and a character is one element of the string; Unicode folding and surrogate pairs are not modelled.
- Objects: fields are a list in insertion order; JavaScript's reordering of integer-like keys and keys found on the prototype are not modelled.
- Numbers are unbounded integers: rounding above 2^53, and a digit string so long that it reads as infinity, are not modelled.
- Header bags are plain records; `Headers` instances, which fold and join names by themselves, are not modelled.
- Derived ids: SHA-256 and the random UUIDs are parameters, so what is proved distinct is the text that is hashed, not the hash.
- Installation ids, client identity objects and the functions that write identity headers and metadata (`codexIdentity.ts:186-209, 273-580`): easy projections of the seed.
- FreeModelCatalog.ComputeTotals: does not return `perModel`, which keeps catalog order among equals, nor the formatted `headline`; the uncapped providers are a set, not its sorted list.
- RegistryUtils.GetAllModels: the extra fields a caller may merge into each entry are not modelled.
- Literal catalogs, alias tables, allow lists and field orders; auth headers, embedding dimensions and dimension conflicts.
- The audio registry: its catalog keeps already-prefixed ids that its parser strips, so its ids do not round-trip.
- GLM quota, team and Anthropic-side URLs, and full URL parsing; of `anthropicHeaders.ts`, `normalizeAnthropicHeaderVariants` and `uniqueCommaValues`; of `cliFingerprints.ts`, everything but the two reorderings.
- ProviderErrorRules.MonthlyQuotaCooldown: the error envelope is given as text, because the layout of its JSON is not modelled; of the other provider rules and the operator overrides nothing is modelled.
- SecretBootstrap: file reads and writes succeed, and the database probe is a parameter; which `.env` file is preferred is not modelled.
- ServerReadiness.WaitForServer: with a sleep function passed in it requires a positive poll interval when there is a budget, because `EndsIff` shows the loop has no end otherwise; such a function takes exactly as long as asked, timers fire on time, and an answer at the very end of an attempt counts as in time.
- Login: the status events for navigation and for long waits, the attempts' spacing in time, and the cookie domain match are not modelled; a reply is reduced to the configured names. `startLogin`'s answers when the configuration is missing change no state and are not steps. Provider ids are not empty.
- LoginManager.LoginManager.StartLogin: opening the window either succeeds or fails at once; a failure after the window exists is not modelled.
- Tray, updater, windows, process spawning, the service worker, the fetch handlers and startup sequencing.
