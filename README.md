# model-benchmark core, modelled in Dafny

model-benchmark collects single-page HTML implementations of a few simulation projects
written by different models, shows them side by side, and keeps a small tool chain around
them:
- a deterministic JSON serializer;
- a line-based similarity score;
- a hash-chained ledger;
- a policy-bounded fetcher;
- a snapshot store;
- a curated URL list;
- the server's request validators and SVG placeholder thumbnails;
- the client's error-message helper;
- a static viewer that routes on the address hash;
- the navigation helpers of the Nuxt front end;
- two scripts that turn reference HTML pages and local database rows into seed data.

This project models each of these pieces in Dafny and proves what each promises.
- **Modules.** There is one module per source file, plus shared modules:
  - `Wrappers`: `Option`, `Result` and `Outcome`;
  - `Strings`: JavaScript string operations on `seq<char>`;
  - `Seqs`: `map`, `filter` and `find`;
  - `Sorting`: the comparator sort;
  - `Js`: JavaScript values and object properties.
- **State.** Where the source updates state, the model does too. The snapshot store, the
  ledger and the viewer are classes whose methods modify their fields. The loops of the
  fetcher, the similarity count, the URL generator and the two seed scripts are `while`
  loops, each proved against a specification function.
- **Effects.** Everything outside the program becomes a parameter: the network, the file
  system contents, SHA-256, base64, `String(v)` and `JSON.stringify` with indentation.

## Model

| member | source | states |
|---|---|---|
| StableStringify.StableStringify | baseline/core/stableStringify.js:4-51 | succeeds exactly when the walk over the canonical value reaches no object twice, and then yields that value's rendering; otherwise fails with `Cannot stableStringify circular references` |
| StableStringify.Emit | baseline/core/stableStringify.js:7-48 | `serialize` with its `seen` set succeeds iff no reached object repeats or was seen before; on success it yields the rendering and adds every reached object to `seen` |
| StableStringify.EmitObject | baseline/core/stableStringify.js:28-45 | an object already in `seen` throws; otherwise it is recorded and written as its `toJSON` result or its properties, with the same success condition |
| StableStringify.EmitItems | baseline/core/stableStringify.js:23-26 | array elements are serialized in order and threaded through one `seen` set; the array itself is never recorded |
| StableStringify.EmitFields | baseline/core/stableStringify.js:39-44 | properties are serialized in order as `"key":value`, threading `seen` |
| StableStringify.Canonical | baseline/core/stableStringify.js:34-42 | canonicalisation keeps serializability, object-ness and identity; a canonical object keeps a `toJSON` hook only when the hook returns something other than the object itself |
| StableStringify.RenderFields | baseline/core/stableStringify.js:42 | each property is written as its JSON-quoted key, `:`, and its value's text |
| StableStringify.UnescapeEscape | baseline/core/stableStringify.js:13-15 | the body of a JSON string literal reads back as the original string |
| StableStringify.EscapePlain | baseline/core/stableStringify.js:13-15 | text without quotes, backslashes or control characters is written as itself |
| StableStringify.UnsupportedIsNull | baseline/core/stableStringify.js:8-21 | `null`, `undefined`, functions, symbols and non-numbers give `null` |
| StableStringify.BigIntAsNumber | baseline/core/stableStringify.js:16-18 | a bigint of magnitude at most 2^53 is written as the number of the same value |
| StableStringify.StringRoundTrip | baseline/core/stableStringify.js:13-15 | a string becomes a quoted literal whose body reads back as the string |
| StableStringify.ArrayElementsSucceed | baseline/core/stableStringify.js:23-24 | whenever an array serializes, so does each element |
| StableStringify.ArrayKeepsOrder | baseline/core/stableStringify.js:23-26 | an array's text is its elements' texts, in order, joined by commas inside brackets |
| StableStringify.ObjectFreeArraySucceeds | baseline/core/stableStringify.js:23-26 | an array whose elements reach no object always serializes |
| StableStringify.ObjectKeysAscending | baseline/core/stableStringify.js:39-41 | an object without a foreign `toJSON` is written with its keys in strictly ascending order |
| StableStringify.ObjectEntriesKept | baseline/core/stableStringify.js:39-40 | the written properties are exactly the serializable ones; `undefined`, function and symbol values are dropped, not written as `null` |
| StableStringify.KeyOrderIndependent | baseline/core/stableStringify.js:39-44 | two objects with the same properties in different insertion orders get the same canonical properties, the same text and the same result |
| StableStringify.ToJsonResultSerialized | baseline/core/stableStringify.js:34-37 | an object with a foreign `toJSON` is written as the hook's result, and fails iff that fails or reaches the object again |
| StableStringify.ToJsonReturningItself | baseline/core/stableStringify.js:34-35 | a `toJSON` returning the object itself changes nothing |
| StableStringify.SharedReferenceThrows | baseline/core/stableStringify.js:5 | one object reached from two array slots throws even without a cycle, because `seen` is never cleared |
| StableStringify.SelfReferenceThrows | baseline/core/stableStringify.js:29-32 | an object holding itself as a property throws the circular-reference error |
| StableStringify.CanonicalKeepsObjectField | baseline/core/stableStringify.js:39-42 | a property holding an object survives canonicalisation, with its value made canonical |
| StableStringify.RepeatedArrayExample | baseline/core/stableStringify.js:23-26 | the same array value twice serializes: arrays are never recorded in `seen` |
| StableStringify.ItemsExample | test/stableStringify.test.js:14-18 | `{items: [3, 2, 1]}` is written as `{"items":[3,2,1]}` |
| StableStringify.NestedExample | test/stableStringify.test.js:5-12 | `{b:1, a:{d:2, c:3}}` and `{a:{c:3, d:2}, b:1}` give the same text |
| Similarity.BoundedSimilarity | baseline/core/similarity.js:4-31 | the method's result is the specification `SimilaritySpec` |
| Similarity.CompareLineSets | baseline/core/similarity.js:20-30 | after normalisation the result is the Jaccard comparison of the two line sets |
| Similarity.CountIntersection | baseline/core/similarity.js:24-27 | the loop counts exactly the size of the intersection |
| Similarity.DropCr | baseline/core/similarity.js:12 | at most one carriage return that ends a line is removed |
| Similarity.SplitLines | baseline/core/similarity.js:12 | splitting on `\r?\n` always yields at least one line |
| Similarity.NormalizeLines | baseline/core/similarity.js:9-15 | normalisation keeps at most 10,000 lines |
| Similarity.NormalizeJoin | baseline/core/similarity.js:9-15 | normal lines joined by line feeds normalise back to the same lines |
| Similarity.SplitLinesJoin | baseline/core/similarity.js:12 | splitting lines joined by line feeds recovers them |
| Similarity.NormalizeEmpty | baseline/core/similarity.js:9-15 | the empty text has no lines |
| Similarity.ScoreInUnitInterval | baseline/core/similarity.js:4-31 | the score is a fraction between 0 and 1, and the method is `skipped-large` iff an input exceeds 50,000 characters |
| Similarity.SkippedWhenLarge | baseline/core/similarity.js:5-7 | an oversized input gives 0 with `skipped-large` |
| Similarity.Symmetric | baseline/core/similarity.js:4-31 | the score does not depend on argument order |
| Similarity.Identical | baseline/core/similarity.js:20-30 | a text that is not oversized is fully similar to itself |
| Similarity.SameOrDisjointLines | baseline/core/similarity.js:17-30 | equal line sets score 1; disjoint line sets, not both empty, score 0 |
| Similarity.OneMeansSameLines | baseline/core/similarity.js:17-30 | a full score means the two line sets are equal |
| Similarity.SmallEditExample | test/similarity.test.js:10-13 | `hello\nworld` against `hello\nplanet` scores 1/3 |
| Similarity.DisjointExample | test/similarity.test.js:15-18 | `a\nb\nc` against `x\ny\nz` scores 0 |
| Ledger.LedgerStore.constructor | baseline/ledger/ledgerStore.js:7-9 | the store holds its path, the file and the hash function |
| Ledger.LedgerStore.ComputeEntryHash | baseline/ledger/ledgerStore.js:15-17 | an entry's hash is SHA-256 of its stable text; a circular entry throws |
| Ledger.LedgerStore.ReadEntries | baseline/ledger/ledgerStore.js:19-28 | the method returns the specification `Entries` of the file |
| Ledger.LedgerStore.Append | baseline/ledger/ledgerStore.js:30-43 | the result and the new file are those of `AppendSpec` on the old file |
| Ledger.Entries | baseline/ledger/ledgerStore.js:19-28 | a missing file (`ENOENT`) has no entries; any other read error is rethrown |
| Ledger.ParseSegments | baseline/ledger/ledgerStore.js:22-23 | parsing succeeds iff no non-blank line is malformed, with at most one entry per line |
| Ledger.EntryHash | baseline/ledger/ledgerStore.js:15-17 | the hash exists iff the entry's stable text does, and then equals SHA-256 of that text |
| Ledger.AppendSpec | baseline/ledger/ledgerStore.js:30-43 | a failed append leaves the file unchanged; an entry that was written is one in which `JSON.stringify` meets no bigint |
| Ledger.BigIntEntryNotAppended | baseline/ledger/ledgerStore.js:39-41 | an entry with a bigint property is never written: `append` throws and the file keeps its content; once hashing has succeeded, the error is `JSON.stringify`'s "Do not know how to serialize a BigInt" |
| Ledger.VerifyLedger | baseline/ledger/ledgerStore.js:46-72 | the method returns the specification `LedgerVerdict` |
| Ledger.CheckEntry | baseline/ledger/ledgerStore.js:52-68 | a mismatch verdict names the entry's own index; a throw comes only from hashing the entry without `entry_hash` |
| Ledger.VerifyEntries | baseline/ledger/ledgerStore.js:51-69 | a mismatch is reported at an index inside the checked run |
| Ledger.EmptyLedgerOk | baseline/ledger/ledgerStore.js:25 | a missing ledger and an empty one both verify |
| Ledger.AppendLineEntries | baseline/ledger/ledgerStore.js:41 | appending a line to a well-formed file adds exactly one entry, after the others |
| Ledger.VerifyConcat | baseline/ledger/ledgerStore.js:51-69 | once a run verifies, what follows is checked against the run's last hash |
| Ledger.VerifyConcatStops | baseline/ledger/ledgerStore.js:53-67 | a failing run keeps its verdict whatever follows |
| Ledger.VerifyErrors | baseline/ledger/ledgerStore.js:61 | the only error verification throws is the serializer's circular-reference error |
| Ledger.FirstFailure | baseline/ledger/ledgerStore.js:51-69 | the reported index is the first failing entry; all entries before it verify |
| Ledger.AppendedEntryVerifies | baseline/ledger/ledgerStore.js:34-39 | an entry built by `append` passes both checks against the hash it was linked to |
| Ledger.AppendKeepsValid | baseline/ledger/ledgerStore.js:30-43 | appending an entry without its own `entry_hash` or `toJSON` to a verifying ledger leaves it verifying |
| Ledger.AppendLinks | baseline/ledger/ledgerStore.js:33-42 | the returned entry is the file's new last entry, linked to the previous last hash (`null` for the first) |
| Ledger.HashesDiffer | baseline/ledger/ledgerStore.js:16 | with a collision-free SHA-256, different stable texts have different hashes |
| Ledger.TamperDetected | test/ledger.test.js:29-47 | changing a stored entry without recomputing its hash makes verification fail at that entry with `entry_hash mismatch` |
| Ledger.TamperedAt | baseline/ledger/ledgerStore.js:60-67 | for any hash function, an entry whose hashed part hashes differently fails at its index |
| Ledger.VerifyAt | baseline/ledger/ledgerStore.js:51-69 | once the entries before `k` verify, the verdict is decided from entry `k` on |
| Ledger.SuppliedEntryHashBreaksChain | baseline/ledger/ledgerStore.js:34-39 | an entry given with its own `entry_hash` is hashed with it, so the stored entry fails verification |
| Ledger.HashMismatchAt | baseline/ledger/ledgerStore.js:62-67 | a correctly linked entry whose stored hash differs from the computed one fails with `entry_hash mismatch` |
| Fetcher.AnyMatches | baseline/fetch/fetcher.js:14 | true iff some pattern of the allow list matches |
| Fetcher.IsAllowedContentType | baseline/fetch/fetcher.js:12-15 | a missing or empty content type is refused; any other is allowed iff some pattern matches |
| Fetcher.DefaultContentTypes | baseline/fetch/fetcher.js:7-10 | under the default list a type is allowed iff it starts with `text/` or `application/json`, `xml` or `javascript`, ignoring case |
| Fetcher.NormalizeHeaders | baseline/fetch/fetcher.js:47-55 | the result holds exactly the five listed headers the response carries, with their values |
| Fetcher.ReadBodyWithLimit | baseline/fetch/fetcher.js:17-45 | the loop's result is the specification `ReadBody` |
| Fetcher.ScanTruncates | baseline/fetch/fetcher.js:25-40 | reading truncates iff some chunk brings the running total over the cap; then the body is dropped, otherwise all chunks are kept in order |
| Fetcher.ReadBodyBudget | baseline/fetch/fetcher.js:29-44 | with a non-negative cap the body is dropped iff its total size is over the cap; a body of exactly `maxBytes` is kept |
| Fetcher.TotalSkipsMissing | baseline/fetch/fetcher.js:28 | a read without a value adds nothing to the count |
| Fetcher.ConcatLength | baseline/fetch/fetcher.js:42-44 | the concatenated buffer's length is the byte count |
| Fetcher.FetchWithPolicy | baseline/fetch/fetcher.js:57-174 | the method's result is the specification `FetchSpec` |
| Fetcher.FetchFollowsRedirects | baseline/fetch/fetcher.js:70-170 | `blocked` iff `maxRedirects < 0`; otherwise at most `maxRedirects` hops, each to the resolved Location, and the last request decides the outcome |
| Fetcher.DefaultRedirectLimit | baseline/fetch/fetcher.js:4 | the default policy follows at most five redirects |
| Fetcher.FinishGates | baseline/fetch/fetcher.js:109-161 | a refused type skips the body; an over-cap body gives `max_bytes_exceeded` without body or size; otherwise `success` iff the status is 2xx, with body, size and content type |
| Fetcher.FinishNotBlocked | baseline/fetch/fetcher.js:109-161 | a final response never gives `blocked` and reports the chain followed so far |
| Fetcher.StopFailed | baseline/fetch/fetcher.js:74-97 | a transport failure ends the run with its classified outcome |
| Fetcher.FirstReplyFinal | baseline/fetch/fetcher.js:100-107 | a first reply that is not a 3xx decides the fetch |
| Fetcher.ImagePngSkipped | test/fetcher.test.js:15-19 | a 200 reply typed `image/png` is `skipped_content_type` |
| Fetcher.LargeBodyExceedsBudget | test/fetcher.test.js:21-26 | a 10,000-byte `text/plain` body under a 1,000-byte cap is `max_bytes_exceeded` |
| Fetcher.TextPlainAllowed | baseline/fetch/fetcher.js:8 | `text/plain` is allowed by default |
| SnapshotStore.FilesystemStore.constructor | baseline/store/filesystemStore.js:5-7 | the store holds its root (a normal path) and the given file system |
| SnapshotStore.FilesystemStore.EnsureDir | baseline/store/filesystemStore.js:9-11 | the directory is added and no file changes |
| SnapshotStore.FilesystemStore.WriteArtifact | baseline/store/filesystemStore.js:13-20 | a falsy body writes nothing and returns `undefined`; otherwise the body is written to `artifacts/<id>.txt` and that path is returned |
| SnapshotStore.FilesystemStore.WriteSnapshot | baseline/store/filesystemStore.js:22-36 | the snapshot is the input plus `artifactPath`; the files and directories become `FilesAfter` and `DirsAfter` of the old ones |
| SnapshotStore.PathsDistinct | baseline/store/filesystemStore.js:17-32 | the artifact path differs from both snapshot paths |
| SnapshotStore.SnapshotKeepsInput | baseline/store/filesystemStore.js:27 | every input property other than `artifactPath` is kept unchanged |
| SnapshotStore.SnapshotFilesAgree | test/filesystemStore.test.js:16-28 | the snapshot file and `latest.json` hold the same text, and the artifact holds the body |
| SnapshotStore.OnlyThreePathsChange | baseline/store/filesystemStore.js:13-36 | under a normal root and an id without `/`, no file other than the snapshot, `latest.json` and the artifact (when there is a body) changes |
| SnapshotStore.WriteSnapshotIdempotent | baseline/store/filesystemStore.js:22-36 | writing the same input twice leaves the same files as writing it once |
| CuratedUrls.StripOneSlash | baseline/urls/generate.js:20 | one trailing slash is removed, and only when present |
| CuratedUrls.RootPathIsOrigin | baseline/urls/generate.js:19-24 | for an origin, the root path, with or without its slash, gives the bare origin |
| CuratedUrls.NormalizeUrl | baseline/urls/generate.js:19-24 | no contract of its own; `RootPathIsOrigin`, `SlashesOptional` and `PathAppended` state its results |
| CuratedUrls.SlashesOptional | baseline/urls/generate.js:20-21 | for an origin and a plain path, a missing leading slash on the path, or a trailing one on the base, changes nothing |
| CuratedUrls.PathAppended | baseline/urls/generate.js:19-24 | a plain path without a trailing slash is appended to the origin as it is |
| CuratedUrls.LastSegment | baseline/urls/generate.js:28 | the last segment is a slash-free suffix preceded by a slash |
| CuratedUrls.IsSuspicious | baseline/urls/generate.js:26-30 | no contract of its own; `SuspiciousIff` states when it holds |
| CuratedUrls.SuspiciousIff | baseline/urls/generate.js:26-30 | a URL is suspicious iff its lower-cased text contains `/baseline-` or its last segment ends in three digits |
| CuratedUrls.BaselinePathSuspicious | baseline/urls/generate.js:27 | a URL holding `/baseline-` is suspicious |
| CuratedUrls.EndpointUrlsAt | baseline/urls/generate.js:35-38 | position `j` of one endpoint's URLs is path `j` normalised against the origin |
| CuratedUrls.AllUrlsListed | baseline/urls/generate.js:34-39 | the pushed URLs are exactly the normalised table entries |
| CuratedUrls.Distinct | baseline/urls/generate.js:41 | `Array.from(new Set(...))` keeps every element once |
| CuratedUrls.CuratedListProperties | baseline/urls/generate.js:41-43 | the list is strictly ascending and holds exactly the listed URLs that are not suspicious |
| CuratedUrls.NoBaselinePaths | test/url-generation.test.js:8-10 | no URL of the list contains `/baseline-` |
| CuratedUrls.CuratedListDeterministic | test/url-generation.test.js:12-14 | the list depends only on which URLs the table lists |
| CuratedUrls.CuratedUrlsFrom | baseline/urls/generate.js:32-44 | the loops' result is `CuratedList`: strictly sorted, the non-suspicious normalised entries |
| CuratedUrls.GenerateCuratedUrls | baseline/urls/generate.js:4-44 | the same on the curated table of twelve origins |
| Validation.ValidateRequiredIff | server/utils/validation.ts:8-19 | passes iff no listed field is missing; otherwise a 400 naming the missing fields joined by `, ` |
| Validation.MissingMeans | server/utils/validation.ts:12 | a field is missing iff it is absent, falsy, or a whitespace-only string |
| Validation.MissingFieldsInOrder | server/utils/validation.ts:12 | the missing fields keep their listed order |
| Validation.ValidateProjectIdIff | server/utils/validation.ts:24-31 | passes iff the id is non-empty and made only of `a-z`, `0-9` and `-`; otherwise 400 |
| Validation.AllProjectIdCharsMeans | server/utils/validation.ts:25 | the pattern check holds iff every character is allowed |
| Validation.ValidateStatus | server/utils/validation.ts:36-43 | passes iff the status is `pending`, `approved` or `rejected`; otherwise 400 with the fixed message |
| Validation.ValidateDifficulty | server/utils/validation.ts:48-55 | passes iff the difficulty is `small`, `medium` or `advanced`; otherwise 400 with the fixed message |
| Validation.ValidateFilePathCases | server/utils/validation.ts:60-67 | any `<dir>/index.html` passes; the bare `index.html` fails with 400 |
| Validation.ValidateFilePathIff | server/utils/validation.ts:60-67 | a path passes iff it is `<dir>/index.html` for some `dir`; every other path fails with the one 400 |
| Validation.ValidateFilePath | server/utils/validation.ts:60-67 | no contract of its own; `ValidateFilePathIff` states it in both directions |
| Thumbnail.EscapeXml | server/utils/thumbnail.ts:109-116 | no contract of its own; `EscapeXmlPerChar`, `EscapedIsInert` and `UnescapeEscapeXml` state what it does |
| Thumbnail.EscapeXmlPerChar | server/utils/thumbnail.ts:109-116 | the five chained replacements escape each character independently |
| Thumbnail.EscapeXmlChar | server/utils/thumbnail.ts:110-115 | one character becomes its entity; replacing `&` first means no entity is escaped twice |
| Thumbnail.EscapeXmlAppend | server/utils/thumbnail.ts:109-116 | escaping distributes over concatenation |
| Thumbnail.EscapedIsInert | server/utils/thumbnail.ts:109-116 | escaped text holds no `<`, `>`, `"` or `'`, and each `&` starts an entity |
| Thumbnail.PlainTextUnchanged | server/utils/thumbnail.ts:109-116 | text free of the five special characters is unchanged |
| Thumbnail.UnescapeEscapeXml | server/utils/thumbnail.ts:109-116 | decoding the entities recovers the original text |
| Thumbnail.FindConfig | server/utils/thumbnail.ts:71-97 | an entry is found iff the table has that key, and it is the table's triple |
| Thumbnail.GetProjectConfig | server/utils/thumbnail.ts:70-104 | the configuration (read from own entries) always has a non-empty label |
| Thumbnail.ConfigReadsAgree | server/utils/thumbnail.ts:99-103 | the own-entry read agrees with the source's read on every non-inherited key |
| Thumbnail.ProjectConfigTable | server/utils/thumbnail.ts:71-103 | known ids get their colours and labels; unknown, missing or empty ids get `#6366f1`, `#8b5cf6`, `Project` |
| Thumbnail.Placeholder | server/utils/thumbnail.ts:60-64 | the result always starts with `data:image/svg+xml;base64,` |
| Thumbnail.ProjectLineOnlyWithId | server/utils/thumbnail.ts:47-51 | a non-empty project id adds the project line with the escaped table label |
| Thumbnail.NoProjectLineWithoutId | server/utils/thumbnail.ts:47-51 | without an id, or with an empty one, the default colours apply and no project line appears |
| Thumbnail.LabelCannotBreakOut | server/utils/thumbnail.ts:42-44 | the label inside the text element is inert |
| Thumbnail.GenerateThumbnailDefaultLabel | server/utils/thumbnail.ts:11 | a missing label is replaced by `Submission` |
| Thumbnail.GenerateThumbnailEmptyLabel | server/utils/thumbnail.ts:11 | an empty label is replaced by `Submission` |
| Thumbnail.GenerateThumbnailGivenLabel | server/utils/thumbnail.ts:11 | a non-empty label is used as given |
| Thumbnail.GenerateThumbnailIgnoresHtml | server/utils/thumbnail.ts:7-12 | the HTML content never affects the thumbnail |
| Thumbnail.ConstructorIdValid | server/utils/validation.ts:24-31 | `constructor` passes the project-id check |
| Thumbnail.ConstructorIdThrows | server/utils/thumbnail.ts:99 | as written, the placeholder for project id `constructor` throws |
| Thumbnail.PlaceholderTotal | server/utils/thumbnail.ts:99-103 | reading own entries only, inherited names get the default configuration; wherever the code as written succeeds, the two agree |
| ErrorHandler.GetErrorMessage | composables/useErrorHandler.ts:10-59 | a returned message is always truthy; it throws iff the error has no data message and either a truthy top-level message that is neither a string nor an array (`includes` is not a function) or no message and a symbol status code (the template literal cannot convert it) |
| ErrorHandler.FalsyError | composables/useErrorHandler.ts:11 | a falsy error gets `An unexpected error occurred` and type `unknown` |
| ErrorHandler.StatusMessageFirst | composables/useErrorHandler.ts:14-16 | a truthy `data.statusMessage` is returned, whatever else the error holds |
| ErrorHandler.DataMessageSecond | composables/useErrorHandler.ts:19-21 | without one, a truthy `data.message` is returned |
| ErrorHandler.TopLevelMessage | composables/useErrorHandler.ts:24-33 | a message mentioning `fetch` gives the network text, else one mentioning `timeout` gives the timeout text, else the message itself |
| ErrorHandler.StatusCodeMessage | composables/useErrorHandler.ts:36-58 | with no message, a truthy status code other than a symbol picks its text, a symbol code throws the `TypeError`, and without a code the fallback text is given |
| ErrorHandler.SymbolStatusCodeThrows | composables/useErrorHandler.ts:53 | `{statusCode: Symbol()}` makes both `getErrorMessage` and `getErrorType` throw |
| ErrorHandler.StatusTextOtherNumber | composables/useErrorHandler.ts:52-53 | an unlisted numeric code gets `Error <code> - please try again` |
| ErrorHandler.StatusTextOfString | composables/useErrorHandler.ts:37-53 | the string `"404"` misses the `case 404` and gets the generic text |
| ErrorHandler.StatusTextIdentifiesCode | composables/useErrorHandler.ts:37-54 | two different numeric codes never share a text |
| ErrorHandler.IntTextInjective | composables/useErrorHandler.ts:53 | different integers have different decimal texts |
| ErrorHandler.GetErrorType | composables/useErrorHandler.ts:64-87 | it throws iff the error is truthy, its message mentions no network word and its status code is a symbol, which `>= 500` cannot convert; the returned types are stated by `NetworkIff` and `StatusCodeType` |
| ErrorHandler.NetworkIff | composables/useErrorHandler.ts:67-72 | the type is `network` iff the lower-cased message contains `fetch` or `network` |
| ErrorHandler.StatusCodeType | composables/useErrorHandler.ts:74-86 | otherwise 404 is `not-found`, 400 and 422 are `validation`, 500 and above are `server`, and any other number is `unknown` |
| ErrorHandler.SignedCodeCompares | composables/useErrorHandler.ts:82 | a signed digit string such as `"+503"` compares as its number |
| ErrorHandler.StatusCodeSource | composables/useErrorHandler.ts:68 | the error's own truthy `statusCode` wins over `data.statusCode` |
| ErrorHandler.FetchMessageIsNetwork | composables/useErrorHandler.ts:26-27 | a message that the text calls a network error is also typed `network` |
| ErrorHandler.NetworkTypeShownVerbatim | composables/useErrorHandler.ts:26-32 | a message typed `network` only through the word `network` is shown verbatim, not as the network text |
| ErrorHandler.LowerKeepsNeedle | composables/useErrorHandler.ts:67-70 | lower-casing keeps every occurrence of a lower-case needle |
| ViewerApp.ParseHash | app.js:68-73 | no contract of its own; `ParseHashIff`, `ParseHashOf` and `ParseHashIgnoresExtra` state what it reads |
| ViewerApp.ParseHashIff | app.js:68-73 | a hash names a route iff it starts with `#/` and has another `/` after that |
| ViewerApp.ParseHashOf | app.js:68-73 | the hash `#/<p>/<m>` reads back as project `p` and model `m` when neither holds a `/` |
| ViewerApp.ParseHashIgnoresExtra | app.js:70-72 | segments after the second are ignored |
| ViewerApp.RoutedProject | app.js:81 | the routed project is one of the manifest's |
| ViewerApp.RoutedImplementation | app.js:82 | an implementation is picked iff the project has one, and it is the project's |
| ViewerApp.SelectionIds | app.js:87-91 | a found pair carries the requested ids and comes from the manifest; an unknown id finds nothing |
| ViewerApp.Viewer.constructor | app.js:7-9 | nothing is selected, no item is active, and the preview, link and status are empty |
| ViewerApp.Viewer.UpdateActiveState | app.js:111-117 | each item is active iff it names the current project and model; nothing else changes |
| ViewerApp.Viewer.SelectImplementation | app.js:87-109 | an unknown pair changes nothing; a known one becomes current, sets the hash when asked, the preview source and the open link to its path, the `Loaded <m> for <p>` status, and exactly its items are active |
| ViewerApp.Viewer.ApplyRoute | app.js:75-85 | nothing changes without projects; otherwise the routed pair is selected with its preview, link and status, and the hash is left alone; a project without implementations throws and changes nothing |
| ViewerApp.RoutedPairSelectable | app.js:81-84 | the pair `applyRoute` picks is found again by `selectImplementation` |
| ViewerApp.RouteFallbacks | app.js:81-82 | an unparsable hash or unknown project routes to the first project, and an unknown model to its first implementation |
| ViewerApp.RouteOfWrittenHash | app.js:97 | the hash `selectImplementation` writes routes back to the same pair |
| Projects.BuildNavigationLinks | utils/projects.ts:28-41 | one open `project` entry per project in order, with its title and summary, and one child per model with `<slug>-<id>` and its meta |
| Projects.BuildTaskItems | utils/projects.ts:43-51 | nothing for a missing project; otherwise one item per task, in order, whose points are the task's details |
| Projects.SelectDefaultProjectModel | utils/projects.ts:53-61 | the first project, and its first model, each when it exists |
| Projects.DefaultIsFirstEntry | utils/projects.ts:28-61 | the default selection is the first child of the first navigation entry |
| Projects.EntryValuesDistinct | utils/projects.ts:37 | within one project, different model ids give different entry values |
| Projects.EntryValuesCanCollide | utils/projects.ts:37 | across projects, values can collide (`a-b` with `c`, `a` with `b-c`) |
| SeedBuilder.EscapeTemplateLiteral | scripts/build-seed-from-html.js:29-34 | no contract of its own; `EscapeInOnePass` and `TemplateRoundTrip` state what it does |
| SeedBuilder.EscapeInOnePass | scripts/build-seed-from-html.js:29-34 | the three replacement passes equal a one-pass escaping |
| SeedBuilder.TemplateRoundTrip | scripts/build-seed-from-html.js:29-34 | the escaped HTML, read as a template literal body, denotes the HTML with CR LF and lone CR turned into LF, and exactly the HTML when it has no CR |
| SeedBuilder.CrLfBecomesLf | scripts/build-seed-from-html.js:114 | a page saved with CR LF line ends comes back from the seed file with LF alone |
| SeedBuilder.ReadEscapedOnePass | scripts/build-seed-from-html.js:29-34 | the one-pass escaping reads back as its input with line ends normalised to LF |
| SeedBuilder.BacktickFirstWouldBreak | scripts/build-seed-from-html.js:31-32 | escaping backticks before doubling backslashes would not read back |
| SeedBuilder.LabelRoundTrip | scripts/build-seed-from-html.js:113 | a label without backslashes or line breaks reads back from its quoted literal |
| SeedBuilder.TrailingBackslashLabel | scripts/build-seed-from-html.js:113 | backslashes are not escaped, so a label ending in one does not read back |
| SeedBuilder.TableGet | scripts/build-seed-from-html.js:55 | a lookup finds a value iff the table has the key, and it is the table's value |
| SeedBuilder.ProjectIdMapIsIdentity | scripts/build-seed-from-html.js:12-18 | every known directory maps to the project of the same name |
| SeedBuilder.BuildSeedData | scripts/build-seed-from-html.js:45-90 | the loop's result is `SeedDataOf` the listed directories |
| SeedBuilder.OneEntryPerKeptProject | scripts/build-seed-from-html.js:54-81 | when kept directories lead to different projects, the data holds exactly one entry per kept directory (a directory the id map knows whose `index.html` reads as non-empty text), in order |
| SeedBuilder.ScriptTablesKeepOnePerDirectory | scripts/build-seed-from-html.js:12-18 | with the script's tables, distinct directories always lead to different projects |
| D1Seed.EscapeSql | scripts/seed-d1-from-local.mjs:45 | a falsy input gives the empty string |
| D1Seed.DoubleQuotesRoundTrip | scripts/seed-d1-from-local.mjs:45 | collapsing `''` back to `'` recovers the input, so nothing else changes |
| D1Seed.EscapeSqlRoundTrip | scripts/seed-d1-from-local.mjs:45 | any string read back from its escaping is itself; a missing one reads back empty |
| D1Seed.ProjectValuesRead | scripts/seed-d1-from-local.mjs:29-35 | a project's id, label and folder are quote-doubled and quoted, and its times written as numbers |
| D1Seed.SubmissionNulls | scripts/seed-d1-from-local.mjs:54-58 | (corrected) a missing or empty thumbnail, a missing or zero review time and missing or empty `reviewer_notes` are `NULL`, and only those; as written the notes are always `NULL` (see ReviewerNotesDropped) |
| D1Seed.ReviewerNotesKept | scripts/seed-d1-from-local.mjs:58 | (corrected) present notes are read back from their literal |
| D1Seed.UnescapedIdBreaks | scripts/seed-d1-from-local.mjs:48 | the submission id is not escaped, so an id with a quote ends its literal early |
| D1Seed.BuildStatements | scripts/seed-d1-from-local.mjs:25-64 | (corrected) one statement per project in order, then one per submission in order, each submission inserted with its `reviewer_notes`; the as-written insert is SubmissionInsertAsWritten |
| D1Seed.ReviewerNotesDropped | scripts/seed-d1-from-local.mjs:58-62 | as written, the output does not depend on the row's notes, and the named column `review_notes` is not a column of the table |
| D1Seed.ColumnNotInSchema | server/database/migrate.ts:14-27 | `review_notes` is not among the `submissions` columns |

## Left out

- **Host effects become parameters.** These are the network (`fetch`, `AbortController`,
  the timer, `durationMs`), the file system (`mkdir`, `readFile`, `writeFile`,
  `appendFile`, `readdirSync`, `statSync`), SHA-256, base64 and `String(v)` of objects.
  The model takes them as inputs or function parameters; it does not model them.
- **Floating point.** The similarity score is an exact fraction. Numbers in the serializer
  are integers; non-integers, `NaN` and `Infinity` are not represented.
- BigIntAsNumber: stated only for magnitudes up to 2^53. Above that the source rounds
  through `Number(val)`, writes exponent form from 1e21 on, and `null` for `Infinity`.
  The model writes the exact digits of every integer, for numbers and bigints alike.
- **JSON parsing.** `JSON.parse` of a ledger line is assumed to give back the entry
  `JSON.stringify` wrote. This is exact for entries of strings, integers, booleans, `null`,
  arrays and plain objects; for properties `JSON.stringify` drops or rewrites (`undefined`,
  functions, symbols, `toJSON` results) the model reads back the entry as it was given. `stableParse` is `JSON.parse` and is not modelled. Only the
  string-literal round trip of the serializer is proved.
- **Character handling.** `TextDecoder` UTF-8 decoding keeps the bytes. `toLowerCase`
  covers ASCII only. `new URL(...)` is a parameter in the fetcher. In the URL generator it
  is modelled only for an origin and a plain path (`IsOrigin`, `PlainPath`).
- Strings: strings are sequences of Unicode scalar values, not of UTF-16 code units.
  - JavaScript compares and counts code units. `Strings.Less`, the serializer's key
    order and the curated URL sort differ from the source for keys with characters
    beyond U+FFFF: U+1F600 sorts before U+FF61 in JavaScript, but after it here.
  - The 50,000-character gate of `boundedSimilarity` counts such a character once, not
    twice.
  - Lone surrogates cannot be represented.
- **Concurrency.** The read-then-append in the ledger is not atomic, and two concurrent
  callers are not modelled.
- **Out-of-scope code.** `writeStarterList`, the D1/SQLite repositories, the API handlers,
  the mappers and the database plugin are not part of this model.
- Fetcher: `blocked` is returned only when `maxRedirects < 0`, as the code does. A
  budget of zero follows no redirect and reports the first reply.
- Fetcher: a `max_bytes_exceeded` result carries no byte count, as in the code.
- Fetcher: allow-list entries are case-insensitive anchored prefix patterns
  (`AnchoredPrefix`). Arbitrary regular expressions are not modelled.
- Fetcher: `resolve` (the `new URL(location, currentUrl)` of a redirect) is a total
  parameter. The `TypeError` it throws on a malformed `Location` is not modelled.
- Fetcher: an abort while the body is read throws out of `fetchWithPolicy`; it is not
  modelled.
- ViewerApp: `loadManifest`, `renderSidebar` and the DOM text of the selection line are
  not modelled, because they only write the page. The sidebar items are given as data.
- ViewerApp: the `hashchange` listener re-entering `applyRoute` after a hash write is not
  modelled. `SelectImplementation` records the new hash and stops there.
- ViewerApp: a manifest without `projects` is treated like one with no projects. A
  project without `implementations` is treated like one with an empty list.
- SeedBuilder: `projectIdMap[dir]` is read as a table of own entries. A directory named
  after an `Object.prototype` member (`constructor`) is not modelled.
- SeedBuilder: escapes other than those the escaping produces read back as `None`.
- SeedBuilder: the fixed text around the entries in `generateSeedFile` is not modelled.
  Only the label and template-literal escaping of each entry is.
- SeedBuilder: the labels table is not checked for backslashes; every label in it has
  none.
- D1Seed: the two `SELECT *` queries, writing `/tmp/seed-d1.sql` and the console output
  are not modelled. The rows are given as data.
- D1Seed: numbers are written with `String(n)` for integers only.
- Thumbnail: the placeholder is built from `PlaceholderTemplate`, the SVG text of
  `server/utils/thumbnail.ts` word for word. The lemmas about the placeholder are stated for
  any template (`SvgTemplate`), so they do not depend on that text.
- ErrorHandler: `String(v)` of a non-number, non-string value is the parameter `toText`.
  Whether `error.message.includes` exists on other message types is reduced to strings
  and arrays. A symbol status code, which the template literal and `>=` cannot convert,
  throws in the model as in the source. An object whose own `toString` or `valueOf`
  throws during those conversions is not modelled.
- OnlyThreePathsChange: stated for a normal root and an id without `/`. The store
  requires both (`NormalRoot`, `ValidInput`), because `JoinPath` concatenates where
  `path.join` normalises.
  - With an id like `x/../latest`, the source overwrites `artifacts/latest.txt`.
  - With an id like `a/b`, its `writeFile` throws `ENOENT`.
  - With an empty root it writes relative paths.
  None of this is modelled.
- SnapshotStore: the id is its string text (the text `${input.id}` gives). A truthy
  body that is not a string, on which `writeFile` throws, is not modelled.
- StatusCodeType: `NumericValue` reads numbers, bigints, booleans, `null`, and decimal
  strings with an optional sign. JavaScript's `>= 500` also converts `"5e2"`, `"0x1F4"`,
  `"Infinity"` and one-element arrays like `[600]`, which then give `server`. The model
  gives `unknown` for them.
- StableStringify: an array that contains itself cannot be represented. The source does
  not record arrays in `seen`, so it recurses until a `RangeError` is thrown.
- Js: `toJSON` is represented only by an object's `hook`. A property named `toJSON` in
  `fields` is read as an ordinary property. In the source an own `toJSON` method is called
  by both `stableStringify` and `JSON.stringify`, and a truthy `toJSON` that is not a
  function makes `stableStringify` throw a `TypeError`; neither is modelled.
- Ledger.AppendKeepsValid: stated only for an entry without an own `toJSON` property,
  because such a property is not modelled as a method (see `Js` above).
- Ledger.AppendLinks: stated only for an entry without an own `toJSON` property, for the
  same reason.
- Js: object key ordering of integer-like keys (which JavaScript enumerates first) is not
  modelled. Keys are kept in insertion order.

## Findings

| source | as written | input that shows it | evidently intended | confidence | as-written member | corrected member |
|---|---|---|---|---|---|---|
| server/utils/thumbnail.ts:99 | `configs[projectId \|\| '']` also reads members inherited from `Object.prototype`. For `constructor` it gets the `Object` function, whose `label` is `undefined`, so `escapeXml(undefined)` throws. | project id `constructor`, which passes `validateProjectId` | an unknown id gets the default colours and the `Project` label | not executed | Thumbnail.ConstructorIdThrows | Thumbnail.PlaceholderTotal |
| scripts/seed-d1-from-local.mjs:58-62 | The script reads `submission.review_notes` and inserts into a `review_notes` column. The `submissions` table has `reviewer_notes` (server/database/migrate.ts:25), so the notes are always `NULL`, and the statement names a column the table lacks. | any submission row with non-empty `reviewer_notes` | the notes are copied into `reviewer_notes` | not executed | D1Seed.ReviewerNotesDropped | D1Seed.ReviewerNotesKept |
