# Trajectory cache, replay runner and text layer: a Dafny model

This project models three linked parts of Paragent and proves what they promise each other.

1. **The trajectory cache.** A compiled bundle is checked row by row by a write-time privacy authority, split into
   pool and tenant copies, and appended to two files behind two indexes. A resolver returns a program only when the
   store provably holds all of it. Outcomes reported later update a confidence record through the same authority.
   The compiler's assertion synthesis, its pool pre-check and the two adapters that turn rows into programs belong
   here too.
2. **The replay runner.** A step loop with a nested repair loop, an allowance of repairs shared by the whole run, a
   wall-clock budget, cost accumulators, and a repair client that is not trusted to leave assertions alone; then the
   report that is computed from the rows a run emits.
3. **The text layer.** Lifting bound values out of text into `{holes}` and putting them back, the URL pattern a
   template compiles to, and canonical JSON in its three forms.

Strings are character sequences throughout; templates, patterns, JSON texts, key strings and the two JSONL files are
never replaced by pre-parsed structures. Code the repository writes as loops and updates is written as methods, each
proved against a function, and what the code promises is proved about that function.

## Layout

| file | what it models |
|---|---|
| Base.dfy | string order, a stable sort and its laws, decimal text |
| Text.dfy, Redact.dfy, UrlRegex.dfy | holes and interpolation, lifting, URL patterns |
| Json.dfy, Canonical.dfy, AtFree.dfy | printing JSON, equality up to key order, texts without `@` |
| JsonLines.dfy, RowLines.dfy | why JSON lines survive a crash and never glue; the lines rows are written as |
| CacheTypes.dfy, Taint.dfy, Write.dfy | row shapes, taint rules and literals, the write-time authority |
| Store.dfy, Reload.dfy | the two-index, two-file store; reopening it whole, torn, and written to after a tear, whatever the files held |
| Resolve.dfy, Ingest.dfy, IngestResolve.dfy | whole-program resolution, all-or-nothing ingest, the two together |
| Confidence.dfy, Update.dfy | outcomes, the average and the invalidation mark; recording outcomes; pool safety over runs |
| Pool.dfy, Locators.dfy, Synthesize.dfy, Compile.dfy, ReadBack.dfy | the compiler: pre-check, locator chains, assertions, rows; what rows and assertions say, read back |
| Params.dfy, Programs.dfy | the binding check before a run; programs and their round trip through the cache |
| Costs.dfy, Runs.dfy, Replay.dfy | costs and metric rows; what a run did and what follows; the runner |
| Metrics.dfy, Reports.dfy | the report's aggregates; their agreement with the runs |

## Where the code does not do what one might expect

Each of these is a proved statement about the code as it is.

- **A row appended after a crash can be lost.** Reading skips a torn last line, as documented, but the next append
  starts on that same line. `Reload.AppendAfterTear` gives the exact condition for any file text: the new row survives a
  reload if and only if nothing but blanks follows the last line break; otherwise it is lost with whatever that line
  held, even a whole row that only lacked its line break. `JsonLines.JsonLinesNeverGlue` shows JSON gives no way out.
- **So an ingest onto a torn tenant file can lose its first step's tenant copy.** This process finds the program, the
  next one may not. `IngestResolve.LostFirstIff`: it finds the program if and only if what it reads under that step (an
  older tenant row, else the pool copy, else an older pool row) is a row of it. A first row that may not be pooled is
  safe: its pool copy goes first and is lost instead. At pool scope a torn pool file costs the first poolable step its
  pool copy and no other (`IngestResolve.OverlaysRereadPool`).
- **An upload's parameter is not required.** `upload` refuses to act without a bound path, and the check before the run
  does not ask for one. `Params.UploadSlipsThrough` is the program, `Params.PreflightCoversIff` the exact condition for
  any program, `Programs.CompiledProgramIsCovered` the one for compiled programs, in terms of the recording.
- **A value that is part of its own binding's name survives its own lifting.** `Redact.TitleSurvives`: with `title_text`
  bound to `title`, the text `title` becomes `{title_text}`. The exact condition, for any number of overlapping bindings,
  is `Redact.ValueGoneIff`: a value is gone from every text if and only if no hole that can be inserted into a text
  comes out of the later replacements with the value in it. `Redact.BoundValueGoneIff` reads it off the bound values
  alone; `Redact.DistinctValuesGoneIff` is the shorter form for distinct values.
- **Recording a pass can erase a step's locators.** `recordStepOutcome` reads the tenant copy and writes it back
  through the pool builder. `Update.PassErasesTenantStep` shows that a step whose assertion is tenant-specific loses
  its whole chain on its first plain PASS; `Update.ChainKeptIff` says exactly when a chain is kept.
- **Reopening can change `get`.** `Reload.ReopenedAnswers`: the merged answer after a reload is the last tenant row if
  there is one, so it is the in-process answer if and only if the key has no tenant row or its last write was one.
- **Lifting breaks a hole whose name contains a bound value.** `Redact.ClashBreaksRoundTrip` is a concrete case;
  `Redact.LiftRoundTrip` says the round trip holds if and only if no replacement hits the name of a bound hole, and
  `Redact.TextsRoundTripIff` that it holds for every text if and only if no bound name contains a value that may be
  replaced.
- **The pre-check is looser than the authority on one-word pages.** `Compile.OneWordPageIsRefused`; with absolute URL
  templates it never is (`Compile.EligibleRowsAreAccepted`), and `Pool.LooserIff` is the exact condition for any row.
- **An empty `regex_template` hides holes from the binding check.** It is the other half of `Params.PreflightCoversIff`.
- **A repair client that rewrites the step's assertion and then throws leaves it rewritten.** The check that follows a
  returned proposal is skipped. After `Replay.ReplayRunner.Run` a step object has another assertion than before if and
  only if that happened at its last question (`Runs.ChangedOnlyByThrow`); no attempt is judged by the rewritten
  assertion (`Runs.JudgedAlike`).
- **Re-writing an ineligible pool row can change its recorded reason.** `Write.RewritingPoolRow` says for which reasons
  it does not; chain and eligibility never change.
- **A leftover row hides a freshly ingested program.** If a row beyond the bundle's last step still carries the same
  program id, `resolveProgram` misses; `IngestResolve.ResolvesAfterIngest` shows that this is the only way to miss.

## Model

| member | source | states |
|---|---|---|
| Text.SplitJoin | src/recorder/redact.ts:80 | `split(v).join(w)` is replacement of all leftmost, non-overlapping occurrences |
| Text.HoleAtFinds | src/runner/templates.ts:8 | the hole grammar is unambiguous: a text that starts with `{name}` is read as exactly that name |
| Text.HoleAtIff | src/runner/templates.ts:8 | a text starts with a hole of a name if and only if it starts with that name in braces and the name is a letter or underscore followed by letters, digits and underscores |
| Redact.TemplatizeText | src/recorder/redact.ts:67-82 | the loop performs exactly the eligible replacements, longest value first |
| Redact.TextRoundTrip | src/recorder/redact.ts:67-92 | text whose lifting hits no bound hole name resolves as the original does, comes back unchanged if it had no brace, and keeps no bound value of four or more characters that is gone from each bound value lifted as a text, nor one that is part of no binding's name |
| Redact.NoValueSurvives | src/recorder/redact.ts:67-81 | the lifted text holds no eligible value that no binding's name contains |
| Redact.ValueGoneIff | src/recorder/redact.ts:67-81 | a replaced value is gone from every text if and only if no hole inserted into a text itself carries it through the later replacements, and if and only if no replaced value, lifted as a text, leaves it |
| Redact.DistinctValueGoneIff | src/recorder/redact.ts:67-81 | when no later value contains an earlier one, only the holes inserted from the value's own turn on need be looked at |
| Redact.BoundValueGoneIff | src/recorder/redact.ts:67-81 | for the caller's bindings in the source's order: a bound value is gone from every text if and only if it is gone from each bound value lifted as a text |
| Redact.DistinctValuesGoneIff | src/recorder/redact.ts:67-81 | for distinct bound values, longest first as the source sorts them, the condition is on the names inserted from the value's turn on |
| Redact.TitleSurvives | src/recorder/redact.ts:67-81 | a concrete binding whose value survives |
| Redact.LiftRoundTrip | src/recorder/redact.ts:67-92 | for any replacements in any order, resolving the lifted text gives what resolving the original gives, if and only if no replacement hits the name of a bound hole |
| Redact.RoundTripsIff | src/recorder/redact.ts:67-92 | the round trip holds for every text if and only if no bound name contains a text that is replaced |
| Redact.TextsRoundTripIff | src/recorder/redact.ts:67-92 | the same for the caller's bindings: no bound name contains a value that may be replaced |
| Redact.StepEffect | src/recorder/redact.ts:80 | one replacement either changes nothing after resolution or leaves an extra brace behind |
| Redact.ClearNamesNeverHit | src/recorder/redact.ts:67-92 | a condition on the inputs alone that rules every hit out |
| Redact.NothingSurvives | src/recorder/redact.ts:64-81 | a replaced value occurs nowhere in the final text, however the replacements overlap |
| Redact.ClashBreaksRoundTrip | src/recorder/redact.ts:67-92 | a concrete text and bindings for which the round trip fails |
| Redact.TemplatizeUrl | src/recorder/redact.ts:20-46 | host, port and fixture root are replaced in that order, each by `split` and `join` on the text its turn finds, the port after its colon when it has one there; the references name, once each and in order, exactly the turns that found something |
| Redact.NothingLeftInUrl | src/recorder/redact.ts:20-46 | with several bound: a host or root stays in the template only where an inserted name has it in itself, a port never after a colon, and a port that stood nowhere after a colon only inside a name |
| Redact.UrlRoundTrip | src/recorder/redact.ts:20-46 | a URL template resolves back to its URL under the same exact condition |
| UrlRegex.TemplateToRegex | src/compiler/assertions.ts:392-416 | the scanning loop prints the pattern of the template |
| UrlRegex.RegexSays | src/compiler/assertions.ts:392-416 | the pattern piece by piece: escaped text, one path segment for a hole of any name, and an open brace alone as text |
| UrlRegex.EscapeSays | src/compiler/assertions.ts:414-416 | exactly the fourteen characters with a meaning of their own are escaped |
| UrlRegex.SegmentExcludes | src/compiler/assertions.ts:404 | the characters a segment excludes are the three delimiters |
| UrlRegex.RegexReadsBack | src/compiler/assertions.ts:392-416 | a reader of the printed pattern recovers exactly the template's sequence of literals and holes |
| UrlRegex.RegexIgnoresBindings | src/runner/templates.ts:8-31 | interpolation is the identity on a compiled pattern, which has no hole |
| UrlRegex.MatchKeepsDelimiters | src/compiler/assertions.ts:404 | a matching URL has exactly as many `/`, `?` and `#` as the literals: no hole swallows a segment |
| UrlRegex.InstanceMatchesIff | src/compiler/assertions.ts:392-416 | an instance with non-empty values matches its own pattern if and only if no value contains `/`, `?` or `#` |
| Json.PrintDecodes | src/runner/templates.ts:44 | printed JSON followed by anything that cannot continue a number determines both the value and the rest |
| Json.PrintInjective | src/testbed/verify.ts:117 | two values print alike, compact or indented, only when they are the same |
| Canonical.PrintSays | src/testbed/verify.ts:116-118 | the printed text of every value in terms of the texts of its parts, compact or indented by two |
| Canonical.EscapeSays | src/runner/templates.ts:42-46 | how each character of a quoted text is printed |
| Canonical.CanonIffSame | src/testbed/verify.ts:104-113 | canonical forms are equal if and only if the values are equal up to key order |
| Canonical.CanonIdempotent | src/testbed/verify.ts:104-113 | canonicalizing twice is canonicalizing once |
| Canonical.StableIsCanonText | src/runner/templates.ts:42-52 | `stableStringify` prints the canonical form, by a different route |
| Canonical.StableIffSame | src/runner/templates.ts:55-57 | the assertion comparison is equality up to key order |
| Canonical.CanonicalJsonIffSame | src/testbed/verify.ts:116-118 | equal canonical texts mean equality up to key order, and conversely |
| Canonical.DiffFingerprints | src/testbed/verify.ts:292-320 | the recursive walk reports the differences `DiffIsExact` is about |
| Canonical.DiffIsExact | src/testbed/verify.ts:292-320 | a difference is reported if and only if some keys lead to it through objects on both sides and the values there, which it carries with the path of the keys, are not equal up to key order or only one is there |
| Canonical.DiffEmptyIffSame | src/testbed/verify.ts:292-320 | no difference is reported if and only if the canonical texts are equal |
| Taint.DefaultRulesKeepVerdict | src/cache/taint.ts:46-166 | marking a locator with its own verdict changes neither verdict nor recorded reason; clean locators are never free text |
| Taint.CleanIff | src/cache/taint.ts:46-166 | field by field: a locator passes the default rules if and only if it stands for a place in the flow, or is not marked, no free text, shows only interface text or names any installation has, and its role, test id, CSS and path are accepted and there where its strategy needs them |
| Taint.TemplateOnlyIff | src/cache/allowlist.ts:59-62 | a text is template-only if and only if it is a run of holes, blanks and five separators |
| Taint.FirstReasonByField | src/cache/taint.ts:46-166 | which reason comes first, by the field that gives it |
| Taint.ReasonByField | src/cache/write.ts:74-81 | the recorded reason by the kind of field: a selector first, then a role, then any text |
| Literals.DefaultIsLawful | src/cache/taint.ts:148-166 | the default rules meet what the write path relies on |
| Literals.LiteralIff | src/cache/write.ts:45-63 | an assertion holds a tenant literal if and only if it expects more than interface text, targets a locator that may not be shared, or shows an e-mail address outside braces |
| Literals.EmailIff | src/cache/write.ts:61-62 | the search finds an address exactly where the pattern matches |
| Literals.BracedGoes | src/cache/write.ts:61 | a braced group that is not empty is left out of the search |
| Write.ClassifyLocators | src/cache/write.ts:65-84 | the loop splits a chain into marked halves in order and records each reason once, first reason first |
| Write.ClassifyOne | src/cache/write.ts:72-82 | a clean locator goes to the shareable half marked so, a tainted one to the other half |
| Write.ClassifyConcat | src/cache/write.ts:72-82 | chains are split piece by piece, in order |
| Write.RefusedIffOverclaimed | src/cache/write.ts:194-234 | a write is refused if and only if the caller claimed eligibility the row lacks; the later re-checks cannot fire; what is let through as eligible is shareable |
| Write.PoolRowBuilt | src/cache/write.ts:148-173 | building a pool row never fails, keeps everything but the chain, and is eligible exactly when the assertion is literal-free and a clean locator or topology exists |
| Write.CopiesSay | src/cache/write.ts:148-192 | both copies in full: eligibility, the chain each keeps, and the recorded reason, which is that of the first tainted locator |
| Write.PoolOfTenant | src/cache/write.ts:148-192 | pooling the tenant copy gives the row that pooling the original gives |
| Write.TenantOfTenant | src/cache/write.ts:175-192 | the tenant copy is its own tenant copy |
| Write.RewritingPoolRow | src/cache/write.ts:148-222 | re-writing a pool row keeps chain and eligibility; its reason survives for exactly three values |
| Store.KeyStringInjective | src/cache/store.ts:99-101 | distinct keys without NUL have distinct key strings |
| Store.ReadsByKey | src/cache/store.ts:174-177 | where no key carries a NUL, reading by key string is reading by key |
| Store.SplitTextInjective | src/cache/store.ts:166-172 | per-eligibility keys never collide across eligibilities |
| Store.LastForIsThere | src/cache/store.ts:166-177 | what a key answers is one of the rows written, under that key |
| Store.MergedListing | src/cache/store.ts:184-195 | listing the merged index yields exactly the current rows that match, once each, in order |
| Store.SplitListing | src/cache/store.ts:184-195 | listing by eligibility does the same on the other index |
| Store.ListingUnique | src/cache/store.ts:133-137 | a listing is determined by which rows are current, not by the order they were written in |
| Store.RowLeIff | src/cache/store.ts:133-137 | rows are compared by site, then task, by character code, then step number |
| Store.JsonlCacheStore.Open | src/cache/store.ts:262-273 | opening reads the pool file, then the tenant file |
| Store.JsonlCacheStore.LoadInto | src/cache/store.ts:298-318 | every line that parses is indexed in order, every other skipped |
| Store.JsonlCacheStore.Write | src/cache/store.ts:320-324 | one line goes to the file of the row's eligibility, none to the other, the row becomes current, and files and history stay what they were at opening plus what was written |
| Store.JsonlCacheStore.Get | src/cache/store.ts:174-177 | the answer is the last row written under the key string, and under the key itself where no key carries a NUL |
| Store.JsonlCacheStore.List | src/cache/store.ts:184-195 | the answer is the listing of the view asked for, its rows of the site, task and eligibility asked for, ordered by site, task and step |
| Store.LoadTorn | src/cache/store.ts:298-318 | any prefix of a file reads as exactly the rows whose text landed whole |
| Store.LoadWhole | src/cache/store.ts:298-324 | a whole file reads as the rows written to it |
| JsonLines.JsonLinesAreSound | src/cache/store.ts:320-322 | a file of JSON lines has the properties the crash theorems need, for any reader that accepts only texts with balanced brackets and well-placed strings |
| JsonLines.JsonLinesNeverGlue | src/cache/store.ts:320-322 | a JSON line appended to anything but blanks is never readable |
| RowLines.RowJsonInjective | src/cache/types.ts:96-125 | a row's JSON determines the row: no property is lost or confused |
| RowLines.RowJsonSays | src/cache/types.ts:96-125 | every part of a row under its own property name, absent parts under none |
| RowLines.RowLinesSurvive | src/cache/store.ts:298-322 | the lines rows are written as, with a reader of them, meet everything the crash theorems ask for |
| Reload.Reopen | src/cache/store.ts:262-318 | a store reopened on any prefixes of its files, whatever they held at first: what is read of the old content, of the rows written since and of a second tear; clean and well-routed files are read in load order |
| Reload.ReopenedAnswers | src/cache/store.ts:166-177 | no per-eligibility answer changes by reopening; the merged one is kept under an exact condition |
| Reload.AppendAfterTear | src/cache/store.ts:284-324 | what a reload finds after an append to any file, and exactly when the new row survives |
| Reload.AppendAfterCrash | src/cache/store.ts:284-324 | after a crash of this code alone: rows whose line break landed stay, the new row stays after a clean end |
| Reload.ReadBack | src/cache/store.ts:284-324 | after any number of appends to any file, all of them are read after a clean end and all but the first otherwise |
| Resolve.GroupByProgram | src/cache/resolve.ts:163-188 | one group per program id with its rows in order, its newest compile time, and a flag if and only if lengths disagree |
| Resolve.MissingIndices | src/cache/resolve.ts:191-198 | exactly the absent steps below the stated length |
| Resolve.CompleteIsWhole | src/cache/resolve.ts:214-220 | a group counts as complete if and only if the view holds the whole program |
| Resolve.ResolveRows | src/cache/resolve.ts:288-325 | a hit is a whole program in step order with exactly its invalidated steps listed; a miss means there is none, for the stated reason |
| Resolve.ResolveProgram | src/cache/resolve.ts:260-326 | the same for a task and scope, on the view the scope allows |
| Resolve.OnlyOneWhole | src/cache/resolve.ts:230-233 | at most one program of a view is whole, so the tie-break never decides a hit |
| Resolve.AnswerDetermined | src/cache/resolve.ts:260-326 | the answer does not depend on the order of the rows |
| Resolve.StepsInOrder | src/cache/resolve.ts:310-311 | increasing distinct steps that cover 0..n-1 are 0..n-1 |
| Ingest.Decide | src/cache/ingest.ts:146-164 | the first pass accepts exactly the acceptable bundles and says what is wrong with any other: rows without a program, several programs, or the first refused row and its reason |
| Ingest.Persist | src/cache/ingest.ts:166-184 | the second pass appends both copies of every row in order and tallies them |
| Ingest.IngestBundle | src/cache/ingest.ts:142-195 | all or nothing: an accepted bundle is appended whole, a refused one leaves the store untouched and is refused for the stated reason |
| Ingest.AcceptedIffNoOverclaim | src/cache/ingest.ts:103-164 | besides missing or mixed program references only an overclaiming row is refused |
| Ingest.TallyAdds | src/cache/ingest.ts:168-184 | every step is counted once; a widened step is one the compiler denied and the authority granted |
| Ingest.TenantOnlyAre | src/cache/ingest.ts:168-184 | the steps kept from the pool are listed with the reasons recorded for them |
| Ingest.WrittenLast | src/cache/ingest.ts:170-172 | after an ingest each step's current row is its tenant copy |
| Ingest.EveryStepPresent | src/cache/resolve.ts:191-198 | n distinct steps below n are all of them |
| IngestResolve.ResolvesAfterIngest | src/cache/resolve.ts:260-326 | at either scope, a resolution names the program if and only if what is read under the bundle's steps is its steps and no leftover row carries its id; older versions and compile times play no part |
| IngestResolve.OverlaysInProcess | src/cache/ingest.ts:166-184 | after an ingest this process reads the tenant copies at any scope, and at pool scope the pool copies where there are any |
| IngestResolve.PooledAreSteps | src/cache/ingest.ts:166-184 | when every row may be pooled, pool scope reads the whole bundle |
| IngestResolve.OverlaysReread | src/cache/store.ts:262-324 | what the next process reads under every step after an ingest onto any files, torn ones included |
| IngestResolve.OverlaysRereadPool | src/cache/store.ts:262-324 | the same at pool scope: a pool row left in the tenant file, else the pool copy unless it was the line a torn pool file costs, else an older pool row |
| IngestResolve.LostFirstIff | src/cache/store.ts:284-324 | after a torn tenant file the program is still found exactly when the row read under its first row's step is a row of it |
| IngestResolve.IngestThenResolve | src/cache/ingest.ts:142-195 | a bundle is accepted exactly when acceptable, and then found by this process and by the next one to open the files, each at either scope and exactly when it should be, for any prior store and any prior file contents |
| Confidence.ConfidenceRefinesHistory | src/cache/confidence.ts:144-253 | counts and confidence follow from the observations since the last repair: exact counts, confidence in range and within 5/3 millionths of the exact average, invalidated if and only if below the threshold |
| Confidence.InvalidatedSinceFailure | src/cache/confidence.ts:241-250 | `invalidated_at` is the time of the failure that began the current low stretch |
| Confidence.TwoInARowDecide | src/cache/confidence.ts:83-96 | two trailing failures always invalidate, two trailing passes always clear |
| Update.RecordStepOutcome | src/cache/update.ts:100-149 | by the names of the outcomes: which are handled, when there is no row, when a repair is refused, and of a written row its counts, average, mark, time, provenance and action, everything else kept |
| Update.ClassifiedByName | src/cache/confidence.ts:115-132 | which outcome strings count as a pass, a repair or a failure, and that no other counts |
| Update.UselessIff | src/cache/update.ts:126-145 | a repair is refused if and only if it offers locators and the corrected step may not be pooled |
| Update.RecordAll | src/cache/update.ts:100-149 | after any reports on any steps the stored row of one step is its first row with exactly the events of its own reports, and its counts and average are those of the passes and failures its reports name since the last repair that kept a locator |
| Update.StoredRowRefinesHistory | src/cache/confidence.ts:193-253 | a row that is the first row plus a history has that history's counts, average and mark, and the mark's time is that of the failure that began the low stretch |
| Update.ChainKeptIff | src/cache/update.ts:119-127 | exactly when recording a pass or failure leaves the locators alone |
| Update.PassErasesTenantStep | src/cache/update.ts:119-148 | a tenant-specific step loses its locators on its first recorded pass |
| Update.WrittenIsClean | src/cache/ingest.ts:166-172 | every row an ingest puts in the pool may be there |
| Update.RunAndRead | src/cache/update.ts:100-149 | after any sequence of ingests and outcomes the pool is clean, nothing ever written is lost, and every pool-scope hit consists of shareable rows; under the default rules that is said field by field of every locator and of the assertion |
| Pool.PrecheckAgreesUpToLiterals | src/compiler/pool.ts:133-151 | on the chain the pre-check and the authority ask the same question |
| Pool.PrecheckSays | src/compiler/pool.ts:111-151 | the pre-check accepts exactly literal-free assertions with a clean locator or a place in the flow, and the reason it gives is that of the first locator |
| Pool.PrecheckLiteralIff | src/compiler/pool.ts:52-93 | it finds a literal if and only if the expected text is more than product words, the target may not be shared, or some text anywhere in target or expectation looks like a tenant's |
| Pool.LiteralSays | src/compiler/literals.ts:51-72 | when a text looks like a tenant's: recognisable data, a long opaque id, or three words of prose that are no product word |
| Pool.SelectorSays | src/compiler/literals.ts:92-104 | when a selector does |
| Pool.LooserIff | src/compiler/pool.ts:52-93 | an eligible row is refused by the authority if and only if one of two literal tests differs |
| Pool.ColonFailsPrecheck | src/compiler/pool.ts:53-61 | a URL template with a colon outside its holes never passes the pre-check's template test |
| Locators.BuildLocatorFallbackChain | src/compiler/locators.ts:60-98 | the loop builds the specified chain and flags the fallback exactly when it added it |
| Locators.ChainInPreferenceOrder | src/compiler/locators.ts:16-98 | the chain is a rearrangement of the candidates by preference and rank, followed by the fallback if and only if all look tenant-specific |
| Locators.CompiledSays | src/compiler/locators.ts:68-87 | a candidate is carried as recorded and marked exactly when its name, label, text or CSS reads like a tenant's |
| Locators.LooksTaintedSays | src/compiler/locators.ts:42-57 | which locators count towards the fallback |
| Locators.RanksInOrder | src/compiler/locators.ts:16-25 | equally preferred candidates keep the order of their ranks |
| ReadBack.PrimaryByName | src/compiler/types.ts:35-46 | by the strategies' names: no unmarked locator of the chain is of a better strategy than the primary one |
| Locators.PrimaryIsMostPreferred | src/compiler/locators.ts:100-108 | no usable locator of the chain is preferred to the primary one |
| Synthesize.LocatorReadsBack | src/compiler/assertions.ts:119-125 | a locator written into an assertion is read back unchanged by the authority's reader |
| Compile.SynthesizedText | src/compiler/assertions.ts:134-390 | every branch writes a proper object whose expected text is one of four own holes or the recorded URL template |
| Compile.SynthesizedFree | src/compiler/assertions.ts:134-390 | no branch introduces an `@` |
| ReadBack.SynthesizedSays | src/compiler/assertions.ts:134-390 | read back from its JSON against the recording: the type, exactly when each is chosen; the target, which is the primary locator without its flag; `visible`, which is false exactly for a control seen to go; the expected page, pattern and parameter types; strength, timeout, classification and id |
| ReadBack.CompiledRowsSay | src/compiler/compile.ts:56-178 | every compiled row carries the recorded action, its assertion as above, its place in the flow and its program, unobserved; one row for each recorded step, in step order |
| ReadBack.RowIdSays | src/compiler/compile.ts:94-97 | a row's id is made of site, task and step number, slugged |
| ReadBack.SlugIsTwoPasses | src/compiler/compile.ts:18-20 | one pass over the text gives what the source's two replacements in turn give |
| Compile.EligibleRowsAreAccepted | src/compiler/compile.ts:76-116 | a compiled row called eligible is accepted as eligible by the authority, for absolute URLs and `@`-free text |
| Compile.CompiledBundleIsAccepted | src/compiler/compile.ts:137-178 | a compiled bundle is never refused by ingest |
| Compile.CompiledBundleIsProgram | src/compiler/compile.ts:137-178 | a compiled bundle is one whole program in the resolver's sense, its rows in step order |
| Compile.OneWordPageIsRefused | src/compiler/pool.ts:52-61 | without the absolute URL the promise fails, on a concrete page |
| Params.CollectRequiredParams | src/runner/params.ts:129-135 | the loops compute the required names |
| Params.RequiredParamsSpec | src/runner/params.ts:111-135 | they are exactly the declared and the needed names, sorted, each once |
| Params.NeedsIff | src/runner/params.ts:73-109 | which names a step needs, read from its action and its assertion's JSON |
| Params.FillsIff | src/runner/assertions.ts:95-152 | which templates a first pass fills |
| Params.AssertParamsBound | src/runner/params.ts:138-188 | nothing is missing if and only if every declared and needed name is bound |
| Params.PreflightCoversIff | src/runner/params.ts:73-145 | passing the check leaves no hole unfilled and no value missing on any first pass, for all bindings, if and only if no empty `regex_template` hides an otherwise unrequired hole, every fill and select names a parameter, and every upload names one required elsewhere |
| Params.UploadSlipsThrough | src/runner/actions.ts:255-270 | a program that uploads one file passes the check with nothing bound and has no path to upload |
| Params.RequiredIsLookedUp | src/runner/params.ts:73-109 | each required name is looked up by the interpreter, in a template or as a typed value |
| Programs.CompiledAssertionNeedsNothing | src/runner/params.ts:94-109 | compiled assertions require no parameter |
| Programs.ProgramSays | src/runner/program.ts:61-152 | a program of rows has one step a row, by step number, and declares every needed name once and in order |
| Programs.CompiledProgramIsCovered | src/runner/program.ts:61-88 | for compiled programs the check before the run is complete if and only if the recording names a parameter for every fill and select and, for every upload, one that another action requires |
| Programs.UploadAloneIsNotCovered | src/runner/program.ts:61-88 | so a recorded upload on its own compiles to a program the check does not cover |
| Programs.FoundIsCompiled | src/runner/program.ts:126-152 | the program made of resolved rows is the bundle's program: same id, steps, actions, assertions and required names, each chain a stable regrouping up to marks |
| Programs.NothingLostAfterCleanEnd | src/cache/store.ts:284-324 | after a clean end of the tenant file the next process reads the compiled bundle's own tenant copies |
| Programs.CompileAndFind | src/runner/program.ts:61-152 | compile, ingest, resolve and adapt, in process and after reopening any files, each found exactly when it should be |
| Runs.RunGrammar | src/runner/replay.ts:274-532 | rows are a prefix of the program in order, all successes except at most the last, which says what ran out |
| Runs.RowsKeep | src/runner/replay.ts:312-516 | what a row keeps of its step: the first failure, the number of repairs so far, and the cost of its last turn |
| Runs.RepairAllowance | src/runner/replay.ts:321-345 | the client is asked exactly `repair_count` times, never beyond the allowance shared by all steps, and attempts are bounded by rows plus questions |
| Runs.TaskSuccessIff | src/runner/replay.ts:530-540 | a task succeeds if and only if every step has a success row; running out of time excludes success and is reported exactly when it happened |
| Runs.ExhaustedIffLate | src/runner/replay.ts:269-335 | the budget is reported exhausted if and only if a reading found it spent, and without a budget the clock is never read again |
| Runs.CostsConserved | src/runner/replay.ts:304-456 | each accumulator on its own: the replay cost is what the first passes cost, the repair cost what the returned proposals and the retries cost |
| Runs.ModelOfRun | src/metrics/cost.ts:9-18 | the repair cost names the model of the last proposal that named one, the replay cost none |
| Replay.TokensComeFromProposals | src/runner/replay.ts:656-664 | in any mode replaying spends no tokens, and the tokens of the repair cost are those of the returned proposals |
| Runs.RowsWithinTotals | src/runner/replay.ts:442-516 | what the emitted rows show never exceeds what the run accounts for |
| Runs.MeasuredIff | src/runner/replay.ts:396 | the repair cost counts as measured if and only if no returned proposal said otherwise |
| Runs.RowsExplainTotals | src/runner/replay.ts:442-520 | repair time is the sum over repaired rows, valid steps the count of valid rows |
| Runs.SelfHealedIff | src/runner/replay.ts:442-456 | a run is self-healed if and only if some row was repaired, and such a row is no valid replay |
| Runs.JudgedAlike | src/runner/replay.ts:282-440 | whatever the client does, every retry is judged by an assertion equal up to key order to the one the program gave the step |
| Runs.ReturnedUnchanged | src/runner/replay.ts:392-394 | a returned answer that was let through changed the assertion neither on the step nor in the context |
| Runs.RepairedPassIsEarned | src/runner/replay.ts:428-456 | a repaired row's last retry ran the corrected action and passed under the first pass's assertion |
| Runs.ChangedOnlyByThrow | src/runner/replay.ts:367-394 | a step's assertion is different after the run if and only if the client wrote another at its last question and threw |
| Replay.ReplayRunner.AttemptStep | src/runner/replay.ts:580-668 | one attempt, judged by the step's assertion of the moment: live, the browser's next outcome and time; without a page an error at no cost; in a dry run the listed outcome, a pass past the list, and a pass for a failure on a retry |
| Replay.ReplayRunner.BudgetSpent | src/runner/replay.ts:269-272 | the budget is spent exactly when a reading says so; without one the clock is not read |
| Replay.ReplayRunner.RepairOnce | src/runner/replay.ts:344-440 | one question: a changed assertion in a returned answer is always caught, and a retry happens exactly for a corrected action |
| Replay.ReplayRunner.Settle | src/runner/replay.ts:370-470 | what an answer means for the totals and the row |
| Replay.ReplayRunner.RepairStep | src/runner/replay.ts:312-507 | a failed step's repairs form a legal trace, and row and totals are those of the trace |
| Replay.ReplayRunner.RunStep | src/runner/replay.ts:274-516 | one step, or the reading that left no time for it |
| Replay.ReplayRunner.RunNth | src/runner/replay.ts:274-516 | running one step judges it by its own assertion, leaves what the client wrote, and touches no other step |
| Replay.ReplayRunner.StepLoop | src/runner/replay.ts:274-532 | the loop ends in a finished run or at an answer that changed an assertion, with every first pass judged by the program's own assertion |
| Replay.ReplayRunner.Run | src/runner/replay.ts:246-578 | an unbound program touches nothing; otherwise what happened is a finished run's trace, its attempts, readings and answers being the world's own in order, first passes judged by the program's own assertions, and only a throw leaves one changed; the report is the trace's, with one line per row and the run's own, each cost in its field; the run throws only on an answer that changed an assertion, after legal steps whose rows are out |
| Metrics.StepKeyInjective | src/metrics/aggregate.ts:54 | no two steps of any runs share a dedupe key, whatever the run ids contain |
| Metrics.DedupeLatestSteps | src/metrics/aggregate.ts:52-56 | the loop computes the map's values |
| Metrics.LatestSpec | src/metrics/aggregate.ts:52-56 | each step once, in its first place, with its last row |
| Metrics.DedupeLosesNothing | src/metrics/aggregate.ts:52-56 | where no step was reported twice nothing is lost or moved |
| Metrics.GroupBy | src/metrics/aggregate.ts:117-125 | the loop computes the grouping |
| Metrics.GroupItems | src/metrics/aggregate.ts:117-125 | each group holds its key's items in order |
| Metrics.AmortizedTokensOverN | src/metrics/aggregate.ts:468-550 | no data for an empty, unmeasured or unpaid window; otherwise each point is what was paid so far, in build, repair and replay tokens in and out, over the runs so far, and the last point is the value |
| Metrics.WindowSays | src/metrics/aggregate.ts:468-510 | the window is the first so many of all run rows, each once, in order of time |
| Metrics.PaidIdsAre | src/metrics/aggregate.ts:520-527 | every build paid for in the window is listed under its id, or its run, and nothing else is |
| Metrics.CurveRisesIff | src/metrics/aggregate.ts:518-533 | the curve rises at a run if and only if that run spent more than the mean before it |
| Metrics.CacheHitRate | src/metrics/aggregate.ts:617-687 | each point is cumulative hits over cumulative steps of the runs so far, of exactly the steps read from the cache, and the last is the pooled rate in whatever order runs are given |
| Reports.ReplayIsCoherent | src/runner/replay.ts:708-793 | a finished run's own row counts what its step rows show |
| Reports.ValidityIsWhatRunsCounted | src/metrics/aggregate.ts:58-82 | over any runs with distinct ids, step validity is the runs' valid steps over their attempted steps |
| Reports.EveryHealedRunCounts | src/metrics/aggregate.ts:362-389 | every self-healed run is in the denominator of the self-heal rate |
| Reports.RatesSay | src/metrics/aggregate.ts:58-82 | both rates counted over what the runs left |
| Reports.FailedFirstPassIff | src/metrics/aggregate.ts:362-367 | which run rows count as failing, those of before attempted steps were recorded included |
| Reports.FailedIffSomeInvalid | src/metrics/aggregate.ts:362-367 | a coherent run counts as failing if and only if some step row is no valid replay |

## Left out

- Playwright, page state and the model clients: attempts, clock readings, client answers, elapsed times and time stamps
  are an oracle, a function of how often each was consulted. A client may assign the step's assertion, replace the
  context's and throw or return; other changes it could make to the step object are not modelled.
- Log sinks, notes, error messages, miss details and the `onStepOutcome` observer, which none of the modelled results
  read; `wall_clock_total_ms`, `assertion_strength` and page snapshots on rows are left out with them.
- Params.PreflightCoversIff: is about holes and values; a navigate without a URL template, a press without a key and a
  custom action fail on every first pass whatever is bound.
- A file line that is valid JSON but no row, which the store would index under an undefined key, reads as nothing.
- Replay.ReplayRunner.Run: what it says of step objects it says of programs in which no object stands at two places.
- The fixed explanatory `notes` sentence of each synthesized assertion. It contains no `@`, target or template.
- The custom taint rules and `failClosed: false` hooks of the write path: the laws are proved for any lawful policy and
  the default rules are shown lawful.
- Vocabulary tables, CSS attribute and structural-path judges, the compiler's email, UUID, secret and opaque-id
  patterns and its whole-word signal match are parameters. Results hold for all of them, except
  `Compile.OneWordPageIsRefused`, which fixes a set of patterns silent on its two short texts.
- Lower-casing is modelled for ASCII letters only, and characters are Dafny characters: surrogate pairs, normalisation
  and the order of integer-like object keys are not modelled. Numbers in JSON are integers.
- Bindings are maps, so names inherited from a JavaScript prototype, which `name in bindings` would find, do not exist.
- Confidence is exact arithmetic in millionths in place of IEEE doubles, and is printed as that integer; ratios and means
  are reals.
- Rows and programs are values, so the defensive cloning in the store has nothing to do. In the replay runner steps
  are objects, as the client shares them.
- A file is its text; byte offsets inside a multi-byte character are not modelled, and a prefix is a prefix of characters.
- `maxRepairsPerRun` is an integer; NaN is not modelled. Token counts of proposals are natural numbers, as the metrics
  contract requires.
- The runner's constructor refuses a build cost without a build id; the options here cannot express that pair.
- `localeCompare` and the order of runs by time stamp are parameters of the curves: every statement holds for any order.
- `repairCostVsFresh`, `perVersionBreakdown`, the sample floor and the truncation summary: one-step ratios and counts.
- `sanitizeProposedAction`: the clients that call it are not part of this model; a proposal arrives with its action.
- Encryption, consent, seeding, HTTP, CLIs and the intent matcher.
