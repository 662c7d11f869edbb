# Verified core of memos

A Dafny 4.11 model of four parts of the memos repository, with proofs of what they promise. Check it with
`dafny verify dfyconfig.toml`.

**memogit** synchronizes a workspace of documents with a work tree of files. For every document it keeps a
baseline (path, content hash, hash of an open conflict); files carry an identity marker; a conflict puts the
server's text into a sidecar. `Checkout`, `PullSteps` and `PushSteps` give the per-document decisions as
functions on values; `Memogit` has the client and the server as objects whose methods update them in place and
are proved equal to those functions; `Identities` resolves files to documents over an array. `PullSafety`,
`PullConvergence`, `PullReplaced`, `PushArchive`, `PushRenamed`, `SyncRuns`, `LostUpdates` and `SyncCommands` prove
the results. Server uids are numbers, a content hash is the text it identifies (the content without trailing
newlines), and the naming and marker rules of a checkout are parameters (`Workspace`), so every result holds for all
of them. `LocalId*` model the markers themselves, character by character; `MarkedText` makes them the rules of a
checkout, and `MarkedSync` says what the results are then.

**cron** finds the next activation of a schedule (`CronSpec`, on the proleptic Gregorian calendar of `Calendar`),
parses schedule fields into 64-bit words (`CronParser`, `CronText`, `Words`) and runs entries (`CronRuns` on
values, `CronRunner` on objects, `CronRows` between them; `CronShipped` puts the two together: what a run starts is
what the fields of its schedules say).

**linkindex** resolves document links in a folder tree built from a flat list: `LinkTree` is the linked tree,
`LinkView` its value, `Links` the meaning of a link in the flat list, `Percent` the encoding of section 2.1 of
RFC 3986, `LinkRepair` and `LinkMoves` the rewriting of links.

**filter** compiles CEL filters to SQL: `FilterParser` builds the condition tree, `FilterClauses` and
`FilterRender` render it, `FilterRenderer` is the renderer with its argument list and the query under construction,
`Sql` reads the text back as SQL does, `FilterLike` is LIKE, `FilterQuery` the WHERE clause. `FilterMeaning` says what
a filter means on a row, `FilterLeaves` what each atom asks of a database that runs it on a stored row, `FilterTags`
and `FilterSearch` what a LIKE search finds in the stored text of a tag list, and `FilterCompiled` joins them from the
CEL expression to the statement's value.

## What is false of the code, and exactly when

- A push replaces a server text that no step had handed out exactly when it moves the document (the server's text at
  that moment becomes the baseline unread), or when the text was recorded from a record whose export does not read as
  that text (`LostUpdates.UnseenIsOverwritten`). The runs: a renamed file (`LostUpdates.MoveLosesServerEdit`), a pull
  and a push with nothing edited (`LostUpdates.PullThenPushReplaces`), a document retyped to PDF, or otherwise
  unreadable, behind a conflict (`LostUpdates.ConflictLosesUnreadText`).
- An export reads as the server's text exactly when stripping takes nothing but trailing newlines off it
  (`MarkedText.ReadableIsPlain`). A text that begins with a marker of its own does not, its file shows another text
  after a pull, and an unedited push replaces it (`MarkedSync.FirstPull`, `MarkedSync.CopiedMarkerIsPushedAway`).
- Pull writes files without looking at what is there: another document's turn destroys an unpushed edit exactly
  when it lands on its path (`PullSafety.TurnKeepsEditExactly`, `PullSafety.EditIsOverwritten`). When a document was
  replaced on the server by one of the same path, the pull goes wrong exactly when the incremental listing has the new
  one (`PullReplaced.ReplacedDocument`), and where that is left without a file the next push archives it
  (`SyncCommands.PullThenPushArchivesLiveDocument`, `SyncCommands.SmallestTrap`).
- The next activation is the least one for all schedules and instants of a zone exactly when the zone is one of whole
  minutes; the truncation to the minute skips activations in every other (`CronSpec.Next`, `CronSpec.SkippedIsDue`,
  `CronSpec.EveryZoneIsAskedEarly`).
- A canonical link does not lead to its document when the title has two extensions
  (`LinkRepair.CanonicalHrefResolves`, `LinkRepair.DoubleExtensionIsLost`); a link made absolute may stop being decoded
  (`LinkRepair.FossilNamesThePath`, `LinkRepair.FossilOfPercentIsBroken`); a renamed folder's links are captured by
  documents that were already there (`LinkMoves.RenameKeepsTarget`, `LinkMoves.CapturedExample`).
- Constant folding leaves arguments behind, and `tag in []` renders to `()`: a statement can be run exactly when
  neither happens (`FilterRender.StatementMeans`, `FilterRender.FoldingLeavesArgumentsBehind`,
  `FilterRender.EmptyTagListHasNoValue`, `FilterQuery.FiltersNarrowTheQuery`).
- Comparing `has_task_list` is unknown exactly for rows whose key is absent, where `!has_task_list` is true
  (`FilterLeaves.JsonBoolMeans`, `FilterCompiled.LeafMeans`, `FilterCompiled.AbsentTaskListIsUnknown`). The filter
  package's own notes say that such flags render as `IS TRUE`; the model follows the code.
- A search of a tag list is a LIKE over its stored JSON text. In plain texts it finds what is meant exactly when the list
  is there, where it has to be, and what is meant holds or nothing looks like it: no tag that differs in ASCII case, and
  not the punctuation of the list, as `,` in every list of two (`FilterTags.SearchFinds`,
  `FilterCompiled.SearchIsExact`). An underscore finds other tags (`FilterTags.UnderscoreFindsOthers`).
- A desugared `sets.equivalent` misses exactly the lists with duplicates (`FilterMeaning.SetMeans`,
  `FilterMeaning.DuplicatesSpoilEquivalence`).
- Marked files do not strip back to the stripped content exactly when that still holds a JSON marker; with a manifest
  behind it, also when a marker of the content ends at a quote of the manifest, or the content holds the head of a
  manifest. Stamped anew, such a content loses its text from that head on to the manifest
  (`LocalIdRoundTrip.CommentRoundTrip`, `LocalIdView.ViewRoundTrip`, `LocalIdManifest.StampedRoundTrip`,
  `LocalIdManifest.HeadRoundTrip`, `LocalIdLeft.MarkerIsLeft`).

## Model

| member | source | states |
|---|---|---|
| PullSafety.PullKeepsEdits | internal/memogit/pull.go:75-156 | through a whole pull an unpushed edit keeps its file, recorded path and baseline hash, whatever the incremental pass saw, if no other document is headed for its path; only a wrong marker is put right, which keeps the text exactly if it reads back as it is written; the edit is reported exactly if the server changed, moved or dropped the document |
| PullSafety.ReconcileSurvives | internal/memogit/pull.go:265-316 | the reconcile pass keeps the edit and reports it exactly if the document is gone or differs |
| PullSafety.TurnKeepsEditExactly | internal/memogit/sync.go:183-217 | another document's turn keeps the edit if and only if it does not land on the edit's path |
| PullSafety.EditIsOverwritten | internal/memogit/sync.go:151-180 | a new server document whose path is that of an edited file destroys the edit |
| PullConvergence.PullConverges | internal/memogit/pull.go:265-381 | without path collisions a pull ends with exactly the live documents tracked, each in step and with its file, if and only if no unpushed edit and no missing file is in the way; each file is then the one that was in step or the export, with its marker put right, an export shows the server's text if and only if that reads back, and no other tracked file remains |
| PullConvergence.SecondPull | internal/memogit/pull.go:75-156 | pulling a converged checkout again changes nothing at all if and only if stamping its files again changes nothing |
| PullConvergence.TrackedAfterPull | internal/memogit/pull.go:265-316 | without the clean assumption exactly the live documents and the gone ones with unpushed edits are tracked afterwards, each file stamped |
| PullConvergence.StrayIsOverwritten | internal/memogit/sync.go:151-180 | an untracked file at a new document's path ends up as the server's export |
| PullReplaced.ReplacedDocument | internal/memogit/pull.go:75-316 | from a clean checkout whose one collision is a gone document and a new one of its path, the pull converges if and only if the incremental listing lacks the new one; else the new one is left without a file, or the old one stays tracked over its file, as their texts agree or not |
| PullReplaced.ReplacedDocumentLosesItsFile | internal/memogit/pull.go:265-316 | the smallest such case: deleting a document and creating one in its place with the same text leaves the new one tracked and no file at all |
| LostUpdates.UnseenIsOverwritten | internal/memogit/push.go:162-214 | in every run, PDFs included, a push replaces a server text never handed out nor agreed on if and only if it moves the document over it or trusts its record of it, and it trusts only texts recorded from records that do not read as them |
| LostUpdates.NoLostUpdateWithoutMove | internal/memogit/push.go:361-451 | in every run whose records all read as the server's text, whatever a push replaces for a document that did not move was handed out or agreed on before |
| LostUpdates.PushReplaces | internal/memogit/push.go:162-214 | a push replaces the server's text exactly in the move case and the trust case, and then by the file's text |
| LostUpdates.MoveLosesServerEdit | internal/memogit/push.go:458-463 | the run in which a renamed file sends the old text over a server edit that was never handed out |
| LostUpdates.PullThenPushReplaces | internal/memogit/push.go:401-451 | a pull and a push with nothing edited replace the server's text if and only if the file does not show it; it was never handed out if and only if its record is not readable |
| LostUpdates.ConflictLosesUnreadText | internal/memogit/push.go:368-401 | the run without a move: behind a conflict whose sidecar is deleted a push replaces the server's text, never handed out if and only if its record is not readable, as a PDF's |
| SyncRuns.StepKeepsInv | internal/memogit/push.go:363-463 | every step of users, pull and push keeps: baseline hash and conflict hash name texts handed out or agreed on before, or recorded unread |
| SyncRuns.HandedIsWritten | internal/memogit/conflict.go:27-29 | what counts as handed out stands in the document's file or sidecar after the step |
| MarkedText.WrittenReads | internal/memogit/sync.go:83-102 | the bytes written for a text read back as a text that does not depend on the uid, and as the uid the marked text carries; the trailing newline is nobody's |
| MarkedText.ReadableIsPlain | internal/memogit/doc.go:128-135 | with the source's markers an exported file or sidecar shows a document's text if and only if stripping takes only trailing newlines off it, also after the marker was put right |
| MarkedSync.FirstPull | internal/memogit/pull.go:265-316 | a first pull of documents with distinct paths converges, and each file shows its document's text if and only if that is plain |
| MarkedSync.FirstPullIsFinal | internal/memogit/pull.go:75-156 | if all of them are plain, a second pull changes nothing |
| MarkedSync.UneditedPushReplaces | internal/memogit/push.go:363-451 | a pull and a push with nothing edited replace the server's text, never handed out, if and only if it is not plain |
| MarkedSync.CopiedMarkerIsPushedAway | internal/memogit/localid.go:76-81 | such a text: a marker line and `hello` |
| SyncCommands.PullIsARun | internal/memogit/pull.go:75-156 | a pull command is a run of those steps that ends by saving its baseline |
| SyncCommands.PushIsARun | internal/memogit/push.go:117-262 | a push command is a run of those steps, saving its baseline only when it succeeds |
| SyncCommands.PullThenPushArchivesLiveDocument | internal/memogit/push.go:217-245 | after the replaced-document pull that leaves the new document without a file, a successful push of the tree as it was left archives that live document |
| SyncCommands.SmallestTrap | internal/memogit/push.go:217-245 | in the smallest case the push succeeds and archives it |
| PushArchive.PushArchivesExactly | internal/memogit/push.go:217-245 | a push archives exactly the tracked live documents no file stands for; documents created in the same push stay; a failed push archives nothing and keeps the old baseline |
| PushRenamed.RenamedFilesResolve | internal/memogit/push.go:498-539 | after any renaming and editing that keeps the markers, every file resolves to the document it was moved from |
| PushRenamed.RenamingKeepsEveryDocument | internal/memogit/push.go:121-245 | a push of such a tree creates nothing and archives nothing; if it succeeds, every moved document maps to its file's path, no other document moves, and every document whose text is exchanged and whose baseline was up to date, or that moved, holds its file's text |
| PushArchive.EmptyTreeArchivesAll | internal/memogit/push.go:217-245 | with no file left every tracked live document is archived |
| Identities.ResolveIdentities | internal/memogit/push.go:498-539 | the two loops over the files fill in, for each, the identity of the declarative specification |
| Identities.IdentitiesAreUnique | internal/memogit/push.go:498-539 | no uid is given to two files, and only tracked uids are given |
| Identities.MarkerDecides | internal/memogit/push.go:498-528 | a tracked uid named by some marker goes to a file with that marker: the one at the recorded path, else the first |
| Identities.PathIsTheFallback | internal/memogit/push.go:529-539 | a path decides only for uids that no marker claims |
| Identities.PathIndex | internal/memogit/state.go:68-76 | the index holds every recorded path and gives a document recorded there |
| Memogit.Client.Pull | internal/memogit/pull.go:75-156 | the method leaves files, sidecars, baseline and reports as the pull on values says |
| Memogit.Client.PullIncremental | internal/memogit/pull.go:75-155 | the loop over the incremental listing does each document's step in turn |
| Memogit.Client.ReconcileAgainst | internal/memogit/pull.go:265-316 | the loop over the tracked uids in order, then the adoption of untracked documents |
| Memogit.Client.ReconcileMemo | internal/memogit/pull.go:328-381 | one drifted document: conflict, orphan, relocation or nothing |
| Memogit.Client.EnsureLocalIDs | internal/memogit/sync.go:109-127 | exactly the tracked files with a missing or wrong marker are stamped anew |
| Memogit.Client.RelocateMemo | internal/memogit/sync.go:183-217 | the file is written at the new path and removed at the old one, and the baseline follows |
| Memogit.Client.Push | internal/memogit/push.go:82-262 | the method resolves the files and leaves server, files, sidecars, baseline and reports as the push on values says |
| Memogit.Client.PushDocs | internal/memogit/push.go:117-215 | the first pass over the files, recording the uids handed out on the way |
| Memogit.Client.PushDocContent | internal/memogit/push.go:363-451 | conflict bookkeeping, the re-check of the server and the update |
| Memogit.Client.PushTrackedDoc | internal/memogit/push.go:162-214 | orphan, move with rebased baseline, PDF skip and content in the source's order |
| Memogit.Client.PushNewDoc | internal/memogit/push.go:304-328 | a new document is created, its file stamped and its baseline recorded |
| Memogit.Client.MoveDocument | internal/memogit/push.go:333-358 | the server document moves and its answer is the new baseline |
| Memogit.Client.ArchivePass | internal/memogit/push.go:217-245 | the second pass archives and forgets what no file claims |
| LocalIdRoundTrip.CommentRoundTrip | internal/memogit/localid.go:60-118 | for every content without a manifest the marked file parses to its uid; it strips to the stripped content, and stamping it with another uid is stamping the content with it, if and only if the stripped content holds no JSON marker |
| LocalIdRoundTrip.PlainCommentRoundTrip | internal/memogit/localid.go:60-118 | for content that stripping changes only by trailing newlines all three hold |
| LocalIdRoundTrip.StripTakesTheTailOff | internal/memogit/localid.go:76-81 | stripping a marked body is stripping the body, for every body |
| LocalIdRoundTrip.StrippedIsBare | internal/memogit/localid.go:76-81 | a stripped content has no comment marker, no manifest and no trailing newline |
| LocalIdRoundTrip.StableIsNoJson | internal/memogit/localid.go:76-81 | stripping twice is stripping once if and only if no JSON marker is left |
| LocalIdManifest.ManifestRoundTrip | internal/memogit/localid.go:105-118 | with any manifest none of whose lines starts with a quote: the file carries the uid unless a line of the manifest is a marker; it strips to the stripped content if and only if that holds no head of a manifest and no JSON marker, not even one that ends at a quote of the manifest; the manifest is found again if and only if there is no such head, and then stamping anew is stamping fresh if and only if there is no such marker |
| LocalIdManifest.StampedRoundTrip | internal/memogit/localid.go:93-95 | the same for contents that come with their manifest, which stamping takes over |
| LocalIdManifest.HeadRoundTrip | internal/memogit/manifest.go:149-151 | where the content holds the head of a manifest, stamping anew takes everything from it for the manifest: it is stamping fresh if and only if exactly what is left and one empty line stand in front of the head, and what is left is the text in front of it if there is no JSON marker |
| LocalIdManifest.WrittenManifest | internal/memogit/manifest.go:46-97 | the manifest that is written is one of these, whatever the attachments are called, quotes included, and carries no uid of its own |
| LocalIdLeft.MarkerIsLeft | internal/memogit/localid.go:76-81 | a content whose stripping leaves a JSON marker, so that its marked files do not strip back in either form |
| LocalIdView.ViewRoundTrip | internal/memogit/localid.go:120-151 | the JSON form, for every content with an object: the file carries the uid if and only if no JSON marker in front of the brace holds another, spaces around it aside; it strips to the stripped content, and stamping anew is stamping fresh, if and only if no JSON marker is left on either side |
| LocalIdView.PlainViewRoundTrip | internal/memogit/localid.go:105-151 | for content that stripping changes only by trailing newlines the JSON form makes a perfect round trip, and a view without an object is left alone |
| LocalIdLines.BlankedHasNoBlock | internal/memogit/manifest.go:149-157 | after the manifest pass no manifest is left, and every line was there or is empty |
| CronSpec.Next | internal/cron/spec.go:58-176 | in a zone of whole minutes the result is the least whole second after the instant that matches all fields, or none, and then nothing matches up to the end of the fifth year: what trying one second after the other finds; in every zone a result matches and lies later |
| CronSpec.SkippedIsDue | internal/cron/spec.go:150-160 | an hourly schedule asked one second early is due at the reading that Next skips in a zone with odd seconds |
| CronSpec.EveryZoneIsAskedEarly | internal/cron/spec.go:150-160 | every zone has such a schedule and, on every day, such an instant; an answer that skips the reading is not the least matching second |
| CronSpec.MonthTurn | internal/cron/spec.go:97-110 | skipping a month that does not match passes over no match, and the lower fields are at their minimum |
| CronSpec.DayTurn | internal/cron/spec.go:117-136 | the same for a day, with the day-of-month and day-of-week rule |
| CronSpec.Pass | internal/cron/spec.go:90-173 | one pass over the fields finds a match or wraps to a later clock, with nothing matching on the way |
| CronParser.GetBits | internal/cron/parser.go:355-368 | the word has exactly the bits from min to max in steps, on the shift-and-mask path and in the loop |
| CronParser.GetRange | internal/cron/parser.go:263-329 | the word is the range's progression and its star bit, or the error of the first check that fails |
| CronParser.GetField | internal/cron/parser.go:245-258 | the word is the union of the field's ranges, or the first error |
| CronText.RangeRead | internal/cron/parser.go:263-346 | reading a written range, of numbers or names in any case, gives its meaning, or the error its limits deserve |
| CronText.FieldDenotesText | internal/cron/parser.go:245-329 | a number is in a parsed field if and only if some written range stands for it; the star bit is set if and only if some range is a star without a step above 1 |
| CronShipped.WakeStartsWhatFellDue | internal/cron/cron.go:260-273 | in every run with shipped schedules, in a zone of whole minutes, a wake starts an entry if and only if a second that matches all its fields has passed since its next activation was computed, and starts it for the least such second |
| CronShipped.EveryActivationMatches | internal/cron/cron.go:264-273 | in every run, in every zone, an entry is started only for seconds that match its fields |
| CronShipped.ShippedIsForward | internal/cron/spec.go:58-176 | a schedule that answers as Next does moves forward, as the results on runs require of a schedule |
| CronShipped.SecondBySecondShips | internal/cron/spec.go:58-176 | for every schedule in a zone of whole minutes there is one that answers so |
| CronRuns.NothingDueAfterWake | internal/cron/cron.go:260-273 | after a wake every next activation is none or later than now |
| CronRuns.RemovedNeverStarts | internal/cron/cron.go:291-295 | in every run a removed entry never starts again |
| CronRuns.NoActivationTwice | internal/cron/cron.go:264-273 | in every run an entry is started for strictly increasing activation times |
| CronRunner.Cron.WakeUp | internal/cron/cron.go:260-301 | a wake starts exactly the due entries, each once; the early break of the loop is sound because the list is sorted |
| CronRunner.Cron.Schedule | internal/cron/cron.go:139-155 | a new entry gets a fresh id, and its first activation when the scheduler runs |
| CronRunner.Cron.Remove | internal/cron/cron.go:341-349 | exactly the entry of that id goes |
| CronRunner.Cron.Start | internal/cron/cron.go:196-228 | every entry gets its first activation, once |
| CronRunner.Cron.EntrySnapshot | internal/cron/cron.go:333-339 | the copy shows the entries and changes nothing |
| CronRunner.SortEntries | internal/cron/cron.go:231-247 | the list is ordered with the zero times last, with the same entries |
| LinkTree.BuildTree | internal/linkindex/tree.go:33-45 | the linked tree indexes exactly the list: each document in its folder, in list order, and every folder has one node |
| LinkTree.EnsureFolder | internal/linkindex/tree.go:64-73 | the folder there is, or a new one behind the other children |
| LinkTree.FindDocInFolder | internal/linkindex/resolve.go:22-47 | searching the tree gives the first document of the list with these folders and this title, or nothing when there is none |
| LinkTree.ResolveRootRelativePath | internal/linkindex/resolve.go:111-125 | resolving over the tree is resolving over the list |
| LinkTree.ResolveRelativePath | internal/linkindex/resolve.go:306-321 | the same for a document-relative link |
| LinkTree.NormalizeRelativeSegments | internal/linkindex/resolve.go:325-341 | the loop gives the normalized segments, or none above the root |
| LinkView.TreeAgreesWithList | internal/linkindex/resolve.go:22-47 | the index agrees with the scan of the flat list |
| LinkView.EnsureKeepsTree | internal/linkindex/tree.go:64-73 | sibling folder names stay unique through every addition |
| LinkView.AddDocIndexes | internal/linkindex/tree.go:35-43 | adding a document extends the index by exactly that document |
| LinkView.DescendFinds | internal/linkindex/resolve.go:23-37 | descending by exact names finds exactly the folders there are |
| Percent.UnescapeEscape | internal/linkindex/resolve.go:195-211 | decoding gives back what was escaped, whatever stands behind |
| LinkRepair.WrittenPathReads | internal/linkindex/resolve.go:205-211 | a written path with a suffix reads back as its segments if and only if they are segments and, unless nothing in them is escaped, the suffix decodes |
| LinkRepair.CanonicalHrefResolves | internal/linkindex/resolve.go:137-140 | a canonical link leads to its document if and only if taking the extension off twice leaves the title as taking it off once does, and no document before it has its place |
| LinkRepair.CanonicalHrefNames | internal/linkindex/resolve.go:137-140 | a canonical link names its folder and title if and only if each can be a segment |
| LinkRepair.FossilNamesThePath | internal/linkindex/resolve.go:349-364 | a relative link made absolute names the same path if and only if every part of that path can be a segment and (its suffix decodes once more, or nothing in the path is escaped) |
| LinkRepair.FossilFromPlainBase | internal/linkindex/resolve.go:349-364 | from a base whose folders can be segments, a link whose suffix decodes once more leads, made absolute, to the same document of every list |
| LinkRepair.DoubleExtensionIsLost | internal/linkindex/resolve.go:137-140 | the canonical link of a title such as `a.md.md` does not lead to its document |
| LinkRepair.FossilLeadsToTheSame | internal/linkindex/resolve.go:349-364 | whenever it names the same path it leads to the same document of every list |
| LinkRepair.FossilOfPercentIsBroken | internal/linkindex/resolve.go:349-364 | `a%20b#%25` leads to a document, and the absolute form made of it names another path |
| LinkRepair.NormalizeComposes | internal/linkindex/resolve.go:325-341 | normalizing a path in two parts is normalizing it in one |
| LinkMoves.RenameKeepsTarget | internal/linkindex/resolve.go:148-176 | after a folder is renamed, a query-free link leads through its repaired form to the document it led to before, if and only if no document from elsewhere captures its place |
| LinkMoves.CapturedLink | internal/linkindex/resolve.go:148-176 | a link that leads to a document and, after its folder is renamed to one with a document of the same title, leads elsewhere |
| LinkMoves.CapturedExample | internal/linkindex/resolve.go:148-176 | such a link: `/old/t`, when `old` becomes `new` |
| LinkMoves.RenameIntoFreeFolder | internal/linkindex/resolve.go:148-176 | every link that led to a document leads to it still when nothing from elsewhere lay under the new folder |
| LinkMoves.RepairedNames | internal/linkindex/resolve.go:148-176 | the repaired link names the moved path, also when the prefix does not apply |
| LinkMoves.MovedTextIsMoved | server/router/api/v1/workspace_service.go:948-957 | on tidy paths, moving the path text is moving its segments |
| Sql.PairReads | internal/filter/render.go:653-681 | a parenthesized pair, read with SQL's precedence, is one operand with the three-valued AND or OR of its parts |
| Sql.HollowHasNoValue | internal/filter/render.go:417-420 | a text with `()` in it has no value |
| FilterClauses.LeafIsWhole | internal/filter/render.go:126-679 | every accepted leaf has as many placeholders as arguments in each of its atoms |
| FilterClauses.ClauseReads | internal/filter/render.go:524-646 | the text of a leaf reads back as what it means |
| FilterRender.RenderReads | internal/filter/render.go:89-124 | through all folding, either the constants decide the tree as it means, or its text reads with its meaning |
| FilterRender.FlagsAreKnown | internal/filter/render.go:653-681 | a rendering is trivial or unsatisfiable exactly when the tree's constants decide it so |
| FilterRender.SurvivorsCount | internal/filter/render.go:683-687 | arguments of folded parts are left behind, none if and only if the tree is aligned |
| FilterRender.TextMeans | internal/filter/render.go:30-57 | the statement is empty only for a tree that always holds, its text with the surviving arguments has the tree's value, and placeholders never exceed arguments |
| FilterRender.StatementMeans | internal/filter/render.go:30-57 | the statement with its arguments has the tree's value if and only if no part decided by constants holds a leaf with arguments and no `()` is left; it has none otherwise |
| FilterRender.FoldingLeavesArgumentsBehind | internal/filter/render.go:668-681 | a text filter or-ed with true, and-ed with a visibility test, ships two arguments for one placeholder |
| FilterRender.EmptyTagListHasNoValue | internal/filter/render.go:417-420 | `tag in []` ships `()`, which has no value, though an empty list holds no tag |
| FilterRenderer.Renderer.RenderCondition | internal/filter/render.go:59-124 | the renderer leaves the result and appends the arguments, each counted, as the rendering on values says |
| FilterRenderer.Renderer.RenderTagInList | internal/filter/render.go:392-421 | the loop over the tags, with two arguments a tag |
| FilterRenderer.Renderer.RenderScalarIn | internal/filter/render.go:445-475 | the loop over the values, with one argument a value |
| FilterRenderer.Query.AppendConditions | internal/filter/helpers.go:9-25 | fragments and arguments of the filters up to the first that fails are appended, and nothing for a filter that always holds |
| FilterQuery.FiltersNarrowTheQuery | internal/filter/helpers.go:9-25 | filters added to a sound query narrow it by all their meanings if and only if every filter fits; else the query has no value |
| FilterLike.LikeIsExact | internal/filter/render.go:501-522 | the rendered LIKE accepts a text if and only if it contains, starts with or ends with the value, both folded |
| FilterLike.FoldEscapes | internal/filter/render.go:518-522 | folding an escaped value is escaping the folded value |
| FilterParser.DistinctStrings | internal/filter/parser.go:791-801 | the first occurrence of every string, each once |
| FilterParser.CombineConditions | internal/filter/parser.go:783-789 | the conditions combined from the left |
| FilterParser.BuildSetCondition | internal/filter/parser.go:707-773 | the desugared tree, or an error for anything but a list field and string literals |
| FilterMeaning.MirrorMeans | internal/filter/parser.go:180-193 | swapping operands and mirroring the operator keeps every comparison |
| FilterMeaning.ComparisonMeans | internal/filter/parser.go:119-176 | the built comparison has the value of the written one, literals on either side |
| FilterMeaning.SetMeans | internal/filter/parser.go:745-772 | a desugared set operation has the value of the set operation if and only if it is not a true equivalence with a list that holds duplicates |
| FilterMeaning.EquivalentMeans | internal/filter/parser.go:762-769 | memberships and the size say: the list is the set, without duplicates |
| FilterMeaning.DuplicatesSpoilEquivalence | internal/filter/parser.go:762-769 | a list that holds `a` twice is equivalent to `[a]`, and the desugared equivalence is false of it |
| FilterMeaning.BuildMeans | internal/filter/parser.go:18-117 | building the tree keeps the value of every accepted filter on every row, through comparisons with literals on either side, memberships, set operations and connectives; text, regex, identifier and macro leaves are carried over as they are, so their cases hold by construction |
| FilterLeaves.JsonBoolMeans | internal/filter/render.go:333-368 | a comparison with a boolean JSON field says whether the flag is so for every stored row, an absent key being false, if and only if it is not has_task_list with its key absent, where it is unknown |
| FilterLeaves.AllMeans | internal/filter/render.go:557-569 | tags.all is true exactly on lists that are there, not empty, and whose every element holds, and never unknown |
| FilterLeaves.ExistsOneMeans | internal/filter/render.go:571-581 | tags.exists_one is true exactly when one element holds and no other |
| FilterTags.SearchFinds | internal/filter/render.go:600-641 | in the stored JSON text of a list, a LIKE search for a whole tag, its start, its end or a part finds exactly the tags that have it, ASCII case aside, and the punctuation of the list, for plain texts |
| FilterTags.UnderscoreFindsOthers | internal/filter/render.go:392-421 | a search for `a_b` finds the list of `axb` |
| FilterSearch.SearchLeafRuns | internal/filter/render.go:392-646 | the text of a leaf that searches a list, with its tags and the tags below them or its null checks, has the value of what is found in the stored text |
| FilterCompiled.SearchIsExact | internal/filter/render.go:392-646 | what is found is what is meant if and only if the list is there, where it has to be, and what is meant holds or nothing looks like it |
| FilterCompiled.LeafMeans | internal/filter/render.go:126-679 | on every stored row the text of a leaf (predicate, comparison of a column, flag, size or date part, IN, text, regex, macro) has the leaf's meaning, if and only if it does not compare a has_task_list that is absent and a search of a list finds what is meant |
| FilterCompiled.CompiledFilterMeans | internal/filter/engine.go:74-99 | from CEL to SQL: on every stored row the statement has the filter's value, exactly when the tree is aligned and readable, if no comparison asks for an absent has_task_list and the searches of lists find what is meant |
| FilterCompiled.AbsentTaskListIsUnknown | internal/filter/render.go:340-360 | the statement of a comparison that does ask for one is unknown, where the filter has a value |
| FilterCompiled.TextFilterIsExact | internal/filter/render.go:477-513 | a text filter selects exactly the rows whose folded text contains, starts with or ends with the folded value |

## Left out

- memogit: the HTTP client, the git subprocess, real files, configuration, printed output, counters and dry runs; the file system and the server are maps with atomic operations.
- memogit: sub-documents, folder scope, hidden paths, attachments, PDF stub texts and directory pruning; the naming rules and the stub text are parameters.
- memogit: SHA-256; the hash is the text it identifies, so it is injective by construction.
- memogit: baseline fields other than path, type, hash and conflict.
- LocalIdManifest.ManifestRoundTrip: manifests with a line that starts with a quote, which the source does not write (`LocalIdManifest.WrittenManifest`), are excluded, as a marker of the text that ends in one can be made up for by another line of it; `MarkedText` has no manifests.
- memogit: files are read as the stripped text and the uid they claim, so a work-tree file is modelled by these two.
- LocalId: regular expressions are line and character scanners of the same meaning; quoting of uids with special characters is not modelled, a uid that is written being a word without quotes and backslashes.
- CronSpec.Next: zones with daylight saving and the midnight fix-up (internal/cron/spec.go:125-131); a zone is a fixed offset.
- cron: descriptors such as `@daily`, the time zone prefix, the placement of optional fields, timers, goroutines and the jobs themselves; a wake, an addition and a removal are atomic.
- CronParser: machine words are lists of 64 bits; unsigned wrap-around cannot occur in the ranges the checks let through.
- linkindex: lower-casing of titles is an arbitrary function; link classification, `/memos/{uid}` links, cross-workspace links and FindNodeByUID would only add easy members.
- LinkMoves.RenameKeepsTarget: links with a query or fragment, and paths with an encoded '?' or '#', are excluded.
- filter: parsing and type checking of CEL text, folding of constant arithmetic, timestamps and durations, floating-point literals and integer width; folded operands enter as literals.
- filter: the SQL is a sequence of tokens whose atoms are texts; a database is any function from atoms and arguments to true, false or null, and what it makes of one comparison, IS NULL, IN, LIKE, json_each, strftime or LENGTH atom on a stored value is SQL's.
- FilterTags.SearchFinds: texts with LIKE's special characters, and tags with quotes, backslashes or control characters, are covered by the condition that the search finds what is meant, not by a closed form; case is that of ASCII in LIKE, and a macro's own folding has to agree with it.
- FilterCompiled.CompiledFilterMeans: a regular expression means what the database says; lists hold no duplicates, as the source keeps tags.
- FilterRenderer.Renderer.RenderLeaf: leaves other than the two IN loops bind their arguments in one step after the text is built, in the order of the placeholders.
