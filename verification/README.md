# Open Cut: verified models of the control plane

Dafny 4.11 models of the six parts of Open Cut with the most branching and state, and proofs about
them. `dafny verify dfyconfig.toml` checks everything.

- **Edit-journal migrations** (`Json`, `AlignmentRewrite`, `NarrativeRewrite`, `EditJournal`,
  `JournalMigration`, `JournalRows`, `JournalInvariants`, `JournalLateBinding`). JSON is a recursive
  datatype and the tables are maps. The alignment rewrite grows the tree before it descends, so it is
  measured by how deep legacy objects nest. The four forward-only steps are one step function with the
  level as parameter; the class `Journal` runs them row by row, and `JournalRows` says column by column
  what a step should make of each row. The canonical digest is an abstract hash of the envelope.
- **Link-materialising tree copy** (`Paths`, `LinkGraph`, `TreeCopy`). `Plan` says what a copy of a
  finite link graph comes to; the class `Copier` does it, with the active directories as cycle guard.
- **Bundle archive** (`Archive`, `ArchiveExtract`, `ArchivePack`). Packing and extraction over trees
  of directories, files and links. Tar and zstd are the identity on the entry sequence.
- **TypeScript lexer** (`TypeScriptLexer`, `LexerShapes`, `LexerRoundTrip`, `LexerLocality`,
  `LexerAgreement`, `LexerBounds`). The three mutually recursive scanners, the code they read back to
  its tokens, and when their two loops agree on where an embedded expression ends.
- **Lifecycle protocols** (`Launcher`, `LauncherSafety`, `LauncherProgress`, `LauncherHandoff`,
  `DevSuite`, `DevSuiteHost`). The launcher is a state machine in which loads, saves, process exits, update
  transitions and boots interleave. The development suite is a class over a process table and files
  that logs what it does; its theorems are about the log of any run.
- **Exact arithmetic** (`Decimal`, `Rational`, `ExactTime`, `Transcript`, `FrameGrid`). Times in lowest
  terms within int64 over int32 and the real numbers they are, the token check built on them, and the
  frame grid over the reals.

What the code does that its documentation or shape does not suggest:

- The bundle round trip does not rest on sorted order, because extraction makes missing parents; sorted
  order gives determinism and parents before children.
- The lexer's slice at internal/harnessguard/typescript_policy.go:281 can be out of range without a
  trailing backslash: after a nested template the two loops judge a slash by different last tokens. The
  same makes them disagree on the tokens of an expression.
- internal/businessacceptance/transcript.go:138 takes the end of a range before it is known to be one,
  so a span that cannot be written is a panic and not a refusal.
- Update transitions are serialised by the broker (sidecar/broker/broker.go:401-423), but the launcher's
  own first installation (internal/launcher/launcher.go:131) is outside that lock; where they overlap, a
  candidate can be lost with or without a trial in between.
- A sweep can signal a process of its own generation on a reused pid exactly when the old member was
  recorded without its creation time and the process runs the recorded executable.
- `nextGeneration` wraps to 0 after the last 64-bit generation.
- A transaction already at schema v5 is not rewritten when its proposal is below v5, and then loses its
  binding.

## Model

| member | source | states |
|---|---|---|
| `AlignmentRewrite.RewriteAlignmentValue` | internal/editmigration/journal.go:253-291 | succeeds exactly on the rewritable documents and returns the rewritten document, whatever the order in which map keys are visited; an error is one that some order of keys meets first |
| `AlignmentRewrite.PromoteInPlace` | internal/editmigration/journal.go:262-283 | reshaping one legacy object key by key succeeds exactly when its payload and the three caption keys are there |
| `AlignmentRewrite.LegacyShape` | internal/editmigration/journal.go:262-272 | which objects are legacy, and which of them are refused with which error, by their literal keys |
| `AlignmentRewrite.PromotedShape` | internal/editmigration/journal.go:262-283 | the object that takes a legacy object's place, key by key: the new type, one caption target holding the three moved values, everything else as it was |
| `AlignmentRewrite.RewriteFields` | internal/editmigration/journal.go:284-288 | the walk over the fields of an object, taking the keys in any order |
| `AlignmentRewrite.RewriteItems` | internal/editmigration/journal.go:255-260 | the walk over the items of a list stops at the first item that fails |
| `AlignmentRewrite.PromoteLowers` | internal/editmigration/journal.go:262-283 | promoting an object removes one level of legacy nesting although it adds levels of objects |
| `AlignmentRewrite.NestingFalls` | internal/editmigration/journal.go:253-291 | the termination measure: the nesting of legacy objects falls at a legacy object and never rises, and elsewhere the document shrinks |
| `AlignmentRewrite.RewrittenHasNoLegacy` | internal/editmigration/journal.go:253-291 | no object at any depth of a rewritten document has the legacy type |
| `AlignmentRewrite.FreeOfIff` | internal/editmigration/journal.go:253-291 | what at any depth means: of the documents that occur in it, none has the type |
| `AlignmentRewrite.RewriteKeepsModern` | internal/editmigration/journal.go:253-291 | a document without legacy objects is rewritable and stays as it is |
| `AlignmentRewrite.RewriteIdempotent` | internal/editmigration/journal.go:253-291 | rewriting twice is rewriting once |
| `AlignmentRewrite.RewriteCommutesWithField` | internal/editmigration/journal.go:56-103 | rewriting a payload and then reading a column is reading the column and then rewriting it |
| `AlignmentRewrite.DemoteUndoesPromote` | internal/editmigration/journal.go:262-283 | one promoted object can be put back when its payload had no targets key |
| `AlignmentRewrite.RestoredUndoesRewritten` | internal/editmigration/journal.go:253-291 | a left inverse of the whole rewrite on documents free of the new type and of the key it adds |
| `AlignmentRewrite.TargetsKeyIsOverwritten` | internal/editmigration/journal.go:273-278 | without that condition there is no inverse: documents that differ only under the added key have one image |
| `NarrativeRewrite.RewriteNarrativeOperations` | internal/editmigration/schema_v5.go:224-258 | succeeds exactly when no operation is refused, returns every leaf operation wrapped as a typed node, and otherwise reports the first refusal |
| `NarrativeRewrite.RefusalShape` | internal/editmigration/schema_v5.go:224-258 | which operations are refused, with which error, by their literal types and keys |
| `NarrativeRewrite.WrappedShape` | internal/editmigration/schema_v5.go:224-258 | what takes an operation's place, key by key: the node's kind, the spoken purpose and undetermined language of authored text, everything else as it was |
| `NarrativeRewrite.WrappedLeafIsRefused` | internal/editmigration/schema_v5.go:224-258 | an operation that was changed is refused by a second rewrite, and only such an operation |
| `NarrativeRewrite.SecondRunFailsIffChanged` | internal/editmigration/schema_v5.go:224-258 | a second rewrite of a list fails if and only if the first changed some operation |
| `NarrativeRewrite.UnwrappedUndoesWrappedIff` | internal/editmigration/schema_v5.go:224-258 | the rewrite of an operation can be undone if and only if none of the keys it sets was in use |
| `EditJournal.SchemasDistinct` | internal/editmigration/journal.go:13-22 | the five levels have distinct proposal and transaction schemas |
| `JournalRows.SchemaNames` | internal/editmigration/journal.go:13-22 | the names of the schemas |
| `JournalRows.ListWrappedIff` | internal/editmigration/schema_v5.go:224-258 | the last step makes of a list exactly the list of its operations wrapped one by one, and refuses a list with a refused operation |
| `JournalRows.ColumnMovesIff` | internal/editmigration/journal.go:232-241 | an operation column is moved to another exactly when, at the first step, both decode and the second is the alignment rewrite of the first; at the last, both are lists and the second is the first wrapped item by item; and in between when they are the same text |
| `JournalRows.PayloadMovesIff` | internal/editmigration/schema_v5.go:46-63 | a proposal payload is moved to another exactly when, at the last step, its operations and its inverse are each wrapped item by item and every other key stays; at the first it is rewritten as a whole; in between it stays |
| `JournalRows.ProposalMovesIff` | internal/editmigration/journal.go:56-103 | a proposal row is moved to another exactly when its operations and inverse are each the moved column, its document is the moved payload in an envelope of the new schema and its digest is that of the document |
| `JournalRows.RecordOfIff` | internal/editmigration/journal.go:137-190 | the record a transaction digest covers, field by field: every column under its own key, the optional ones only when set, and the digest of the proposal |
| `JournalRows.TransactionMovesIff` | internal/editmigration/journal.go:137-211 | a transaction row is moved to another exactly when operations and inverse are each the rewritten column, the other columns are unchanged and the digest covers the record of the new row |
| `JournalRows.StepMovesIff` | internal/editmigration/schema_v3.go:14-22 | a whole step leads to given tables exactly when they are row by row what the step should make of them and, at the second step, the link groups are closed |
| `JournalRows.OutboxFollows` | internal/editmigration/journal.go:73-83 | an outbox row that announces a moved proposal carries its new digest in an otherwise unchanged payload, and every other row stays |
| `JournalRows.ClosedLinkGroupsIff` | internal/editmigration/schema_v3.go:24-41 | the guard: a group that is gone has no live clip, any other at least two and at most sixty-four |
| `JournalRows.CanonicalDecimalIff` | product/domain/exact.go:472-494 | the numbers canonical encoding accepts are the integers in plain decimal |
| `JournalRows.CanonicalizableIff` | product/domain/canonical.go:53-110 | a document has a canonical encoding exactly when every number that occurs in it, at any depth, is such a number |
| `JournalMigration.Journal.RewriteProposals` | internal/editmigration/journal.go:33-84 | the row loop succeeds exactly when every proposal of the level and every outbox row announcing one can be rewritten, and then stores exactly those rewrites, in any row order |
| `JournalMigration.Journal.RewriteTransactions` | internal/editmigration/journal.go:105-211 | the row loop succeeds exactly when every transaction of the level can be rebuilt from its columns and the new proposal digest, and then stores exactly those |
| `JournalMigration.Journal.RewriteEditJournal` | internal/editmigration/schema_v3.go:14-22 | one whole step: guard, proposals, then transactions; it succeeds exactly when the step applies and leaves the tables of the step function |
| `JournalMigration.Journal.SelectProposals` | internal/editmigration/journal.go:34-55 | the ids selected are those of the rows at the level, each once |
| `JournalMigration.Journal.SelectTransactions` | internal/editmigration/journal.go:106-136 | the ids selected are those of the rows at the level, each once |
| `JournalInvariants.ProposalMigrates` | internal/editmigration/journal.go:56-103 | a migrated proposal is stored under the digest of its rewritten canonical envelope, and the outbox announces that digest |
| `JournalInvariants.TransactionMigrates` | internal/editmigration/journal.go:137-211 | a migrated transaction keeps its proposal and its digest covers the proposal's new digest |
| `JournalInvariants.StepMovesExactlyItsLevel` | internal/editmigration/schema_v3.go:43-198 | all ids stay, rows of other levels stay as they are, and no row is left at the old level |
| `JournalInvariants.StepKeepsConsistent` | internal/editmigration/schema_v3.go:43-198 | every step keeps proposals, outbox and transactions bound to one another |
| `JournalInvariants.StepTwiceIsStepOnce` | internal/editmigration/journal.go:26-31 | running a step again changes nothing |
| `JournalInvariants.ChainKeepsConsistent` | internal/editmigration/schema_v5.go:16-199 | the steps up to v5 keep the bindings |
| `JournalInvariants.ChainLiftsProposals` | internal/editmigration/schema_v5.go:23-94 | every proposal ends at v5 under its own id |
| `JournalInvariants.ChainBindsTransactions` | internal/editmigration/schema_v5.go:96-199 | a transaction that starts below v5 ends bound to the final digest of its proposal whatever level that proposal started at |
| `JournalInvariants.JournalReachesTop` | internal/editmigration/schema_v5.go:16-199 | from a consistent journal the whole chain leaves every row at v5 with its digest, outbox announcement and transaction digest in agreement |
| `JournalInvariants.ChainKeepsTopTransaction` | internal/editmigration/schema_v5.go:96-122 | a transaction already at v5 is never rewritten |
| `JournalInvariants.TopTransactionBoundIff` | internal/editmigration/schema_v5.go:96-122 | a bound transaction already at v5 stays bound if and only if the chain leaves its proposal's digest alone: starting at the same level is needed only there |
| `JournalInvariants.ChainBindsProposal` | internal/editmigration/schema_v5.go:23-94 | a proposal below v5 ends under the digest of its v5 envelope, and one at v5 stays as it is |
| `JournalInvariants.TopTransactionNeedsTopProposal` | internal/editmigration/schema_v5.go:96-122 | without a collision of the digests involved such a transaction stays bound if and only if its proposal starts at v5 as well |
| `JournalLateBinding.LateBindingIsLost` | internal/editmigration/schema_v5.go:16-122 | a concrete journal, bound throughout, on which the chain applies and after which a transaction at v5 is not bound because its proposal was at v4 |
| `JournalLateBinding.NoCollision` | internal/editmigration/schema_v5.go:16-122 | that journal's digest meets the hypotheses of the exact condition |
| `JournalInvariants.StepKeepsColumnsAgreeing` | internal/editmigration/journal.go:56-103 | the operation columns and the canonical payload stay in agreement |
| `Paths.SplitJoin` | internal/bundle/bundle.go:265-274 | joining components and splitting again gives the components back |
| `Paths.CleanIffPlain` | internal/bundle/bundle.go:265-274 | a relative path is its own lexical cleaning and does not climb exactly when its components are plain |
| `Paths.ResolveKeepsMeaning` | internal/bundle/bundle.go:265-274 | cleaning a relative path keeps the directory it leads to from every directory |
| `Paths.CleanKeepsMeaning` | internal/bundle/bundle.go:265-274 | so does cleaning its text |
| `Paths.ResolveFollows` | internal/bundle/bundle.go:300-321 | cleaning a rooted path gives the directory it leads to |
| `Paths.PathWithinIsPrefix` | internal/packager/packager.go:429-432 | the relative-path test is the test for a component prefix |
| `LinkGraph.AllowedIffInside` | internal/packager/packager.go:661-678 | a path is allowed exactly when it lies under the pack root or, under the repository root, below a component that reads node_modules |
| `LinkGraph.NodeModulesIff` | internal/packager/packager.go:672-676 | the spellings of node_modules, letter by letter; the code folds case, so the last letter may also be the long s |
| `LinkGraph.MaterialIff` | internal/packager/packager.go:522-654 | which entries are accepted and as which: a file always, a directory inside the boundary, a followed link by its target, a kept link by its text and its target |
| `LinkGraph.MaterialRefusals` | internal/packager/packager.go:522-654 | how the others are refused |
| `LinkGraph.CopyFailsIff` | internal/packager/packager.go:522-654 | on every graph the copy fails if and only if a directory is reachable from itself or an entry that can be reached is refused |
| `LinkGraph.MaterialIsTarget` | internal/packager/packager.go:522-654 | what an entry is copied from is what following its links reaches, never a link when links are materialised, and inside the boundary |
| `LinkGraph.PlanUnfolds` | internal/packager/packager.go:522-654 | a successful copy is the unfolding of the source graph: each path below holds the item reached by following links |
| `LinkGraph.MaterialisedHasNoLinks` | internal/packager/packager.go:608-654 | a materialised copy holds no link |
| `LinkGraph.CopyStaysInside` | internal/packager/packager.go:522-678 | every path a successful copy visits is inside the boundary, and so is the target of every link it keeps |
| `LinkGraph.CopyMeansAcyclic` | internal/packager/packager.go:565-570 | a successful copy never meets a directory below itself |
| `LinkGraph.FailureReached` | internal/packager/packager.go:522-654 | every failure is one of an entry that can be reached from the source |
| `LinkGraph.CycleErrorMeansCyclic` | internal/packager/packager.go:565-570 | on every graph a copy that reports a cycle has met a directory reachable from itself |
| `LinkGraph.CycleErrorIffCyclic` | internal/packager/packager.go:565-570 | absent other errors the copy fails if and only if a directory is reachable from itself, and then with the cycle error |
| `TreeCopy.Copier.CopyTreeEntry` | internal/packager/packager.go:522-606 | terminates on every finite link graph, restores the active set on every exit, only adds below the destination, and copies what the unfolding says or fails with its error |
| `TreeCopy.Copier.CopyDereferencedEntry` | internal/packager/packager.go:608-654 | the same for an entry read through its link |
| `TreeCopy.Copier.CopyDirectory` | internal/packager/packager.go:557-591 | the directory is in the active set while its entries are copied and out of it again afterwards, on success and on failure |
| `TreeCopy.Copier.CopyEntries` | internal/packager/packager.go:574-591 | the entries of a directory are placed one beside the other, each as the unfolding says |
| `TreeCopy.Copier.CopyNextEntry` | internal/packager/packager.go:578-590 | one round of that loop |
| `TreeCopy.Copier.MkdirAll` | internal/packager/packager.go:571-573 | creates the missing directories, and fails exactly when something else is in the way |
| `TreeCopy.Copier.CreateLeaf` | internal/packager/packager.go:680-699 | a file or link is written only where nothing is |
| `TreeCopy.CopyTree` | internal/packager/packager.go:498-515 | the whole copy: the destination holds exactly the unfolding, with the bytes, mode or link text of the node each path leads to; everything visited is inside the boundary; it fails exactly when a directory is reachable from itself or a reachable entry is refused |
| `Archive.SafeNameIffPlain` | internal/bundle/bundle.go:265-274 | a name is accepted exactly when it is a non-empty relative path of plain components without a backslash, and then stands for those components |
| `Archive.EnsureDirectoryKeeps` | internal/bundle/bundle.go:276-298 | making parents overwrites nothing, adds only directories above the path, and leaves every node on real directories |
| `Archive.EnsureDirectoryIff` | internal/bundle/bundle.go:276-298 | parents can be made exactly when nothing but directories is in the way |
| `Archive.CreateKeeps` | internal/bundle/bundle.go:176-205 | a file or link is created only where nothing was, on real directories |
| `Archive.ExtractEntryKeeps` | internal/bundle/bundle.go:158-209 | one entry adds its node at its cleaned name, with its bytes, its link text and mode 0755 or 0644 by its executable bits, and otherwise only directories above it; a name already taken is accepted only for a directory |
| `Archive.ExtractEntryIff` | internal/bundle/bundle.go:158-209 | an entry is extracted exactly when its name is safe, its kind known, its link safe, only directories are above it and its place is free or, for a directory, a directory |
| `Archive.ExtractAllGrounded` | internal/bundle/bundle.go:130-212 | after any entry sequence every node sits on real directories and nothing was overwritten |
| `Archive.PrefixExtracted` | internal/bundle/bundle.go:130-212 | so after every prefix of a sequence that extracts |
| `Archive.EntryExtracted` | internal/bundle/bundle.go:158-209 | every entry of a sequence that extracts is in the result as it was written |
| `Archive.NodeHasEntry` | internal/bundle/bundle.go:158-209 | every node of the result is an entry's or a directory above one |
| `ArchiveExtract.Disk.EnsureDirectory` | internal/bundle/bundle.go:276-298 | the component loop on the disk does below the destination what the tree function says and nothing elsewhere |
| `ArchiveExtract.Disk.CreateAt` | internal/bundle/bundle.go:176-205 | the same for creating a file or a link |
| `ArchiveExtract.Disk.ExtractOne` | internal/bundle/bundle.go:158-209 | the same for one entry |
| `ArchiveExtract.Disk.Extract` | internal/bundle/bundle.go:130-212 | succeeds exactly when the destination is free, only directories are above it and every entry extracts; no existing node changes, nothing appears outside the destination and its parents, and a failure leaves no destination |
| `ArchivePack.ParentPrecedesChild` | internal/bundle/bundle.go:29-46 | in sorted order every directory comes before what is in it |
| `ArchivePack.SortedOrderUnique` | internal/bundle/bundle.go:29-46 | a tree has one sorted order, so packing is deterministic |
| `ArchivePack.SortedNames` | internal/bundle/bundle.go:29-46 | the names of a tree, sorted, each once |
| `ArchivePack.Pack` | internal/bundle/bundle.go:22-128 | succeeds exactly when the required files are there and every link stays inside by name, and writes one entry for each node in sorted order |
| `ArchivePack.RoundTrip` | internal/bundle/bundle.go:22-212 | what was packed extracts if and only if the tree is archive-safe, and then to the same paths, kinds, contents, link targets and executable bits; in any entry order |
| `ArchivePack.RoundTripContents` | internal/bundle/bundle.go:176-205 | what was packed comes out by bits and bytes: the same bytes and link text, and mode 0755 or 0644 by the executable bits packed |
| `ArchivePack.PackGuards` | internal/bundle/bundle.go:22-27 | what packing asks of a tree: the three required names, and links whose text leads to somewhere under the root |
| `ArchivePack.SourceLinkSafeIff` | internal/bundle/bundle.go:300-321 | packing accepts a link exactly when its relative text, followed from the link's directory, ends at or below the root |
| `ArchivePack.ArchiveLinkSafeIff` | internal/bundle/bundle.go:300-321 | extraction accepts exactly the links without a backslash that packing accepts under every root |
| `ArchivePack.BeforeAtDifference` | internal/bundle/bundle.go:29-46 | names are ordered by the first character in which they differ |
| `ArchivePack.UnsafeEntriesFail` | internal/bundle/bundle.go:265-274 | one unsafe name or link makes the extraction fail |
| `ArchivePack.ArchiveSafeLinkPacks` | internal/bundle/bundle.go:300-321 | a link that extraction accepts is accepted by packing under every root |
| `TypeScriptLexer.LexTypeScript` | internal/harnessguard/typescript_policy.go:204-250 | the token loop computes the reference lexer; None is the out-of-range slice |
| `TypeScriptLexer.ScanStep` | internal/harnessguard/typescript_policy.go:207-247 | one round of the dispatch that both loops repeat |
| `TypeScriptLexer.ScanQuoted` | internal/harnessguard/typescript_policy.go:252-266 | the value and the end of a quoted literal |
| `TypeScriptLexer.ScanTemplate` | internal/harnessguard/typescript_policy.go:268-291 | a template is read up to its closing backquote, lexing each embedded expression from its own substring |
| `TypeScriptLexer.TemplateExpressionEnd` | internal/harnessguard/typescript_policy.go:293-347 | the second loop, which finds where an embedded expression ends |
| `TypeScriptLexer.SkipRegularExpression` | internal/harnessguard/typescript_policy.go:349-374 | the end of a regular expression, one past the source after a lone trailing backslash |
| `TypeScriptLexer.SkipLineComment` | internal/harnessguard/typescript_policy.go:392-397 | the end of a line comment |
| `TypeScriptLexer.SkipBlockComment` | internal/harnessguard/typescript_policy.go:399-407 | the end of a block comment |
| `TypeScriptLexer.ScanIdentifier` | internal/harnessguard/typescript_policy.go:233-241 | the end of an identifier |
| `LexerShapes.ReadBack` | internal/harnessguard/typescript_policy.go:252-266 | every value, written as a literal with its quotes and backslashes escaped, is read back whole whatever follows |
| `LexerShapes.QuotedReads` | internal/harnessguard/typescript_policy.go:252-266 | the same from anywhere in a source |
| `LexerShapes.QuotedUnclosed` | internal/harnessguard/typescript_policy.go:252-266 | a literal in which the source ends is read up to there |
| `LexerShapes.IdentifierEndIs` | internal/harnessguard/typescript_policy.go:233-241 | an identifier is the longest run of identifier characters |
| `LexerShapes.CharacterClasses` | internal/harnessguard/typescript_policy.go:409-419 | the characters of spaces and identifiers |
| `LexerShapes.LineEndIs` | internal/harnessguard/typescript_policy.go:392-397 | a line comment ends at the first newline or with the source |
| `LexerShapes.BlockEndIs` | internal/harnessguard/typescript_policy.go:399-407 | a block comment ends after the first closing mark |
| `LexerShapes.BlockNeverEnds` | internal/harnessguard/typescript_policy.go:399-407 | one without a closing mark ends with the source |
| `LexerShapes.RegexReads` | internal/harnessguard/typescript_policy.go:349-374 | a regular expression of plain characters, escapes and classes ends after its closing slash and flags; a slash in a class or after a backslash does not close it |
| `LexerShapes.RegexUnclosed` | internal/harnessguard/typescript_policy.go:349-374 | one that is not closed ends with the line or the source, or one past it after a lone backslash |
| `LexerShapes.SlashAfterWord` | internal/harnessguard/typescript_policy.go:376-390 | a slash opens a regular expression at the start and after seven keywords, and after no other word |
| `LexerShapes.SlashAfterMark` | internal/harnessguard/typescript_policy.go:376-390 | and after twelve marks, and after no other mark nor after a template |
| `LexerShapes.TemplateUnclosed` | internal/harnessguard/typescript_policy.go:268-291 | a template in which the source ends is read up to there |
| `LexerRoundTrip.LexOfText` | internal/harnessguard/typescript_policy.go:204-347 | the round trip: code written from words, literals, marks, blanks, comments, regular expressions and templates nested to any depth is lexed to exactly its tokens |
| `LexerRoundTrip.LexReads` | internal/harnessguard/typescript_policy.go:204-250 | the same from anywhere in a source and after any tokens |
| `LexerRoundTrip.PieceReads` | internal/harnessguard/typescript_policy.go:207-247 | one round of the dispatch reads one piece of code whole |
| `LexerRoundTrip.SearchReads` | internal/harnessguard/typescript_policy.go:293-347 | the search for the end of an expression stops at the brace after its code, past all braces inside it |
| `LexerRoundTrip.TemplateReads` | internal/harnessguard/typescript_policy.go:268-291 | a template is read to its closing backquote with the tokens of its expressions in order |
| `LexerLocality.ExpressionStopsAtBrace` | internal/harnessguard/typescript_policy.go:335-341 | where the second loop stops inside the source there is a closing brace |
| `LexerLocality.ScanLocal` | internal/harnessguard/typescript_policy.go:207-247 | one round reads the same from a substring cut out before a closing brace as from the source |
| `LexerLocality.TemplateLocal` | internal/harnessguard/typescript_policy.go:268-291 | so does a whole nested template |
| `LexerLocality.ExpressionLocal` | internal/harnessguard/typescript_policy.go:293-347 | and a whole embedded expression |
| `LexerAgreement.ExpressionBalances` | internal/harnessguard/typescript_policy.go:293-347 | the tokens the second loop accumulated balance in braces with no negative prefix |
| `LexerAgreement.ScannersAgreeIff` | internal/harnessguard/typescript_policy.go:268-347 | for every expression that ends inside the source, lexing the cut-out substring gives the tokens the second loop accumulated, with those of nested templates woven in, if and only if no slash the second loop takes for a division follows embedded tokens after which the lexer takes it for a regular expression |
| `LexerAgreement.NoSlashNext` | internal/harnessguard/typescript_policy.go:242-247 | after tokens that open a regular expression the lexer never emits a slash next |
| `LexerAgreement.FlatScannersAgree` | internal/harnessguard/typescript_policy.go:268-347 | without nested templates the two token lists are equal |
| `LexerBounds.QuietIsConcordant` | internal/harnessguard/typescript_policy.go:376-390 | in a source in which no slash follows a backquote the two loops judge every slash alike |
| `LexerBounds.TemplateScans` | internal/harnessguard/typescript_policy.go:268-291 | a template is read without leaving the source, if no regular expression after the start of an embedded expression runs to a lone backslash at the end of the source, and either no slash follows a backquote or no closing brace follows a backslash |
| `LexerBounds.ExpressionScans` | internal/harnessguard/typescript_policy.go:293-347 | so is an embedded expression of such a source, and its end lies within the source |
| `LexerBounds.LexSucceeds` | internal/harnessguard/typescript_policy.go:204-250 | lexing such a source never slices out of range: an out-of-range slice needs an unterminated regular expression's lone backslash at the end, or both a slash after a backquote and a backslash before a closing brace |
| `LexerBounds.TrailingBackslashOverruns` | internal/harnessguard/typescript_policy.go:349-355 | a source ending in an embedded unterminated regular expression's backslash does slice out of range |
| `LexerBounds.SlashAfterTemplateHidesTokens` | internal/harnessguard/typescript_policy.go:293-347 | a concrete source on which the two loops disagree: a token the second loop saw is not lexed |
| `LexerBounds.SlashAfterTemplateOverruns` | internal/harnessguard/typescript_policy.go:281-281 | a concrete source that slices out of range although no regular expression runs to its end |
| `Launcher.StepKeepsInvariant` | internal/launcher/launcher.go:120-265 | every step of the launcher, its process, the updates and a boot keeps the records, the trial and the process sound |
| `Launcher.RunKeepsInvariant` | internal/launcher/launcher.go:120-265 | so does every run of steps |
| `Launcher.StepKeepsRecords` | internal/state/state.go:71-111 | whatever the state file or a pending preparation calls active or last good has completed a trial |
| `Launcher.StepKeepsTrial` | internal/launcher/launcher.go:196-265 | a trial has come as far as its stage says, in the order start, register, ready, hold |
| `Launcher.StepKeepsProcess` | internal/launcher/launcher.go:196-265 | at most one managed process is alive and its exit is received once |
| `LauncherSafety.TrialHistory` | internal/launcher/launcher.go:156-265 | every trial in progress is explained by the events of the run since its load, in order |
| `LauncherSafety.EarnedByTrial` | internal/launcher/launcher.go:208-248 | a version has earned its place only by a load as candidate, a start, a registration, READY and an elapsed hold, in that order and of one process |
| `LauncherSafety.ActivePassedTrial` | internal/launcher/launcher.go:120-265 | over all boots and interleavings the active and last-good versions have passed such a trial |
| `LauncherSafety.FailureRestoresLastGood` | internal/launcher/launcher.go:330-342 | a failing candidate restores last good; an active release, failing or not, changes no state |
| `LauncherSafety.ExitReceivedOnce` | internal/launcher/launcher.go:196-265 | on every path the exit of a started release is received exactly once, no wait is for an exit already received, and a start finds no process alive |
| `LauncherProgress.ReloadDecides` | internal/launcher/launcher.go:136-153 | after a clean exit the launcher loads again exactly when the state file holds another candidate and the release is gone, and stops otherwise |
| `LauncherProgress.ReloadGoesRound` | internal/launcher/launcher.go:136-153 | the load after it selects that candidate |
| `LauncherProgress.ServingHandsOff` | internal/launcher/launcher.go:120-153 | a serving release that exits cleanly hands off to a candidate prepared meanwhile |
| `LauncherProgress.CandidateIsConfirmed` | internal/launcher/launcher.go:156-265 | a candidate that starts, registers, is ready and outlives the hold serves and becomes active and last good |
| `LauncherProgress.ActiveServes` | internal/launcher/launcher.go:156-265 | without a candidate the active release serves, and nothing is saved |
| `LauncherProgress.CandidateIsRolledBack` | internal/launcher/launcher.go:330-342 | a candidate whose process exits during its trial is rolled back to last good |
| `LauncherProgress.FreshInstallationLoads` | internal/launcher/launcher.go:130-135 | a fresh installation installs a version and loads it as candidate |
| `LauncherProgress.EventsFitStages` | internal/launcher/launcher.go:156-248 | the events up to READY are possible exactly at their stage |
| `LauncherProgress.LaterEventsFitStages` | internal/launcher/launcher.go:208-265 | so are hold, confirmation, failure and reload |
| `LauncherProgress.ExitsFitStages` | internal/launcher/launcher.go:196-265 | when an exit can happen and when it can be received, and what a boot leaves |
| `LauncherProgress.PreparationsFit` | internal/state/state.go:71-84 | a preparation is for a version that is not active, while no candidate is pending |
| `LauncherProgress.FailuresLead` | internal/launcher/launcher.go:196-265 | where each failure and each exit leads, none of them touching the state file |
| `LauncherProgress.SavesWrite` | internal/state/state.go:71-111 | what preparing, confirming and rolling back save, column by column |
| `LauncherHandoff.StepLosesIff` | internal/launcher/launcher.go:250-263 | a step loses the outstanding candidate of the state file if and only if it saves a preparation of another version or the end of a candidate's trial |
| `LauncherHandoff.NothingLostIff` | internal/launcher/launcher.go:91-153 | over every run from a fresh installation, whatever overlaps, no candidate is lost on the way if and only if no step overwrites an outstanding one |
| `LauncherHandoff.CommittedIsHandedOff` | internal/launcher/launcher.go:120-153 | a candidate committed while no other candidate's outcome is pending stays in the state file through every step and boot up to the load that selects it, if and only if no preparation of another version is saved over it; and where the launcher then decides on a reload it goes round to that load |
| `LauncherHandoff.OnlyDecidingWrites` | internal/launcher/launcher.go:250-263 | only the end of a candidate's trial and a preparation write the state file |
| `LauncherHandoff.DuringTrial` | internal/launcher/launcher.go:156-265 | during a trial the state file is the loaded one unless a preparation is saved |
| `LauncherHandoff.WindowCommitIsLost` | internal/launcher/launcher.go:250-263 | a candidate committed between the load of another candidate and the save that ends its trial is lost by that save, and that save loses nothing otherwise |
| `LauncherHandoff.SerialKeepsExclusive` | internal/launcher/launcher.go:91-104 | preparations that do not overlap never meet a trial |
| `LauncherHandoff.NoCandidateLost` | internal/launcher/launcher.go:91-104 | so over every run with such preparations every prepared candidate is in the state file until a load selects it; the exact condition for all runs is NothingLostIff |
| `LauncherHandoff.OutstandingMeaning` | internal/launcher/launcher.go:120-129 | what it is to be prepared and not yet selected |
| `LauncherHandoff.InstallationLoses` | internal/launcher/launcher.go:130-135 | a concrete run without any trial in which the launcher's own first installation saves over the candidate of an update transition |
| `LauncherHandoff.OverlapLoses` | internal/launcher/launcher.go:250-263 | a concrete run in which a transition that overlaps the first installation saves during the trial and the confirmation overwrites it |
| `DevSuite.RecordedGeneration` | internal/devsuite/devsuite.go:109-123 | the generation written is the generation read back |
| `DevSuite.GenerationReads` | internal/devsuite/devsuite.go:109-119 | the number in the file is read whatever white space is around it; no file or no number is generation 0 |
| `DevSuite.MatchesIff` | internal/devsuite/devsuite.go:171-188 | a process is the recorded one by creation time where it was recorded, and otherwise by executable |
| `DevSuite.NextIsAboveIff` | internal/devsuite/start.go:144-150 | the next generation is the known one plus one, and so above both files, if and only if the known one is not the last of 64 bits |
| `DevSuite.GenerationsWrap` | internal/devsuite/start.go:144-150 | after that one the next is 0 |
| `DevSuite.LogPathInjective` | internal/devsuite/devsuite.go:220-223 | a member's log path names its generation |
| `DevSuite.LaterStartsAreNewer` | internal/devsuite/start.go:80-98 | in every run, until the generations are used up, a start records a generation above all earlier starts and all they spawned |
| `DevSuite.SpawnsAreCurrent` | internal/devsuite/start.go:80-98 | a process is spawned at the generation of the latest start |
| `DevSuite.SignalsHitTheirMember` | internal/devsuite/devsuite.go:167-207 | in every run a signal reaches a process with the creation time recorded at the spawn, if the kernel told it then, and a sweep's signal never acts for a member recorded at the sweep's generation or a newer one |
| `DevSuite.SweepSparesNewer` | internal/devsuite/control.go:93-114 | with the creation time known, and no two processes of one pid created at the same time, a sweep never signals a process spawned at its own generation or a newer one |
| `DevSuite.SweepHitsNewerIff` | internal/devsuite/devsuite.go:167-189 | a sweep's signal may go to a process spawned on the member's pid at the sweep's generation or a newer one if and only if the member's creation time was not known and the process runs the recorded executable |
| `DevSuite.UnknownTimeCanMislead` | internal/devsuite/devsuite.go:181-188 | a run in which it does: the sweep has loaded the old roster, and the new start, control first, spawns an app with the same executable on the reused pid |
| `DevSuite.RecordedOnce` | internal/devsuite/control.go:93-114 | the members of a roster were recorded at its generation and at no other |
| `DevSuiteHost.Host.VerifyMember` | internal/devsuite/devsuite.go:167-189 | running means that the pid names the recorded process, foreign that it names another, stopped that it names none, unproven that it could not be read |
| `DevSuiteHost.Host.TerminateMember` | internal/devsuite/devsuite.go:193-207 | signals only a process that matches the record, a terminate first and a kill at most after it; a foreign or unproven pid is not signalled; only a process that had both is reported running; the final state is true of the process table |
| `DevSuiteHost.Host.WaitGone` | internal/devsuite/devsuite.go:209-218 | polling reports whether the pid is gone |
| `DevSuiteHost.Host.StopOne` | internal/devsuite/stop.go:63-74 | reports the member with a state that is true of the process table; every member not seen stopped is noted as skipped |
| `DevSuiteHost.Host.StopControl` | internal/devsuite/stop.go:43-53 | control files are removed only right after the control pid was found dead |
| `DevSuiteHost.AppsAre` | internal/devsuite/stop.go:34-41 | the apps are the members not named control, in order |
| `DevSuiteHost.ControlIs` | internal/devsuite/stop.go:34-44 | control is the last member so named |
| `DevSuiteHost.ReportsAre` | internal/devsuite/stop.go:63-74 | a report for each member in order, and as skipped those not seen stopped |
| `DevSuiteHost.Host.SweepOne` | internal/devsuite/control.go:101-112 | a stale member is gone, has been terminated and then killed, or was not proven to be the recorded process and not signalled |
| `DevSuiteHost.Host.Stop` | internal/devsuite/stop.go:24-61 | every app is handled, in roster order, before control; the report lists each member once and the skipped ones are those not seen stopped; the control files go only with a dead control pid, and the roster file unless it cannot be removed |
| `DevSuiteHost.Host.SweepRosterResidue` | internal/devsuite/control.go:93-114 | of a roster of an older generation every app member, in order, is gone, has been sent both signals or was not proven to be the recorded process, and the roster file is removed; any other roster is left alone |
| `DevSuiteHost.NextIsNewer` | internal/devsuite/start.go:144-150 | with the records as they are kept the next generation is above every earlier start's |
| `DevSuiteHost.Host.PickGeneration` | internal/devsuite/start.go:144-150 | the generation picked is above every earlier start's unless the generations are used up, and above both files exactly when neither holds the last one of 64 bits |
| `DevSuiteHost.Host.RecordGeneration` | internal/devsuite/devsuite.go:121-123 | the generation is on disk and is the latest start's |
| `DevSuiteHost.Host.SpawnMember` | internal/devsuite/start.go:170-244 | a spawned member is recorded with its app, executable, log path, pid and the creation time of the process, or 0 if that cannot be read, and logged as spawned at the generation |
| `DevSuiteHost.Host.Start` | internal/devsuite/start.go:80-129 | cut short anywhere, a start spawns nothing before its generation is on disk and acts only at that generation; a complete one leaves a roster of control and every app in order |
| `DevSuiteHost.Host.Run` | internal/devsuite/start.go:80-129 | any sequence of starts, stops and sweeps, with pids reused between calls, keeps the log sound |
| `Decimal.ParseFormat` | internal/businessacceptance/exact.go:27-34 | a number written in decimal is read back |
| `Decimal.FormatOfValue` | internal/businessacceptance/exact.go:27-34 | a number in plain decimal is written back as it was |
| `Decimal.ValueOfPlaces` | internal/businessacceptance/exact.go:27-34 | digits stand for tens by their place |
| `Rational.ReducedIsLowest` | internal/businessacceptance/exact.go:52-55 | reducing a fraction gives the same number in lowest terms |
| `Rational.LowestUnique` | internal/businessacceptance/exact.go:52-66 | fractions in lowest terms that are the same number are the same fraction |
| `Rational.CompareReal` | internal/businessacceptance/exact.go:73-75 | comparing by cross multiplication compares the numbers |
| `Rational.AddReal` | internal/businessacceptance/exact.go:40-42 | the sum of fractions is the sum of the numbers, in lowest terms |
| `Rational.SubtractReal` | internal/businessacceptance/exact.go:44-45 | the difference of fractions is the difference of the numbers, in lowest terms |
| `ExactTime.ParseTimeIff` | internal/businessacceptance/exact.go:20-38 | a document is accepted if and only if it spells a canonical time out |
| `ExactTime.CanonicalIff` | internal/businessacceptance/exact.go:20-38 | the canonical times are exactly the 64-bit integers over the positive 32-bit integers, without a common factor and in plain decimal |
| `ExactTime.SecondsIs` | internal/businessacceptance/exact.go:52-66 | the number of a time is its value over its scale |
| `ExactTime.ParseRangeIff` | internal/businessacceptance/exact.go:10-18 | a range is accepted if and only if start and duration are and the duration is positive |
| `ExactTime.FractionRoundTrip` | internal/businessacceptance/exact.go:52-66 | writing a fraction as a time and reading it gives the fraction back |
| `ExactTime.TimesAreNumbers` | internal/businessacceptance/exact.go:73-80 | canonical times are equal as records if and only if they are equal as numbers, and compare as numbers |
| `ExactTime.EndIsSum` | internal/businessacceptance/exact.go:40-42 | the end of a range is the canonical time that is start plus duration, and is refused if and only if there is none |
| `ExactTime.BoundsAreDifference` | internal/businessacceptance/exact.go:44-50 | the range between bounds has their difference as duration, and is refused if and only if that is not a positive canonical time |
| `ExactTime.EndThenBounds` | internal/businessacceptance/exact.go:40-50 | the range between a range's own bounds is that range |
| `ExactTime.BoundsThenEnd` | internal/businessacceptance/exact.go:40-50 | the range between two bounds ends at the second |
| `Transcript.SegmentEvidence` | internal/businessacceptance/transcript.go:105-145 | accepts exactly the coherent segments whose span can be written and lies within the segment, with that span as evidence; panics exactly on coherent segments whose span cannot be written |
| `Transcript.CoherentIff` | internal/businessacceptance/transcript.go:105-135 | a coherent segment by its fields: a range, a text, and ordered tokens with an id, a text and a range that ends, whose texts join to the segment's |
| `Transcript.SpanEvidence` | internal/businessacceptance/transcript.go:136-145 | the part after the token loop |
| `Transcript.TokensDisjoint` | internal/businessacceptance/transcript.go:122-126 | in an accepted order every token ends before any later one starts |
| `Transcript.DurationsFit` | internal/businessacceptance/transcript.go:114-132 | token durations add up to no more than the time from the first start to the last end |
| `Transcript.EvidenceIsSpan` | internal/businessacceptance/transcript.go:136-144 | the evidence is exactly first start to last end, and its duration holds all token durations |
| `Transcript.WideSpanPanics` | internal/businessacceptance/transcript.go:136-138 | a family of segments on which the check panics |
| `Transcript.SpanCanPanic` | internal/businessacceptance/transcript.go:136-138 | one of them |
| `FrameGrid.WriteFrameStream` | internal/controlcli/dev_record.go:214-257 | tick j shows the frame that is up between the ticks nearest to its own start and to the next one's, and a recording below half a tick shows its last frame once |
| `FrameGrid.SpanIs` | internal/controlcli/dev_record.go:226-231 | a frame lasts until the next one starts, at least no time and at most the whole recording |
| `FrameGrid.TickIs` | internal/controlcli/dev_record.go:232-232 | twenty-five ticks a second, to the nearest |
| `FrameGrid.StreamLength` | internal/controlcli/dev_record.go:232-235 | the count is the whole recording to the nearest tick, and at least one |
| `FrameGrid.NoDrift` | internal/controlcli/dev_record.go:225-252 | however many frames there are, each starts within half a tick of its moment |
| `FrameGrid.ShowsOneStream` | internal/controlcli/dev_record.go:225-252 | the stream is determined by the grid and keeps the frames in order |
| `FrameGrid.TotalIsRequested` | internal/controlcli/dev_record.go:226-231 | growing timestamps that fit within the recording fill it exactly |

## Left out

- LexerBounds.LexSucceeds: one direction only. A source outside its condition may still lex, for example when the characters that look like the start of an embedded expression stand in a comment. Two concrete sources show that neither part of the condition can be dropped.
- LauncherHandoff.NoCandidateLost: for preparations that do not overlap, as the broker's lock gives; the launcher's own first installation is outside the lock, InstallationLoses and OverlapLoses show what can then happen, and NothingLostIff holds of all runs.
- ExactTime.CompareTimes: defined on canonical times only, where the code does not panic; it is called on no others.
- FrameGrid.WriteFrameStream: over the reals, without file errors; floating-point rounding and int overflow are not modelled.
- AlignmentRewrite.RewriteAlignmentValue: on values; the code edits decoded maps in place, which nothing else shares.
- JournalMigration.Journal.RewriteEditJournal: on failure the tables are left half rewritten, where the caller rolls the SQL transaction back.
- Launcher.StepKeepsInvariant: the launcher loop is a state machine on values, because its steps interleave with updates; processes that outlive a crash, version comparison and the recovery journal are not modelled.
- DevSuiteHost.Host.SweepRosterResidue: a sweep in the middle of a start's own spawns and writes; the sweep falls before or after each of them. SweepHitsNewerIff and UnknownTimeCanMislead, which are about logs, cover the signals of a sweep that has loaded the old roster and goes on; removal of the roster file racing with those writes is not modelled.
- DevSuiteHost.Host.VerifyMember: a liveness probe that fails is taken for a dead pid by the code and does not occur in the model; SameExecutable is a parameter, and no pid is reused within one call.
- DevSuiteHost.Host.Stop: the broker's own removal of control files when it closes, and the wait before they are removed.
- ArchiveExtract.Disk.Extract: the destination is a physical path; a link above it is refused, where making the destination would follow it.
- ArchivePack.Pack: creation and removal of the bundle file, and sockets, which tar cannot describe.
- SQL text, JSON codecs, SHA-256, tar and zstd; the hash is a parameter, free of the collisions that a lemma names.
- Unix paths and file identity only; umask, disk errors and a destination inside the source are not modelled in the tree copy.
- Lexer input is a sequence of characters where the code reads bytes.
- Physical resolution of link chains in a bundle: the checks are lexical, and containment is stated of the nodes written.
- PruneMemberLogs, awaitSuiteReady, status and restart reporting of the development suite: easy members.
- CDP, HTTP, websocket, signer and broker clients, CLI parsing, native builds, codesign and ffmpeg runs.
- Validators that read one record at a time: easy members.
