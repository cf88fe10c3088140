# JaaS: a Dafny model of the operator's protocols

JaaS renders Jsonnet snippets held as Kubernetes objects, publishes each result as a content-addressed tarball with an
`ExternalArtifact` pointing at it, and re-renders when an input changes. Its guarantees rest on a few protocols and
algorithms. Each is modelled here in its own module and its promises are proved over all inputs, runs and interleavings.

`dafny verify dfyconfig.toml` checks the whole project.

## How it is organised

| area | modules |
|---|---|
| artifact store and retention | `Revision`, `Archive`, `Retention`, `ArtifactStore` (the class), `RetentionRuns` (the grace promise over runs), `StoreInterleaving` (system calls, locks, crashes) |
| publishing | `Publisher`, `Reconciler` (the classes), `Publication` (every failure point, as a protocol), `PublishRefinement` (the classes are runs of it), `History` (keep-set against status) |
| archives between producer and consumer | `EntryNames`, `CappedReader`, `Extraction`, `RoundTrip` |
| imports | `GoPath` (path.Clean, Join and Dir by segments), `PathMeaning` (where paths lead), `ImportTree` (stateless resolver and encodings), `ImportRuns` (sequences of Import calls), `EntryLabel` (the label the operator gives the entry), `Importer` (the class with its three memo tables) |
| dependency graph | `DependencyGraph`, `CycleWalk`, `Cascade`, `WatchEdges`, `Admission`, `AdmissionRuns` |
| caches | `EpochCache` (the protocol), `OperatorCaches`, `TokenCache` |
| webhook certificates | `CABundle`, `VWCUpdate`, `CARotation` |
| evaluation | `EvalSlots` |
| CRD watch | `CrdWatch` |
| shared | `Strings`, `Common`, `Wrappers` |

Code that changes state is a class or a method with its loops, proved against functions over values; what the program
promises is then proved about those functions, or about a transition system whose steps use them. Calls into the
cluster, clocks, file system failures and map enumeration orders are parameters, so every theorem is over all of them.

## What turned out to need a hypothesis

Each of these has a lemma with a failing case and, where the code meets the promise only sometimes, the exact condition.

- The grace window holds when stamps are newer than all else on disk, every revert gets its stamp and every Prune sees
  its files. Where something fails, two exact conditions say what is lost, each readable when it happens. A file keeps
  its grace in every sound continuation of its own Put iff that Put left it strictly newest
  (`RetentionRuns.PutKeepsGraceIff`), and in any continuation of the Put that displaces it iff that one was stamped and
  no third file was newer (`RetentionRuns.DisplacedKeepsGraceIff`); a lost re-stamp (`RetentionRuns.RevertKeepsGraceIff`)
  and a tie (`RetentionRuns.TiesBreakGrace`) fail both. A Prune whose Stats fail takes a file early iff it sees the file
  and nothing newer (`RetentionRuns.UnseenBreaksGrace`). There is no other way to lose a file early
  (`RetentionRuns.EarlyLossExplained`).
- A visible tarball shows the same bytes for good as long as a revision names one tree
  (`StoreInterleaving.VisibleBytesAreFixed`). Two trees put under one revision, the second by a Put whose Stat fails,
  overwrite it (`StoreInterleaving.MisreadStatOverwrites`), and nothing else does (`StoreInterleaving.BytesChangeIff`).
- In source mode the keep-set is seeded with the hash of the rendered text, so a steady republish can leave a listed
  revision unkept: exactly when `History.SourceModeLoses` holds.
- The suspended prune spares the published revision iff the history in the cached object lists it
  (`Publication.SuspendedPruneSafeIff`), which an early return of `markSynced` can leave unmet, and so can a cache that
  lags (`Publication.SkippedMarkThenSuspendLosesArtifact`, `Publication.LaggingCacheThenSuspendLosesArtifact`).
- The importer is independent of call order iff the label the operator gives the entry, namespace/name/entryFile, is
  no file's `foundAt`: neither a path of the snippet's own files nor a file of a library named like the namespace
  (`EntryLabel.RunsAgreeIff` over sequences of calls; `EntryLabel.CopyRunsDisagree` is a pair that disagrees).
- Admission keeps the graph acyclic while terminating snippets keep their spec and libraries stay fixed
  (`AdmissionRuns.TerminatingEditCanCycle`, `AdmissionRuns.LibraryEditCanCycle`). An edit to a library keeps it acyclic
  iff no snippet naming the library is on a cycle afterwards (`AdmissionRuns.LibraryEditKeepsAcyclicIff`).
- A token caller that joins a mint already in flight may receive a token older than a completed `Forget`
  (`TokenCache.JoinerAfterForgetGetsOlderToken`). The flight's epoch tells: it is that of the call or later iff nothing
  was forgotten in between, and then the token is fresh; where only this key was forgotten, only then
  (`TokenCache.JoinerIsFreshIff`). A cache hit is always fresh.
- The comment at internal/webhook/selfsigned/patcher.go:40-44 calls merges commutative; they are exactly when neither
  drops what only the other adds (`CABundle.MergesCommuteIff`).
- A trim of the CA bundle that lands keeps its pod trusted iff the retired CA is no longer served, or has expired
  (`CARotation.TrimKeepsServingIff`); a run keeps every pod trusted throughout iff all its trims do
  (`CARotation.TrustedThroughoutIff`). `CARotation.ShortGuardBreaksAdmission` is a run that does not.
- Publishing accepts safe names that are not in normal form; such a tree does not come back from its archive
  (`RoundTrip.ExtractOfPublishIff`), and the store refuses some of them (`EntryNames.InnerTraversalIsRefused`).
- The bytes hashed for a source revision are ambiguous for every tree of two or more files, and for a tree of one iff its
  content hides a greater name between two NULs (`RoundTrip.AmbiguousIff`); among NUL-free trees never.
- A per-entry cap of the largest int64 makes every extracted body empty (`Extraction.LargestEntryCapEmptiesBodies`);
  what this leaves of the exactness theorem is `Extraction.ExtractedExactlyIff`.
- The comment at internal/operator/crdwatcher.go:24-30 counts about 63 seconds of waiting; the code waits 31 initial
  delays, because the sixth failure gives up (`CrdWatch.ChainWaits`, `CrdWatch.KeepFailing`).

## Model

| member | source | states |
|---|---|---|
| Revision.FilenameCollision | internal/storage/key.go:23-25 | two revisions share a file exactly when they differ only in ':' against '-' |
| Revision.DigestFilenameInjective | internal/storage/key.go:33-49 | canonical digests never share a file |
| Revision.DigestFilenameIsCandidate | internal/storage/store.go:510-530 | a digest's file is recognised by Prune and Sweep and is never taken for a temporary one |
| Revision.OursIff | internal/storage/store.go:499-537 | both directions: Prune and Sweep recognise exactly the names of the spelled-out shape, with the one ending and with the other |
| Revision.BareRevisionsCollide | internal/storage/key.go:23-25 | without the digest shape two revisions can collide |
| Archive.SortIsSorted | internal/storage/store.go:271-310 | archive members are ordered by path |
| Archive.ArchiveIgnoresEnumerationOrder | internal/storage/store.go:271-310 | entries handed over in any order give the same archive |
| Archive.WriteMembers | internal/storage/store.go:271-310 | the write loop stops at the first unusable name and otherwise writes all |
| Archive.WriteTarGz | internal/storage/store.go:271-330 | succeeds iff every name is usable, and then the archive is the sorted entries |
| Retention.EarliestNewerMtime | internal/storage/store.go:470-481 | the least mtime strictly after the reference, zero iff there is none |
| Retention.IsPruneVictim | internal/storage/store.go:448-466 | one decision: unkept, and displaced (or itself) at least grace ago |
| Retention.SelectPruneVictims | internal/storage/store.go:448-466 | exactly the victims, each once |
| Retention.PruneDrains | internal/storage/store.go:364-414 | once everything is grace old a Prune leaves only kept revisions |
| Retention.NoGraceTakesAll | internal/storage/store.go:448-466 | without a grace window exactly the unkept go |
| ArtifactStore.CollectCandidates | internal/storage/store.go:391-401 | the loop picks exactly the artifact files whose Stat succeeds, with their times |
| ArtifactStore.BuildPruneKeepSet | internal/storage/store.go:429-438 | the files of all revisions named, an error iff one is no path component |
| ArtifactStore.CollectRemovable | internal/storage/store.go:628-652 | the loop tests name and age, removes the orphans that can be removed, counts them and names the rest as errors |
| ArtifactStore.Store.HasNewerSibling | internal/storage/store.go:235-253 | true iff another tarball in the directory is strictly newer |
| ArtifactStore.Store.PutLocked | internal/storage/store.go:139-204 | a revision not there, or not seen, is stored with exactly the entries, in path order, and the present time; one that is keeps its bytes and gets the present time exactly if another tarball is strictly newer; no other tarball changes; success has an exact condition, and an error changes no visible tarball |
| ArtifactStore.Store.Put | internal/storage/store.go:139-204 | the same over whole keys: what is stored, entry for entry, which time it gets, when it succeeds; the digest reported is that of the visible bytes; other keys never change |
| ArtifactStore.OutcomeIsWritten | internal/storage/store.go:161-204 | the described directory, file by file: which bytes and which mtime the revision has, and that no other tarball changes |
| ArtifactStore.SafeComponentIff | internal/storage/store.go:657-670 | a key component that passes is one plain path element without backslash, and every such one passes |
| ArtifactStore.Store.PruneLocked | internal/storage/store.go:364-414 | removes exactly the victims, or a part of them if a removal fails |
| ArtifactStore.Store.Prune | internal/storage/store.go:364-414 | an empty keep-set, a bad argument or a failing listing removes nothing; success removes exactly the victims among the files seen; every name removed has the shape of a tarball of ours |
| ArtifactStore.Store.RemoveVictims | internal/storage/store.go:364-414 | victims go one at a time and a failure stops there |
| ArtifactStore.Store.Delete | internal/storage/store.go:334-351 | removes the key whole, or leaves a subset of unchanged files on failure; no other key changes |
| ArtifactStore.Store.SweepKey | internal/storage/store.go:621-653 | removes exactly the old temporary files it can stat and remove, counts them, and reports those it cannot remove |
| ArtifactStore.Store.Sweep | internal/storage/store.go:562-611 | over all keys that can be listed exactly the old temporary files of ours that can be removed go, younger and foreign files stay; the total counts them all; fails iff one is stuck or the root cannot be listed |
| ArtifactStore.SweptMeans | internal/storage/store.go:562-653 | file by file: a file goes iff it has the shape of a temporary tarball of ours, is at least maxTmpAge old, was seen and is not stuck, under a key that was listed |
| ArtifactStore.SweepLeavesTarballs | internal/storage/store.go:562-653 | after such a walk every visible tarball of every key is as before, and only stuck files of the keys listed are left |
| RetentionRuns.RunIsFaithful | internal/storage/store.go:139-204 | over any sound run, mtimes keep telling who displaced whom, even after displacers are pruned |
| RetentionRuns.PruneHonoursGrace | internal/storage/store.go:364-481 | in any sound run no revision is pruned earlier than grace after the first Put of another one since its own last Put |
| RetentionRuns.DisplacedIsFirst | internal/storage/store.go:139-204 | the displacement the theorem counts from is that first Put |
| RetentionRuns.PutKeepsGraceIff | internal/storage/store.go:161-204 | a file keeps its grace in every sound continuation of its own Put iff the Put left it strictly newest |
| RetentionRuns.DisplacedKeepsGraceIff | internal/storage/store.go:161-204 | a file keeps its grace in every continuation of the Put that displaces it, later stamps lost or not, iff that Put was stamped and no third file was newer |
| RetentionRuns.RevertKeepsGraceIff | internal/storage/store.go:166-184 | a revert keeps the grace of its own file, and of the one it displaces, iff its stamp lands |
| RetentionRuns.TiesBreakGrace | internal/storage/store.go:181-184 | of two newest files with one mtime the one put again goes unstamped, and either can be lost early |
| RetentionRuns.UnseenBreaksGrace | internal/storage/store.go:396-399 | in any run: a Prune within grace of an anchored displacement may take the file iff it sees it, nothing newer, and it is old |
| RetentionRuns.EarlyLossExplained | internal/storage/store.go:139-481 | in any run, whatever failed: a file taken early was displaced without an anchor or taken by a Prune blind to all that is newer |
| RetentionRuns.PutRefinesRunStep | internal/storage/store.go:139-204 | every Put on a real directory, whatever fails, is a Put of these runs, and stamps as a sound one must unless a revert's own re-stamp fails |
| RetentionRuns.PruneRefinesRunStep | internal/storage/store.go:364-414 | every Prune, blind to some files or cut short, is a Prune of these runs |
| RetentionRuns.SameTarballsSameCandidates | internal/storage/store.go:510-530 | temporary files do not influence retention |
| StoreInterleaving.VisibleAlwaysComplete | internal/storage/store.go:139-204 | in every interleaving with crashes, a visible tarball holds all bytes of some Put of that revision |
| StoreInterleaving.BytesNeverChange | internal/storage/store.go:139-204 | a tarball's bytes never change while it exists and no Put that misread the Stat moves other bytes over it |
| StoreInterleaving.VisibleBytesAreFixed | internal/storage/store.go:153-204 | where a revision names one tree, a visible tarball shows the same bytes in any two states of any run |
| StoreInterleaving.BytesChangeIff | internal/storage/store.go:161-204 | a step that leaves a tarball visible changes its bytes iff it is such a move |
| StoreInterleaving.MisreadStatOverwrites | internal/storage/store.go:161-204 | a run in which a second tree under one revision, put while Stat fails, replaces the visible bytes |
| StoreInterleaving.ReturnedDigestIsVisible | internal/storage/store.go:139-204 | a finishing Put reports the bytes visible at that moment |
| StoreInterleaving.RunningPutKeepsItsTemp | internal/storage/store.go:562-653 | nothing, Sweep included, removes the temporary file of a running Put |
| StoreInterleaving.LocksKept | internal/storage/store.go:92-100 | a key's lock has one holder |
| StoreInterleaving.RepublishReads | internal/storage/store.go:161-184 | let alone, a Put of a revision that is there reads it through, reports its bytes and writes nothing, whatever others are in the middle of |
| StoreInterleaving.FailedPutCleansUp | internal/storage/store.go:186-204 | a Put whose write fails at any byte, and whose clean-up does not, leaves no temporary file and no lock |
| StoreInterleaving.RemovalRemoves | internal/storage/store.go:364-414 | a removal that meets no failure takes exactly the files it planned to and leaves no lock |
| History.BuildKeepRevisions | internal/operator/reconciler.go:886-911 | distinct, new revision first, then the most recent prior ones in their order up to the limit |
| History.UpdateRevisionHistory | internal/operator/reconciler.go:1830-1849 | a moved head goes in front with the present time, the older entries follow as they were, and the oldest make room up to the limit; without a move every entry stays, old time included |
| History.HistoryAfter | internal/operator/reconciler.go:1830-1849 | the head is the new revision, at least it is listed, and the length is at most max(limit, 1) |
| History.HistoryRevisions | internal/operator/reconciler.go:576-584 | exactly the non-empty listed revisions |
| History.AdjacentStayDistinct | internal/operator/reconciler.go:1830-1849 | neighbouring entries stay different |
| History.RenderedKeepCoversHistory | internal/operator/reconciler.go:842-843 | rendered mode: everything the next history lists was in the keep-set |
| History.SourceKeepCoversHistoryIff | internal/operator/reconciler.go:842-843 | source mode: the keep-set covers the next history iff the steady full-history case does not arise |
| History.SteadySourceRepublishDropsListedRevision | internal/operator/reconciler.go:842-843 | a concrete steady republish that leaves a listed revision unkept |
| Publisher.Publisher.PutEntries | internal/operator/publisher.go:155-158 | a Put, failed or not, loses no stored tarball and no fetchable pointer |
| Publisher.Publisher.Upsert | internal/operator/publisher.go:286-309 | the pointer moves iff both writes land, whatever is reported; no other key's pointer moves |
| Publisher.Publisher.PruneKeeping | internal/operator/publisher.go:174-183 | the published revision and every kept one survive the Prune, and on success exactly the victims are gone |
| Publisher.Publisher.Announce | internal/operator/publisher.go:160-184 | pointer and directory after the Put, outcome by outcome |
| Publisher.Publisher.PublishEntries | internal/operator/publisher.go:124-185 | once the Put is through, the file of a fresh revision holds the entries, in path order, and an old one its own bytes; directory and pointer for every outcome; whatever step fails, a fetchable pointer stays fetchable; without faults it succeeds |
| Publisher.Publisher.PublishSourceTree | internal/operator/publisher.go:124-185 | refused iff a name is unsafe or a size too large, and then nothing changes; otherwise the tarball of a fresh revision, in whatever order the tree was enumerated, is extracted to the very tree by every consumer whose caps it fits, if its names are in normal form |
| Publisher.PublishServes | internal/operator/publisher.go:155-185 | whatever fails after the Put, the published file is there with the bytes just said |
| Publisher.ServedComesBack | internal/sources/sources.go:807-941 | such a file is extracted to the tree published |
| Publisher.Publisher.PruneStored | internal/operator/publisher.go:194-202 | removes exactly the victims, or part of them on failure, and spares the pointer if the caller's list holds it |
| Publisher.Publisher.Withdraw | internal/operator/publisher.go:207-219 | pointer first: no failure, reported or not, leaves a pointer without its tarball |
| Publisher.Publisher.WithdrawStorage | internal/operator/publisher.go:228-233 | removes only the tarballs, and leaves a dangling pointer iff one is set |
| Reconciler.Reconciler.Drain | internal/operator/reconciler.go:616-620 | the suspended prune, failing or not, keeps every revision the cached object lists, and the pointer if it is listed there; without faults it removes exactly the victims |
| Reconciler.Reconciler.PublishPass | internal/operator/reconciler.go:842-845 | the keep-set handed over is buildKeepRevisions' and its tarballs survive |
| Reconciler.Reconciler.MarkSynced | internal/operator/reconciler.go:1682-1788 | history and revision change iff the status patch lands, which needs the generation to be the judged one; the history written has the new head in front and every older entry as it was, up to the limit; each way to fail has its outcome |
| Reconciler.Reconciler.ReconcileSpec | internal/operator/reconciler.go:595-870 | a pass stopped before its publish, at whichever step, publishes nothing; the pointer stays fetchable whatever fails; the status written lists the old entries behind the new head; a rendered pass whose status write lands leaves every listed revision stored |
| Publication.PointerAlwaysFetchable | internal/operator/publisher.go:124-219 | in every state of every run with failures anywhere the published revision has its tarball, if the lists suspended prunes work from hold it |
| Publication.SuspendedPruneSafeIff | internal/operator/reconciler.go:616-620 | that hypothesis is exact, for any list the cached object may hold |
| Publication.SkippedMarkThenSuspendLosesArtifact | internal/operator/reconciler.go:1709-1722 | a run in which markSynced's early return makes the suspended prune remove the published tarball |
| Publication.LaggingCacheThenSuspendLosesArtifact | internal/operator/reconciler.go:616-620 | a run in which the status is written and the cached object still holds the list before, so the suspended prune removes the published tarball |
| Publication.PassKeepsBook | internal/operator/reconciler.go:595-870 | one completed rendered reconcile, or suspended prune to a list that is not behind, keeps every listed revision stored and the head current |
| Publication.ListedRevisionsStayStored | internal/operator/reconciler.go:1682-1788 | the same over any number of reconciles with changing limits |
| PublishRefinement.Reconcile | internal/operator/reconciler.go:595-870 | the classes refine the protocol: a whole reconcile, whatever fails in it, takes store, pointer and status along a run of the steps above |
| PublishRefinement.PublishIsRun | internal/operator/publisher.go:124-185 | every outcome of a publish is such a run, a Prune cut short and a write that landed unseen included |
| PublishRefinement.Withdraw | internal/operator/publisher.go:207-219 | so is a withdrawal, complete or not |
| EntryNames.KeptAsIs | internal/sources/sources.go:911-941 | a consumer keeps a name unchanged iff it is in normal form with visible, safe elements, that is iff it is safe and clean |
| EntryNames.KeptIsCanonical | internal/sources/sources.go:911-941 | every kept name is in that form, prefix stripped or not |
| EntryNames.KeptIff | internal/sources/sources.go:911-941 | both directions, for every prefix: a member is kept under a name iff its own name is safe and cleans to the prefix, a slash, and that name |
| EntryNames.SafeIff | internal/sources/sources.go:911-981 | safe names spelled out: relative, without NUL and backslash, and cleaned to visible elements of safe bytes |
| EntryNames.CanonicalIsStorable | internal/storage/store.go:675-694 | a name in that form is one the store accepts |
| EntryNames.DoubledSlashIsDropped | internal/sources/sources.go:978-981 | a safe name may be extracted under another name |
| EntryNames.InnerTraversalIsRefused | internal/storage/store.go:675-694 | a safe name may be refused by the store |
| CappedReader.Reader.Read | internal/sources/sources.go:748-786 | one Read over an arbitrary reader moves the state as the runs below assume, and hands out the stream's next bytes |
| CappedReader.ReadOn | internal/sources/sources.go:748-786 | a consumer reading on into any buffers gets a prefix of at most cap bytes, EOF only with the whole stream |
| CappedReader.RunKeeps | internal/sources/sources.go:748-786 | over any sequence of reads the bytes handed out are the first ones of the stream, at most cap |
| CappedReader.ReadsArePrefix | internal/sources/sources.go:748-786 | EOF only after the whole stream; the cap error only after exactly cap bytes |
| CappedReader.VerdictIff | internal/sources/sources.go:748-786 | a stream that does not answer empty at the cap ends in EOF iff it fits the cap |
| CappedReader.VerdictComes | internal/sources/sources.go:748-786 | a verdict comes, after one read more than there are bytes to hand out at the latest, even from a stream that stalls at the cap |
| CappedReader.VerdictIsFinal | internal/sources/sources.go:748-786 | EOF and the cap error are repeated for ever, with no further bytes |
| Extraction.ExtractOne | internal/sources/sources.go:853-895 | one kept member: the checks in order, int64 wrap-around included |
| Extraction.ExtractMembers | internal/sources/sources.go:840-897 | the loop computes the fold of those steps, and of truthful members below a prefix that is exactly the files there |
| Extraction.ExtractTarballWithLimits | internal/sources/sources.go:807-898 | defaults for non-positive caps, and the ending decides; what comes out are the members below the prefix, as `ExtractsFilesBelow` says |
| Extraction.ExtractionStaysWithinCaps | internal/sources/sources.go:807-898 | any archive: the result is within both caps under safe names, and the int64 total is the true sum |
| Extraction.ExtractionIsExact | internal/sources/sources.go:807-898 | a truthful archive is extracted iff complete, without repeated names and within the caps, and then exactly (for every cap but the one that wraps) |
| Extraction.ExtractsFilesBelow | internal/sources/sources.go:807-941 | a truthful archive comes out, under any prefix, with exactly the files below it, iff it is complete and they fit; one with two members at one name does not come out |
| Extraction.ErrorsAreTrue | internal/sources/sources.go:840-897 | of a truthful archive every error says what is so: the name it blames is there twice, the entry or the sum is over the cap, or the archive breaks off where it says |
| Extraction.DefaultCaps | internal/sources/sources.go:807-822 | 64 MiB in all and 16 MiB per entry where no cap is set |
| Extraction.LargestEntryCapEmptiesBodies | internal/sources/sources.go:879-886 | with the largest per-entry cap the limit wraps: whatever stream is accepted, every body comes out empty |
| Extraction.ExactAtLargestCap | internal/sources/sources.go:807-898 | under that cap a truthful archive comes out as it is iff complete, without repeats, and empty-bodied |
| Extraction.ExtractedExactlyIff | internal/sources/sources.go:807-898 | for every pair of caps, the exact condition for a truthful archive to come out as it is |
| Extraction.LyingHeadersWrapTheSum | internal/sources/sources.go:887-890 | what the loop relies on archive/tar for: were a body longer than its header says, which archive/tar never returns, the sum could wrap past the cap |
| RoundTrip.BuildEntries | internal/operator/publisher.go:242-266 | one entry per file in enumeration order, an error iff some name is unsafe |
| RoundTrip.CheckSizes | internal/operator/publisher.go:143-154 | accepts iff every entry and the sum fit the consumers' caps and the operator's |
| RoundTrip.PublishSource | internal/operator/publisher.go:124-158 | publishes iff names are safe and usable and sizes fit, and then an archive independent of map order |
| RoundTrip.ArchiveIgnoresMapOrder | internal/operator/publisher.go:242-266 | whatever order the map is enumerated in, the archive is the same |
| RoundTrip.ExtractOfPublishIff | internal/sources/sources.go:807-941 | extracting the published archive gives the files back iff every name is in normal form and the per-entry cap does not wrap, unless all bodies are empty |
| RoundTrip.RenderedComesBack | internal/operator/publisher.go:260-263 | a rendered artifact that fits the caps comes back iff the per-entry cap does not wrap or the text is empty |
| RoundTrip.HashFiles | internal/operator/publisher.go:270-284 | the hashing loop writes the encoding of its files |
| RoundTrip.SourceArchiveRevision | internal/operator/publisher.go:270-284 | the bytes hashed do not depend on map order |
| RoundTrip.PreHashInjective | internal/operator/publisher.go:270-284 | different NUL-free trees hash different bytes |
| RoundTrip.NulContentCollides | internal/operator/publisher.go:270-284 | with NUL in contents every tree of two or more files shares its bytes with another |
| RoundTrip.AmbiguousIff | internal/operator/publisher.go:270-284 | a tree with NUL-free names shares its hashed bytes with another iff it has two or more files, or one whose content hides a greater name between two NULs |
| GoPath.CleanNormalForm | internal/eval/importer.go:145-146 | Clean yields a non-empty path in normal form |
| GoPath.CleanIdempotent | internal/eval/importer.go:145-146 | cleaning twice changes nothing more |
| GoPath.EscapesIff | internal/eval/importer.go:147-147 | the relative step's guard rules out exactly the paths starting with ".." |
| PathMeaning.CleanLeads | internal/eval/importer.go:145-146 | cleaning a path keeps where it leads, from every directory |
| PathMeaning.CleanIsNormal | internal/eval/importer.go:145-146 | and leaves plain elements only, after leading ".." ones that only a relative path may have |
| PathMeaning.RelativeLeads | internal/eval/importer.go:143-146 | the relative step looks where the path leads from the directory of the importing file |
| PathMeaning.StoredNamesStayInside | internal/storage/store.go:675-694 | a member name the store accepts lands below the directory of extraction |
| PathMeaning.RefusedNames | internal/storage/store.go:675-694 | exactly which names the store refuses |
| ImportTree.FoundAtInjective | internal/eval/importer.go:212-222 | foundAt names one file even when a Self subtree shadows a library alias, given slash- and NUL-free aliases and NUL-free Self paths |
| ImportTree.CacheKeyInjective | internal/eval/importer.go:110-114 | the cache key determines importedFrom and importedPath, whatever bytes the path holds |
| ImportTree.ResolvedIsInTree | internal/eval/importer.go:137-187 | the resolver only answers with files that exist |
| ImportTree.ResolveMeans | internal/eval/importer.go:137-187 | every answer, step by step: the file at the relative path within the importer's root; missing that, the main file of the library named, or the library's file for alias/file, and no other; and with no library named, Self's file, or that of the first holder in byte order, or an error iff nobody holds it |
| ImportTree.SearchFindsFirst | internal/eval/importer.go:173-187 | the vendor search in those words |
| Strings.LeqIsByteOrder | internal/eval/importer.go:237-246 | the aliases are compared byte by byte |
| ImportTree.RelativeStaysInside | internal/eval/importer.go:143-152 | a relative hit never leaves the importing file's root |
| ImportTree.SourceOfFoundAt | internal/eval/importer.go:230-235 | an earlier answer, used as importedFrom, means the file it named |
| ImportTree.ShadowTagNeeded | internal/eval/importer.go:212-222 | without the tag a shadowed file and the Self file would share a foundAt |
| ImportTree.SlashAliasCollides | internal/operator/webhook.go:225-232 | an alias with a slash would make two libraries' files indistinguishable |
| ImportTree.NulInLibraryNameBreaksKey | internal/eval/importer.go:110-114 | a NUL in a file name breaks the cache key |
| EntryLabel.LabelOkIff | internal/operator/reconciler.go:1526-1535 | the label namespace/name/entryFile is fit for use, and resolution from it means one thing, iff no file collides with it |
| EntryLabel.RunsAgreeIff | internal/operator/reconciler.go:1526-1535 | any two sequences of Import calls answer a further call alike iff no file collides with the label |
| EntryLabel.CollidingIsReachable | internal/eval/importer.go:137-187 | the entry, flat or nested, can always come to import the colliding file |
| EntryLabel.BaseNameTellsApart | internal/eval/importer.go:230-235 | on a collision the entry's own base name resolves differently from the entry and from the colliding file |
| EntryLabel.FlatEntryImportsCollision | internal/eval/importer.go:137-187 | an entry at the root can import the colliding file, so the order is in the program's hands |
| EntryLabel.CopyChangesImports | internal/operator/reconciler.go:1526-1535 | for any names: copies of the entry and a file beside it below namespace/name/ change what the entry's import means |
| EntryLabel.CopyRunsDisagree | internal/operator/reconciler.go:1526-1535 | for any names: the entry's import of the file beside it, before and after its import of the label, has two answers |
| EntryLabel.TeamAppChangesImports | internal/operator/reconciler.go:1526-1535 | so for the snippet app in namespace team |
| ImportRuns.AnswerIsStateless | internal/eval/importer.go:110-235 | where the label is harmless every legal call is answered as the stateless resolver answers it, whatever came before |
| ImportRuns.DirectRunDisagrees | internal/eval/importer.go:110-235 | a reachable file with the label that finds itself under a path under which the entry finds itself makes two runs disagree |
| Importer.InMemoryImporter.Import | internal/eval/importer.go:110-124 | under any label: exactly the run's answer; with a harmless one, in any call order, the stateless resolver's, and the body is that of the file in the tree; one contents instance per foundAt for good |
| Importer.InMemoryImporter.ContentsFor | internal/eval/importer.go:129-135 | one instance per foundAt |
| Importer.InMemoryImporter.ResolveImport | internal/eval/importer.go:137-187 | the four steps with their loop over sorted aliases equal the stateless resolver, whose answers `ResolveMeans` spells out |
| Importer.InMemoryImporter.Search | internal/eval/importer.go:165-187 | the vendor search takes Self, then the least alias holding the file, and fails iff nobody holds it |
| Importer.InMemoryImporter.Record | internal/eval/importer.go:212-222 | records the location under its foundAt and nothing else |
| Importer.InMemoryImporter.SortedAliases | internal/eval/importer.go:237-246 | the aliases, sorted, computed once |
| DependencyGraph.LibrarySources | internal/operator/cycle.go:210-230 | the loop over the libraries, ended by the first failing Get |
| DependencyGraph.SnippetDependencies | internal/operator/cycle.go:210-230 | the snippets read directly or through libraries, in order; withheld iff the Get of a named library fails |
| DependencyGraph.LibrarySource | internal/operator/cycle.go:253-270 | a library's own source, relative to the library's namespace; a missing library reads nothing |
| DependencyGraph.DepsMembers | internal/operator/cycle.go:210-270 | membership: exactly the publishers of the artifacts read |
| DependencyGraph.EdgeMeans | internal/operator/cycle.go:210-270 | an edge is a reference to the artifact of the other, in the snippet or in a library it names; a reference without namespace means that of the object it is written in |
| DependencyGraph.SelfReferenceCycles | internal/operator/cycle.go:237-244 | a snippet that reads the artifact of its own name, giving no namespace, is on a cycle |
| CycleWalk.ClimbParents | internal/operator/cycle.go:276-297 | the parent climb always reaches start along real edges |
| CycleWalk.ReconstructCyclePath | internal/operator/cycle.go:276-297 | a real cycle through start, two longer than the level reached |
| CycleWalk.WalksStayVisited | internal/operator/cycle.go:155-203 | no walk from start can have missed the search or come back unseen |
| CycleWalk.Expand | internal/operator/cycle.go:168-201 | one turn of the search keeps its levels and parents |
| CycleWalk.DetectSourceRefCycle | internal/operator/cycle.go:155-203 | ends on every snapshot; reports a cycle iff start is on one; the path is real and shortest; only a failing Get met on the way withholds the verdict |
| Cascade.CascadeEnds | internal/operator/reconciler.go:653-681 | on any graph the gated publish, watch, reconcile cascade is finite, bounded by what was pending |
| Cascade.CascadeDrains | internal/operator/reconciler.go:653-681 | from any pending list a gated run leads to nothing pending |
| Cascade.PassLowersTotal | internal/operator/reconciler.go:653-681 | every pass, publishing or gated, uses up some of the bound |
| Cascade.UngatedCascadeGoesOn | internal/operator/reconciler.go:653-681 | without the gate one snippet on a cycle keeps the cascade going for any number of passes |
| WatchEdges.IndexKeyInjective | internal/operator/indexes.go:128-130 | a reference has an object's key only if it names that object |
| WatchEdges.SeparatorInNameCollides | internal/operator/indexes.go:128-130 | a separator in the object's name would break that |
| WatchEdges.SnippetLibraryRefIDs | internal/operator/indexes.go:56-73 | the keys of exactly the usable library references |
| WatchEdges.MapFluxSource | internal/operator/reconciler.go:2059-2112 | enqueues what the three lookups find, list faults losing only their own contribution, and forgets exactly their cached verdicts |
| WatchEdges.MapJsonnetLibrary | internal/operator/reconciler.go:2019-2041 | enqueues the snippets of the library's index key and forgets exactly their cached verdicts |
| WatchEdges.MatchFluxSource | internal/operator/reconciler.go:2059-2101 | the three indexed lookups: directly, and through each library of the source that can be listed |
| WatchEdges.IndexedIsFullScan | internal/operator/reconciler.go:2059-2112 | without faults they find exactly what a scan of everything finds |
| WatchEdges.FaultsLoseTheirOwn | internal/operator/reconciler.go:2059-2112 | a failing list loses no more than what it would have found |
| WatchEdges.LibraryEventIsFullScan | internal/operator/reconciler.go:2019-2041 | a library event reaches exactly the snippets naming the library |
| WatchEdges.WatchFollowsGraph | internal/operator/cycle.go:210-270 | for ExternalArtifacts the watch follows the very edges the cycle walk follows |
| Admission.SafeAliasIsOneElement | internal/operator/webhook.go:237-250 | a safe alias is one plain path element without NUL |
| Admission.InvalidLibraryImportAlias | internal/operator/webhook.go:225-232 | the first unsafe alias, if there is one |
| Admission.DuplicateLibraryImportPath | internal/operator/webhook.go:252-268 | the first import path to repeat an earlier one, if there is one |
| Admission.LibraryAliasCollision | internal/operator/webhook.go:295-313 | the first alias shadowing a mounted library, if there is one |
| Admission.ImportNamesIff | internal/operator/webhook.go:206-313 | what is admitted, in terms of importPath: no unsafe and no repeated one, a default where it is empty, none of a mounted library |
| Admission.VariableConflicts | internal/operator/webhook.go:315-327 | exactly the names the operator already sets, as often as given, sorted |
| Admission.UnsafeFileName | internal/operator/webhook.go:134-140 | finds an unsafe file name iff there is one |
| Admission.CheckAlone | internal/operator/webhook.go:117-140 | denies iff the object is not well formed, for a reason that is true of it; well formed is spelled out, names, import paths and variables |
| Admission.Validate | internal/operator/webhook.go:117-152 | what is admitted is well formed and closes no cycle; every denial is justified |
| Admission.ValidateUpdate | internal/operator/webhook.go:73-109 | writes that leave every input as it is and teardown writes pass, everything else is validated |
| AdmissionRuns.GateIsExact | internal/operator/webhook.go:142-150 | on an acyclic graph the walk denies exactly the specs that would make the whole graph cyclic |
| AdmissionRuns.AdmissionKeepsAcyclic | internal/operator/webhook.go:73-152 | any sequence of admitted requests keeps the whole graph acyclic |
| AdmissionRuns.AppliesInAnyOrderIff | internal/operator/webhook.go:117-152 | a set of well-formed snippets can be created one by one, in whatever order, iff all of them together form no cycle |
| AdmissionRuns.CreateUndone | internal/operator/webhook.go:73-109 | creating a snippet and deleting it leads back to the same registry |
| AdmissionRuns.TerminatingEditCanCycle | internal/operator/webhook.go:82-84 | a spec edit to a terminating snippet can close a cycle |
| AdmissionRuns.LibraryEditCanCycle | internal/operator/webhook.go:85-95 | a library edit can close a cycle no request was denied for |
| AdmissionRuns.LibraryEditKeepsAcyclicIff | internal/operator/webhook.go:85-95 | a library edit keeps the graph acyclic iff no snippet naming the library is on a cycle afterwards |
| EpochCache.HitsAreFresh | internal/operator/cycle.go:39-43 | in every interleaving, what a lookup can find was computed after every completed Forget of its key |
| EpochCache.UnguardedStoreRevives | internal/operator/cycle.go:90-101 | without the epoch test a store would bring a forgotten value back |
| OperatorCaches.CycleCache.Lookup | internal/operator/cycle.go:71-83 | a hit iff the entry is of this generation; the epoch is the current one |
| OperatorCaches.CycleCache.Store | internal/operator/cycle.go:90-101 | the protocol's store; reports whether it was taken |
| OperatorCaches.CycleCache.Forget | internal/operator/cycle.go:107-115 | the protocol's forget; the empty uid is a no-op |
| OperatorCaches.TenantClientCache.Get | internal/operator/clientcache.go:53-65 | a hit iff the client was built with this token |
| OperatorCaches.TenantClientCache.Put | internal/operator/clientcache.go:72-82 | the protocol's store |
| OperatorCaches.TenantClientCache.Forget | internal/operator/clientcache.go:88-96 | the protocol's forget |
| OperatorCaches.CycleVerdict | internal/operator/reconciler.go:1054-1085 | at most three cached attempts and one more walk; a walk is repeated only because a Forget landed during it, and otherwise its verdict is cached |
| TokenCache.Margin | internal/operator/token.go:202-208 | the greatest margin within the configured one and a third of the lifetime |
| TokenCache.ServedTwoThirds | internal/operator/token.go:194-208 | what the cache holds after a Keep is a hit at every time within the first two thirds of its life and never once expired; where the configured margin is within a third of the lifetime, exactly until that margin before expiry |
| TokenCache.Tokens.Lookup | internal/operator/token.go:181-192 | a hit is always unexpired |
| TokenCache.Tokens.RefreshMarginFor | internal/operator/token.go:202-208 | computes that margin |
| TokenCache.Tokens.Keep | internal/operator/token.go:162-167 | the protocol's store; whatever the configured margin, a Lookup hits for two thirds of the life and never once expired |
| TokenCache.Tokens.Forget | internal/operator/token.go:215-224 | the protocol's forget |
| TokenCache.Tokens.Token | internal/operator/token.go:118-177 | a hit at the first lookup or at the one inside the flight mints nothing; otherwise the answer is the mint's own, stored under the epoch read before |
| TokenCache.TokenTwice | internal/operator/token.go:118-177 | a second call within two thirds of the life of the token minted by the first, with nothing in between, mints nothing and returns that token |
| TokenCache.Tokens.MintOnce | internal/operator/token.go:123-177 | the flight itself: lookup, mint while others run, guarded store; undisturbed, its token is served for two thirds of its life |
| TokenCache.CachedTokensAreFresh | internal/operator/token.go:118-224 | with singleflight: cached tokens are newer than every completed Forget, and whoever waits waits for a mint in flight |
| TokenCache.LeaderIsFresh | internal/operator/token.go:118-177 | the caller that leads a mint gets a token minted after its own call |
| TokenCache.JoinerAfterForgetGetsOlderToken | internal/operator/token.go:118-177 | a run in which a joiner gets a token older than a completed Forget |
| TokenCache.JoinerIsFreshIff | internal/operator/token.go:118-177 | the flight's epoch is that of the call or later iff nothing was forgotten between, and then the joiner's token is newer than every Forget before its call; where only its key was forgotten, only then |
| TokenCache.EpochsCount | internal/operator/token.go:138-224 | the epoch counts the Forgets so far, and a flight's epoch those before it began |
| CABundle.PemCertBlocks | internal/webhook/selfsigned/renewer.go:301-316 | exactly the certificate blocks, in order |
| CABundle.KeepCurrent | internal/webhook/selfsigned/renewer.go:266-285 | the first loop keeps live, unremoved blocks once each |
| CABundle.EnsureAdded | internal/webhook/selfsigned/renewer.go:286-295 | the second loop adds what is missing, whatever was removed or expired |
| CABundle.MergeCABundle | internal/webhook/selfsigned/renewer.go:266-295 | computes the merge |
| CABundle.MergeTrusts | internal/webhook/selfsigned/renewer.go:258-295 | trusted after: the live unremoved certificates and the added ones, without repeats and nothing else |
| CABundle.MergedIff | internal/webhook/selfsigned/renewer.go:266-332 | block by block: in the bundle after a merge iff added, or there before, not removed and not known to end by now; one that cannot be read is kept |
| CABundle.MergeIdempotent | internal/webhook/selfsigned/patcher.go:40-44 | merging a fresh CA again changes no byte |
| CABundle.MergedSetIdempotent | internal/webhook/selfsigned/patcher.go:40-44 | as sets, repeating any merge changes nothing |
| CABundle.MergesCommuteIff | internal/webhook/selfsigned/patcher.go:40-44 | two merges commute on the sets trusted iff neither drops what only the other adds |
| CABundle.CombineKeepsPeers | internal/webhook/selfsigned/renewer.go:340-342 | the bootstrap union drops nothing still valid |
| VWCUpdate.StampAll | internal/webhook/selfsigned/patcher.go:66-75 | every webhook entry gets the bundle; changed iff one differed |
| VWCUpdate.Try | internal/webhook/selfsigned/patcher.go:53-80 | one attempt is an atomic merge of what the server held at one moment, or changes nothing itself; undisturbed it succeeds |
| VWCUpdate.UpdateVWCCABundle | internal/webhook/selfsigned/patcher.go:49-93 | success is one atomic merge, whatever conflicts and faults came before; exactly the retriable errors are retried, to the last attempt, and every other error has its cause |
| VWCUpdate.UpdateTrusts | internal/webhook/selfsigned/patcher.go:49-81 | what a completed update makes every entry trust |
| CARotation.StepKeepsInv | internal/webhook/selfsigned/renewer.go:214-256 | every step of every pod keeps the rotation invariant |
| CARotation.RotationKeepsServingTrusted | internal/webhook/selfsigned/renewer.go:214-256 | in every interleaving of any number of pods whose landed trims retire no served CA: once the first stamp landed the unexpired CA being served stays trusted |
| CARotation.UpdatesAreAtomicMerges | internal/webhook/selfsigned/patcher.go:49-81 | in any run, what an update writes is the merge of the bundle it replaces |
| CARotation.TrimKeepsServingIff | internal/webhook/selfsigned/renewer.go:241-254 | a trim that lands leaves its pod trusted iff the retired CA is no longer served or has expired |
| CARotation.TrustedThroughoutIff | internal/webhook/selfsigned/renewer.go:214-256 | over whole runs: trusted in every state iff every trim on the way was of that kind |
| CARotation.RotationReplacesCa | internal/webhook/selfsigned/renewer.go:214-256 | a rotation whose reload comes in time ends with the new CA, and only it, trusted, on disk and served |
| CARotation.LostAnswerIsHealed | internal/webhook/selfsigned/patcher.go:49-81 | an update that landed without its answer is taken on at the next look at the bundle, without a second write |
| CARotation.ShortGuardBreaksAdmission | internal/webhook/selfsigned/renewer.go:241-245 | a run in which the guard ends before the reload and admission breaks |
| EvalSlots.CountersAreExact | internal/eval/semaphore.go:75-91 | in every interleaving in-flight counts the slots held and leaked counts the undrained orphans |
| EvalSlots.RejectionsAreCounted | internal/eval/semaphore.go:75-91 | and the rejection counter counts every call turned away |
| EvalSlots.RunningNeverExceedsLimit | internal/eval/eval.go:109-140 | with a fixed positive limit no more evaluations run than it allows, however many parents timed out |
| EvalSlots.ExpiryKeepsSlot | internal/eval/eval.go:173-225 | a timed-out parent frees nothing; the finishing goroutine does, panic or not |
| EvalSlots.DecidedAlone | internal/eval/semaphore.go:75-91 | let alone, a reservation is granted uncounted when the gate is off, granted and counted below the limit, and rejected and counted otherwise |
| EvalSlots.LostRaceReadsAgain | internal/eval/semaphore.go:80-90 | a lost compare-and-swap changes no counter and the reservation is decided anew |
| EvalSlots.EvaluatedAlone | internal/eval/eval.go:173-225 | an evaluation in time ends with its result received and its slot free |
| EvalSlots.TimedOutAlone | internal/eval/eval.go:207-225 | one that is given up on counts as leaked until its result is drained, and no longer |
| EvalSlots.QuiescentMeansZero | internal/eval/eval.go:173-225 | at rest both counters are zero |
| EvalSlots.Semaphore.SetMaxConcurrentEvals | internal/eval/semaphore.go:34-39 | negative limits switch the gate off |
| EvalSlots.Semaphore.Reserve | internal/eval/semaphore.go:75-91 | the last read decides: rejected at the cap, otherwise up by one from a value below it |
| EvalSlots.Semaphore.Release | internal/eval/semaphore.go:88-88 | a ticket gives back one slot at most |
| CrdWatch.EngagesOnceAndKeepsTrying | internal/operator/crdwatcher.go:128-198 | at most one call in flight, at most one success, and a retry pending or running while unengaged below the cap |
| CrdWatch.QuietRunsEnd | internal/operator/crdwatcher.go:128-198 | once events stop only finitely much happens |
| CrdWatch.CallsAfterLastEvent | internal/operator/crdwatcher.go:128-198 | the calls among it are bounded by the goroutines under way and the tries left |
| CrdWatch.CallsAfterCancel | internal/operator/crdwatcher.go:162-174 | once the operator is stopped no timer starts another try |
| CrdWatch.RestMeansDecided | internal/operator/crdwatcher.go:128-198 | when nothing is left to do after an event, a call has succeeded or the cap is reached |
| CrdWatch.SixthFailureGivesUp | internal/operator/crdwatcher.go:144-160 | a run of six failures, after which nothing is scheduled |
| CrdWatch.CrdWatchBackoff | internal/operator/crdwatcher.go:40-46 | the initial delay times a power of two |
| CrdWatch.ChainWaits | internal/operator/crdwatcher.go:24-46 | a chain of failures waits 31 initial delays in all |
| CrdWatch.KeepFailing | internal/operator/crdwatcher.go:128-198 | a chain of failing attempts through the shared state: six tries, 31 initial delays, then it gives up |
| CrdWatch.RetryState.Check | internal/operator/crdwatcher.go:182-198 | resets the budget of a kind not engaged, and touches no other kind |
| CrdWatch.RetryState.Begin | internal/operator/crdwatcher.go:135-142 | single flight per kind |
| CrdWatch.RetryState.Fail | internal/operator/crdwatcher.go:144-160 | counts the failure and asks for a retry iff below the cap |
| CrdWatch.RetryState.Succeed | internal/operator/crdwatcher.go:176-180 | engaged for good, budget clean |

## Left out

- S3Backend: uploads and streaming are foreign, and its Put never re-stamps an existing object, so the grace theorem does not apply to it.
- Kubernetes plumbing (clients, informers, events, metrics, tracing, finalizer messages, condition wording): the API server appears as a map or a versioned object whose calls can fail.
- gzip and tar framing, SHA-256, X.509 and PEM text: an archive is a list of entries, a digest stands for the bytes it is taken of, a PEM text is a list of blocks with expiry times.
- go-jsonnet: an evaluation is a step that returns or panics.
- HTTP handlers, MCP server, file-system importer, command line, URL guard, startup check, health latch, rate limiter, supervisor backoff: plumbing or one-branch facts.
- Importer.InMemoryImporter.Import: calls run one after another; the concurrent use of the sync.Map tables is not modelled.
- Extraction.ExtractTarballWithLimits: the decompressed-stream cap acts on bytes the list of members does not show; a tripped cap is a stream that ends in an error, and `CappedReader` proves when that happens.
- RoundTrip.ExtractOfPublishIff: the stream is assumed to fit the decompressed cap, since tar framing is not modelled.
- RoundTrip.PreHashInjective: file names and contents are NUL-free on both sides; `AmbiguousIff` settles the rest.
- Admission.Validate: reflect.DeepEqual tells nil from empty slices and maps, which only leads to one more validation; here both are the empty value. Warnings are not modelled.
- Cascade.CascadeEnds: a failed reconcile that is retried with backoff counts as no pass, and verdicts are fresh.
- OperatorCaches.CycleVerdict: the epoch counter is unbounded, as in `EpochCache`; int64 wrap-around is not modelled.
- EvalSlots.Semaphore.Reserve: other goroutines are a list of counter values; the loop ends once they stop interfering. The interleaved version is the protocol of the same module.
- CARotation.RotationKeepsServingTrusted: all writers of the webhook configuration go through the modelled update; a manual edit that drops a CA is not modelled.
- Publication.PointerAlwaysFetchable: Sweep is a step that touches no visible tarball, as `ArtifactStore.Store.Sweep` proves.
- Publisher.Publisher.PublishEntries: entries and revision come from the caller, so the single entry of the rendered mode and the unknown-output error are not branches of it.
- Reconciler.Reconciler.ReconcileSpec: the tenant client, rate limit, source fetch, evaluation and the generation re-read are outcomes of a pass; what they do inside is modelled elsewhere or left out.
- RetentionRuns.PruneHonoursGrace: the file system's mtime granularity appears as the demand that a stamp be newer than all other mtimes on disk.
- EntryLabel.RunsAgreeIff: entryFile is a clean relative path that names one of the snippet's files; namespace and name are plain elements, as Kubernetes names are.
