# kasha: what its collectors, replication and encodings guarantee

kasha keeps a Nix binary cache in two places, a "box" on the local network and a
remote bucket, and collects garbage on both sides without locks. This project
models the parts of that which have to be right for nobody to lose a build: the
retention selector, both mark-and-sweep collectors, mirror-down and mirror-up
with the markers that protect a push the box may hold the only copy of, the
in-memory index of the box's store, and the encodings that decide what a
narinfo or a manifest says.

`dafny verify dfyconfig.toml` checks everything.

## How it is laid out

| files | what they model |
|---|---|
| `Retention`, `RetentionLaws`, `Schedules` | the selector as it runs, the rule it computes, and the algebra the sweeps rest on |
| `FanOut`, `PooledSweep` | the worker pool as a state machine over every schedule, and the sweep's reads made through it |
| `Keys`, `Objects`, `Remote` | object names, stored objects, and the object store whose every request may fail |
| `RemoteGc`, `RemoteSweep`, `SweepRace` | the remote sweep: as a function of the bucket, as it runs, and interleaved with publishers |
| `BoxStore`, `Ingest`, `BoxGc`, `IndexRace`, `SweepStamp` | the box's files, markers and index; its write and read endpoints; its sweep; the index under interleaving; the sweep stamp |
| `BoxRace`, `BoxRaceLimits`, `BoxRaceAlone` | the box sweep file by file with pushes landing inside it: what is safe, the exact limits, and that alone it is the sweep of one step |
| `Mirror`, `MirrorUp`, `ReplicaRun`, `ReplicaLoss`, `UpRace` | mirror-down, mirror-up, whole runs of pushes, replication, sweeps and remote changes, the runs in which something is lost, and mirror-up beside a remote sweep |
| `Json`, `JsonGrammar`, `ManifestHead`, `Listing` | manifests as text, the grammar of that text, the truncated header reader, and the `ls` preview built on it |
| `NarInfo`, `ContentAddress`, `Nix32`, `Sorting` | narinfo text, signatures, content addresses, base32, and the sorts |
| `Sets`, `Wrappers` | counting lemmas and result types |

Classes (`Store`, `RemoteCache`, `Replica`) carry the state the source updates in
place; their methods are proved against relations and functions on values, and
the laws are proved about those. Protocols are state machines. In `FanOut`,
`SweepRace`, `UpRace`, `IndexRace`, `SweepStamp` and the `BoxRace` files a step is
one request or one file operation; in `ReplicaRun` and `ReplicaLoss` it is one push
or one whole pass of the replica or the sweep. Requests, writes and removals may fail
at any time; ghost counters (`faults`) on the remote and the store record that one
did, so that a method's failure can be traced to it or to what it read.

Where a method and its specification use one definition (a key's class, the grace
window, the sources, a line's words), a lemma says what it is in terms of raw fields,
literal texts and times (`ClassSpelled`, `YoungSpelled`, `MeaningSpelled` and so on),
and the main operations' contracts say it in those terms too.

## Hypotheses

- **Time** is an integer; `duration_since` of a future time is zero, as the
  source reads its error. Timestamps parse or do not; the parser is a parameter.
- **Time ties.** Equal times in one group are broken by reading order, and that
  is the completion order of concurrent reads. `Schedules.OrderFreeIff` gives
  the exact condition under which the order cannot matter, and
  `Schedules.TiesAgreeIff` a form of it that counts.
- **Well-keyed objects.** Mirror-down stores a manifest under the names in its
  body and a narinfo under the hash in its body. `ManifestsKeyed`, `InfosKeyed`
  and `WellKeyed` say the remote and the upstreams agree with their keys; the
  lemmas that need this say so.
- **Marker names** `flake--gen` do not determine the generation. `DistinctMarkers`
  is required where it is needed; `Keys.MarkerInjective` gives names for which it
  holds and `ReplicaLoss.MarkersDecide` shows that it is exactly what keeps only
  copies safe.
- **Pushes in order.** A client pushes a NAR before the narinfo that names it. The
  endpoint does not check it, so results about what the box can serve during pushes
  say so (`ReplicaRun.Paired`).
- **Whole passes.** In `ReplicaRun` a mirror-down, a mirror-up and a box sweep are one
  step each, although the server takes pushes on other threads meanwhile. For sweeps
  `BoxRace` drops this: it interleaves them with pushes, file by file, and
  `BoxRaceLimits` says exactly what then is safe. For mirror-up `UpRace` interleaves
  the remote sweep. Pushes inside a mirror-down are not covered.
- **One writer per file name**, atomic file replacement, and a push stored and
  marked in one step.
- **The race with publishers** assumes that every writer of a wanted key writes
  the same object (names are content hashes), and that each object is fresh (any
  copy the sweep can list was put within the grace window) or accounted for by a
  manifest the sweep retains. `SweepRace.Protected` spells this out.
- **Cryptography.** The hash is an arbitrary function; the content-address result
  is "equal, or these very texts collide". Signatures are an arbitrary check with
  unforgeability as a hypothesis. What either binds is a text. Who signs a narinfo
  whose names hold none of the separators (`NarInfo.Clean`) binds its path, hash and
  size for every reader, and the list of its references for readers who find no
  `,/nix/store/` inside one (`NarInfo.SignedBinds`); likewise content addresses and
  `:` (`ContentAddress.ContentBound`). `ContentAddress.RunTogether` and
  `ContentAddress.ColonAmbiguous` are the readings beyond that.

## Where the code falls short of its own description

- The comment above the box policy (src/retention.rs:45-46) says what the box
  retains is within what the remote retains. On one common set of generations
  that is false for the remote defaults, because the box never applies
  staleness. `RetentionLaws.BoxWithinIff` gives the policies for which it holds,
  and `RetentionLaws.IntersectionLaw` what is true instead: mirroring first and
  then applying the box's rule keeps exactly what both keep.
- A group that goes stale is swept down to its young members; if its branch then
  publishes again, the older members it would have kept are gone.
  `RetentionLaws.EarlySweepHarmlessIff` says exactly for which policies sweeping
  early is invisible.
- Two generations whose marker names coincide share one guard. Over all runs on a
  set of names the box keeps every only copy if and only if no two of them share a
  marker (`ReplicaLoss.MarkersDecide`); `ReplicaLoss.SharedMarkerLoses` is the run
  that loses one.
- A push of different bytes under a generation already marked mirrored is not
  protected: mirror-up skips it and mirror-down may drop it. `ReplicaRun.PushSafeIff`
  is the exact condition, `ReplicaLoss.RepushCanBeLost` a run that gets there.
- A sync cycle that takes exactly the sweep interval can stamp over another
  process's sweep stamp and so never prune for it
  (`SweepStamp.LongCycleSwallowsStamp`); and a foreign sweep that ends between the
  opening scan and the start of the sync loop is never noticed, because the loop
  takes whatever stamp it finds for its own (`SweepStamp.BootSwallowsStamp`).
  `SweepStamp.HandshakeIff`: runs whose cycles stay below a bound are sound if and
  only if the bound is at most the interval and no foreign deletion falls into
  booting (or the bound is zero, and no cycle ever starts).
- A manifest that repeats a header field behind `closure` is listed by `ls` but is
  garbage to the sweep. `ManifestHead.PrintedExactIff`: where no list or object
  precedes `closure`, the two differ if and only if a header field repeats and the
  fields before `closure` make an acceptable header by themselves.
- The references of a signed narinfo are not bound as a list: run together as
  `a,/nix/store/b` they still carry the signature (`ContentAddress.RunTogether`).
- The comment on top of the collectors (src/gc.rs:3-9) says the grace window makes
  the sweeps safe against pushes. A push of a path the box already has, old and in no
  closure the sweep has marked, is the case it does not cover: the client uploads only
  the manifest, and the sweep goes on to delete the narinfo
  (`BoxRaceLimits.PushInsideSweepLost`). `BoxRaceLimits.InfoSafeIff` and `NarSafeIff`
  are the exact conditions, file by file. On the remote the same happens to an upload
  mirror-up skips (`UpRace.SkippedLost`).
- The sweep removes a narinfo's file and then its index entry
  (src/store.rs:246-253). A push of that narinfo in between may lose its new entry, so
  that the file is on disk unlisted. `BoxRaceLimits.EntrySafeIff`: exactly that.
- A delete reply that cannot be read counts as success (src/remote.rs:338-346).
  `Remote.ReportTrueIff`: the keys a sweep reports as deleted are gone, whatever the
  store did, if and only if every reply could be read.

## Model

| member | source | states |
|---|---|---|
| `Retention.Verdicts` | src/retention.rs:87-127 | the grouping, in-place sorting, ranking loop, with groups visited in any order, gives every generation the verdict of the declarative rule: by the rule of branch `main` for that branch and by the other one for the rest, from its age, the newer generations of its flake, branch and attr, and how far its group is behind its tier |
| `Retention.SortNewestFirst` | src/retention.rs:107-108 | the in-place sort yields a permutation of the group, newest first, ties in input order |
| `Retention.JudgeGroup` | src/retention.rs:106-125 | one group's pass writes each member's slot once with the declared verdict and no other slot |
| `Retention.VerdictInGroup` | src/retention.rs:110-124 | the verdict computed from a position in the sorted group and the tier's newest time is the declared one |
| `Retention.RetainIds` | src/retention.rs:130-136 | the ids read off the verdicts are those of the generations that are young enough, or among the newest of a group not left behind |
| `Retention.CountsOnly` | src/retention.rs:102-124 | without ages and staleness a generation is kept iff fewer than the number of its tier come before it in its group |
| `Retention.TierShared` | src/retention.rs:90-105 | generations of one flake share a tier iff both or neither are of branch `main`, and a group iff flake, branch and attr agree |
| `RetentionLaws.PrefixKept` | src/retention.rs:110-124 | in a group, everything newer than a kept generation is kept |
| `RetentionLaws.KeptPrefix` | src/retention.rs:110-124 | a group keeps exactly its newest max(young, N unless stale) generations |
| `RetentionLaws.TierNewestKept` | src/retention.rs:95-124 | with a nonzero count each tier keeps a generation of its newest time, at every time |
| `RetentionLaws.Stability` | src/retention.rs:87-136 | deleting any dropped generations changes no verdict, staleness included |
| `RetentionLaws.PathIndependence` | src/retention.rs:87-136 | a sweep at an earlier time leaves no trace in the result of a later one |
| `RetentionLaws.SweepRun` | src/retention.rs:87-136 | any number of partial sweeps and then a whole one: the last one alone decides |
| `RetentionLaws.EarlySweepHarmlessIff` | src/retention.rs:111-124 | sweeping before new generations arrive is harmless for every history iff staleness is off or no count exceeds one |
| `RetentionLaws.EarlySweepCosts` | src/retention.rs:111-124 | the revived group that loses its older member otherwise |
| `RetentionLaws.IntersectionLaw` | src/retention.rs:45-59 | a count-only rule applied to what another policy left keeps exactly what both keep |
| `RetentionLaws.BoxWithinIff` | src/retention.rs:45-59 | the box's kept set is within the policy's on every input iff the policy never goes stale and counts at least as many; the remote default does not qualify |
| `RetentionLaws.PolicyMonotone` | src/retention.rs:108-124 | raising counts or ages, or raising or disabling staleness, never drops a kept generation |
| `RetentionLaws.Locality` | src/retention.rs:87-127 | generations of other flakes or of the other tier change no verdict |
| `Schedules.OrderFreeIff` | src/retention.rs:107-108 | the retained set is the same for every reading order iff no tie of one group straddles the line between kept and dropped |
| `Schedules.TiesAgreeIff` | src/retention.rs:107-124 | which is so iff no group keeps more than the generations newer than some tied ones but fewer than those and the tied ones together |
| `Schedules.RetainReordered` | src/retention.rs:87-136 | the retained set survives a reordering of its input when ties agree |
| `Schedules.DistinctTimesOrderFree` | src/gc.rs:163-184 | distinct times in each group make the retained set independent of the reading order |
| `FanOut.FanOutResult` | src/remote.rs:20-63 | every schedule: success iff the function succeeds on every item, and then the results are all of them, each item visited once |
| `FanOut.RunInv` | src/remote.rs:34-48 | in every reachable state each index below the counter is claimed by exactly one worker |
| `FanOut.Progress` | src/remote.rs:34-48 | no deadlock, and each step uses up a bounded amount of work |
| `FanOut.WorkersSpelled` | src/remote.rs:20-36 | as many workers as items, and never more than 32 |
| `PooledSweep.PooledKill` | src/gc.rs:163-255 | whatever the schedules of the two pools, the sweep arrives at the generations of some reading order of the bucket's manifests and condemns exactly that order's kill set |
| `PooledSweep.SchedulesAgree` | src/gc.rs:163-255 | two complete passes under any two schedules condemn the same keys, unless equal times of one group straddle the cut |
| `PooledSweep.DistinctTimesAgree` | src/gc.rs:163-255 | with distinct times in each group of the bucket's manifests the schedule never matters |
| `PooledSweep.ReadsSucceedIff` | src/gc.rs:163-172 | the pool of manifest reads succeeds, under every schedule alike, iff no read is refused |
| `Keys.ManifestKeyRoundTrip` | src/mirror.rs:270-274 | building a manifest key and parsing it back give the same names, and nothing else parses to them |
| `Keys.ClassifyInfo` | src/gc.rs:142-153 | exactly the key of a narinfo is classified as that narinfo |
| `Keys.ClassSpelled` | src/gc.rs:138-153 | letter for letter: a slash-free name in `.narinfo` is a narinfo, one in `.narinfo` with a slash is foreign, other names go by `nar/` and `roots/`, and everything else is foreign |
| `Keys.ComponentSpelled` | src/store.rs:24-29 | a path component is not empty, does not begin with a dot, and holds no slash and no two dots in a row |
| `Keys.MarkerInjective` | src/store.rs:197-203 | marker names determine the generation for flakes without `--` that do not end in `-` |
| `Keys.StoreHashOfBase` | src/narinfo.rs:244-247 | the hash part of `dir/base` is the first 32 characters of `base`, all of it if shorter |
| `Objects.HashesSpelled` | src/gc.rs:77-84 | a manifest's hashes are the first 32 characters of what each of its paths holds behind its last slash |
| `Remote.RemoteCache.List` | src/remote.rs:198-225 | a listing that succeeds holds each key under the prefix once, with its time |
| `Remote.RemoteCache.Put` | src/remote.rs:288-296 | a put changes one key, and a failed put may still have taken effect |
| `Remote.RemoteCache.DeleteMany` | src/remote.rs:308-350 | batched deletes remove only listed keys; if it succeeds, all of each batch whose reply could be read |
| `Remote.ReportTrueIff` | src/remote.rs:308-350 | for every set of keys the replies allow to be gone, all the reported ones are, iff every reply could be read |
| `Remote.BatchesSpelled` | src/remote.rs:308-317 | the requests hold the keys in their order, a thousand each and the rest in the last |
| `RemoteSweep.Conservation` | src/gc.rs:228-259 | the bucket is the held keys, the young ones skipped and the deleted ones, disjoint and counted by the report; what is held or young is left as it was |
| `RemoteGc.RetainedStayServable` | src/gc.rs:192-259 | after any part of the sweep a retained manifest and its closure's narinfos are there, and a path that could be fetched still can, from the same NAR, iff that key was not deleted, which cannot happen to a NAR |
| `RemoteGc.ResumedSweep` | src/gc.rs:228-259 | after any partial sweep a later sweep deletes exactly the remainder of what it would have deleted |
| `RemoteGc.RerunDeletesNothing` | src/gc.rs:228-259 | a rerun after a complete sweep deletes nothing |
| `RemoteGc.SweepsConverge` | src/gc.rs:228-259 | any number of interrupted sweeps and then a complete one end in the bucket of the complete one alone |
| `RemoteGc.CrashConvergence` | src/gc.rs:163-259 | the same when the rerun reads the manifests in any other order |
| `RemoteGc.ScheduleFree` | src/gc.rs:163-184 | the schedule of the manifest reads does not change what is deleted when ties agree |
| `RemoteGc.YoungSpelled` | src/gc.rs:228-233 | young is: with a positive grace window, less than that before now, times in the future included |
| `RemoteSweep.Sweep` | src/gc.rs:129-268 | the sweep as it runs: on success exactly the kill list is gone, as far as the replies tell, the report is exact and accounts for every key; on failure only part of it. Whatever fails, keys that are no narinfo and under neither `nar/` nor `roots/`, kept manifests, listed narinfos, the NARs these name and whatever is within the grace window stay as they were; a whole sweep leaves nothing else. It fails only when a request does or a marked narinfo is not text, and then always |
| `RemoteSweep.KillIsNotSpared` | src/gc.rs:138-259 | the kill list is every key but these, letter for letter |
| `RemoteSweep.SortListing` | src/gc.rs:138-153 | the listing is split by kind, each entry once, foreign keys dropped |
| `RemoteSweep.ReadRoots` | src/gc.rs:163-183 | every object under `roots/` is read once, in any completion order; those that parse become generations in that order; it fails only when a request does (the pool itself is in `PooledSweep`) |
| `RemoteSweep.MarkClosures` | src/gc.rs:192-197 | the mark set is the union of the retained closures' hashes |
| `RemoteSweep.ReadInfos` | src/gc.rs:199-221 | the live set is the URLs of the marked, listed narinfos |
| `RemoteSweep.KillListExact` | src/gc.rs:230-255 | the collected list has no repeats and holds exactly what is neither held nor young |
| `RemoteSweep.SkipsExact` | src/gc.rs:230-255 | the young counter is the number of entries that are young and not held |
| `SweepRace.SweepSparesGeneration` | src/gc.rs:7-9 | every interleaving with publishers: a generation whose objects are fresh or accounted for is complete from then on, wherever the sweep is or stopped |
| `SweepRace.GenerationUsable` | src/gc.rs:136-259 | such a generation is then listed and every path of its closure can be fetched |
| `SweepRace.ProtectedStays` | src/gc.rs:228-259 | a protected object once put stays |
| `SweepRace.SweepAlone` | src/gc.rs:136-259 | without publishers every run of the interleaving machine deletes part of the kill list for some reading order, and nothing else |
| `BoxStore.Store.Open` | src/store.rs:32-43 | opening fails iff some narinfo file is not text; else it takes the disk as it is and the index is what a scan finds |
| `BoxStore.Store.Scan` | src/store.rs:48-67 | a scan that succeeds leaves the index of the readable narinfo files; a failed one leaves the index alone |
| `BoxStore.Store.PutNarinfo` | src/store.rs:90-98 | stores and indexes one narinfo under its own hash; an exact index stays exact |
| `BoxStore.Store.PutManifest` | src/store.rs:119-124 | files a manifest under its own names and changes nothing else |
| `BoxStore.Store.ManifestFiles` | src/store.rs:127-152 | each manifest file once |
| `BoxStore.Store.RemoveManifest` | src/store.rs:231-244 | removes the manifest with its two markers |
| `BoxStore.Store.RemoveNarinfo` | src/store.rs:246-253 | removes the file with its index entry; exactness and cover are kept |
| `BoxStore.Store.PruneIndex` | src/store.rs:255-266 | drops exactly the entries without a file, returns how many, and makes a covering index exact |
| `BoxStore.ForeignDeleteCovers` | src/store.rs:255-266 | deletions by another process leave the index a cover of the disk |
| `BoxStore.Gaps` | src/store.rs:166-175 | the gaps are the closure paths whose hash is not indexed |
| `BoxStore.GapsJoin` | src/store.rs:166-175 | each missing path is a gap as often as it is listed, in the closure's order |
| `Ingest.Put` | src/server.rs:602-653 | a push fails only by a check of the endpoint or a failed write, and then changes nothing; an accepted one passed its checks and stored exactly its object, manifests with the local-origin marker |
| `Ingest.TargetSpelled` | src/server.rs:587-600 | which request paths name a narinfo, which a NAR, which a manifest, letter for letter |
| `Ingest.ServedSpelled` | src/server.rs:587-600 | a GET finds exactly the file its path names, letter for letter, and nothing under a name that is no path component |
| `Ingest.PushThenGet` | src/server.rs:587-653 | what was pushed under a path is served under it, and every other path serves what it did |
| `Ingest.PushKeepsOrder` | src/server.rs:602-653 | a push keeps manifests under their names, narinfo names safe, and the index exact or covering |
| `IndexRace.NeverLost` | src/store.rs:90-98 | however writes, insertions, prunes and foreign deletes interleave, no narinfo on disk drops out of the index |
| `IndexRace.RebuildLoses` | src/store.rs:255-266 | a rebuild whose read and swap straddle a write loses its entry |
| `IndexRace.LostForGood` | src/store.rs:255-266 | and nothing but a new write or a delete ends that |
| `BoxGc.FileIdInjective` | src/gc.rs:56-61 | the ids the box's retention works with tell its manifests apart |
| `BoxGc.KeepCounts` | src/gc.rs:62-75 | so the number of ids kept is the number of manifests kept |
| `BoxGc.NewestSpelled` | src/gc.rs:62-70 | the box keeps by count the three newest of each attr of `main` and the newest of each attr of other branches |
| `BoxGc.BoxSweep` | src/gc.rs:52-124 | the box sweep as it runs: an empty report and nothing done without manifests; on success exactly the unmarked old files are gone and the report is exact; it fails only by a failed removal or an unsafe name, having deleted part of them. Whatever fails, files within the grace window, hidden NAR files, narinfos a kept manifest lists and the NARs their index entries name stay as they were, where kept means unmirrored local, or among the three newest of `main` and the newest of any other branch; on success nothing else is left |
| `BoxGc.ReadGens` | src/gc.rs:53-61 | the first pass yields the parseable manifests' headers |
| `BoxGc.AddGuarded` | src/gc.rs:71-75 | every unmirrored local push is added to what the count rule keeps |
| `BoxGc.MarkKept` | src/gc.rs:77-84 | the marks are the hashes of the kept closures |
| `BoxGc.SweepInfos` | src/gc.rs:95-105 | deletes exactly the unmarked narinfos past the grace window and counts the young ones |
| `BoxGc.SweepNars` | src/gc.rs:106-116 | the same for NAR files not live |
| `BoxGc.SweptSpelled` | src/gc.rs:95-116 | any part of the sweep leaves these files alone, and the whole of it only these |
| `BoxGc.KeptStayServed` | src/gc.rs:77-116 | a closure path of a kept manifest the box could serve it still can, by the same narinfo, after any part of the sweep |
| `BoxGc.SweepSparesGuarded` | src/gc.rs:49-75 | an unmirrored local push survives any box sweep with its markers and everything that serves its closure |
| `BoxGc.SweepKeepsIndex` | src/gc.rs:95-116 | a sweep keeps the index exact or covering, and the store well-keyed |
| `BoxRace.PathStays` | src/gc.rs:52-124 | every interleaving of a sweep with pushes: a path whose narinfo is marked or young, and whose NAR is live or young, when the sweep looks at the file, stays from wherever it is there |
| `BoxRace.PushStaysServed` | src/gc.rs:52-124 | so a push landing anywhere in a sweep stays, guarded, with every such path of its closure served |
| `BoxRace.KeptStaysServed` | src/gc.rs:77-116 | a manifest the sweep finds and keeps strands nothing, whatever lands beside it: each path served and indexed at the start is served by the same narinfo in every state |
| `BoxRace.GuardedStaysServed` | src/gc.rs:49-75 | in particular an unmirrored local push that was there when the sweep began |
| `BoxRaceLimits.InfoSafeIff` | src/gc.rs:95-105 | a narinfo the sweep has yet to look at is safe in every continuation iff it is marked or young |
| `BoxRaceLimits.NarSafeIff` | src/gc.rs:106-116 | a NAR file likewise iff it is live, young or hidden |
| `BoxRaceLimits.PushInsideSweepLost` | src/gc.rs:3-9 | a run in which a push of a path already on the box lands inside a sweep, and is then guarded and no longer served |
| `BoxRaceLimits.EntrySafeIff` | src/store.rs:246-253 | a narinfo written while the sweep deletes keeps its index entry in every continuation, unless the sweep has removed its file and not yet its entry |
| `BoxRaceAlone.SweepAlone` | src/gc.rs:52-124 | with nobody else about, every run of the machine does what a sweep in one step, complete or cut off, may do |
| `SweepStamp.HandshakeIff` | src/main.rs:408-459 | over all runs whose cycles stay below a bound: right after every check with no foreign sweep under way the index is exact, iff booting is quiet and the bound is at most the sweep interval (or no cycle can start) |
| `SweepStamp.HandshakeSound` | src/main.rs:408-459 | the sufficient half, step by step |
| `SweepStamp.CheckCleans` | src/main.rs:412-417 | a check that sees a foreign stamp leaves no stale entry |
| `SweepStamp.LongCycleSwallowsStamp` | src/main.rs:441-452 | a run whose longest cycle lasts exactly the interval swallows a foreign stamp |
| `SweepStamp.BootSwallowsStamp` | src/main.rs:408-417 | a foreign sweep between the opening scan and the start of the loop goes unnoticed |
| `Mirror.Replica.Down` | src/mirror.rs:64-143 | whatever fails, only additions, unguarded drops and trusted narinfos happened; on success every valid manifest the remote lists is on the box and every one left is listed or guarded, each remaining gap is a recent miss or was tried and failed once, gaps are counted per flake; it fails only by a fault or an unsafe name, and always if a remote key spells one |
| `Mirror.Replica.Discover` | src/mirror.rs:66-88 | when it succeeds every valid manifest of the listing is on the box, existing ones untouched; it fails only by a fault or a name the store refuses |
| `Mirror.Replica.Drop` | src/mirror.rs:90-102 | manifests not listed are dropped unless guarded; guards of the rest are unchanged; it fails only by an unsafe name |
| `Mirror.Replica.FetchPath` | src/mirror.rs:148-194 | yes: the pair came in from the remote, or if that does not offer it from the first upstream that does, trusted, and the box serves it; no: neither the remote nor any upstream has a readable trusted narinfo with its NAR; an error: a request or write failed or the store refuses the pair, and nothing was indexed |
| `Mirror.Replica.FillGaps` | src/mirror.rs:104-141 | each gap is a recent miss or tried, once; the counts are the gaps on the final index; misses are remembered and expire |
| `Mirror.DownSparesGuarded` | src/mirror.rs:90-102 | whatever mirror-down did, an unmirrored local push is there, guarded, and as servable as before |
| `Mirror.MissingAmongGaps` | src/mirror.rs:110-137 | what is still missing among the gaps found earlier is what is missing at all |
| `MirrorUp.PushPath` | src/mirror.rs:238-260 | the NAR goes before the narinfo: at every point each remote narinfo has its NAR; it fails only when a request does or a local file is missing or unreadable |
| `MirrorUp.PushGen` | src/mirror.rs:231-267 | the marker is set iff it succeeds, and then all closure narinfos and the identical manifest are on the remote; it fails only when a request does, or for a gap, a missing file or an unsafe name; every bucket on the way is free of dangling narinfos |
| `MirrorUp.Up` | src/mirror.rs:209-229 | each new marker stands for a completed push; the result is the number of parseable local pushes still unmirrored, zero unless a request failed or a push is not all there |
| `UpRace.MarkedIsComplete` | src/mirror.rs:231-267 | beside a remote sweep: a generation marked mirrored is complete from then on, if each of its objects, skipped uploads included, is fresh or accounted for by a retained manifest |
| `UpRace.SkippedLost` | src/mirror.rs:240-242 | a run in which an old narinfo is skipped, the generation marked, and the narinfo then swept |
| `ReplicaRun.StepKeepsStore` | src/server.rs:602-653 | every step, pushes included, keeps manifests under their own names and the index a cover of the disk |
| `ReplicaRun.PushIsStep` | src/server.rs:602-653 | whatever the write endpoint stores is a push step of the runs below, with its narinfo checked |
| `ReplicaRun.TrustInvariant` | src/server.rs:614-620 | over every run each narinfo on the box, and each one served, has passed the trust check |
| `ReplicaRun.GuardedUntouched` | src/mirror.rs:90-102 | no mirror-down, sweep or prune takes away an unmirrored local push, its guard, or what serves its closure |
| `ReplicaRun.UpSecures` | src/mirror.rs:209-229 | a mirror-up that lifts the guard has put this very manifest and its closure's narinfos on the remote, with their NARs unless narinfos dangled there before |
| `ReplicaRun.OnlyCopyServed` | src/mirror.rs:90-102 | over every run, an unmarked push stays on the box, guarded, and every path of it the box could serve stays served, until a mirror-up has put that manifest and its whole closure on the remote |
| `ReplicaRun.OnlyCopySafe` | src/mirror.rs:90-102 | so its bytes are on the box or the remote has held them |
| `ReplicaRun.PushSafeIff` | src/server.rs:631-651 | a push can never be lost iff its generation is not already marked mirrored, or the remote has held the same manifest |
| `ReplicaRun.UnguardedCanBeLost` | src/mirror.rs:90-102 | an unguarded manifest the remote never held is lost by an empty listing and one mirror-down |
| `ReplicaRun.MarkersCollide` | src/store.rs:197-203 | two different generations with one marker name |
| `ReplicaLoss.MarkersDecide` | src/store.rs:197-203 | over all runs on a set of names, every guarded push is kept until the remote has held it, iff no two of the names share a marker |
| `ReplicaLoss.SharedMarkerLoses` | src/store.rs:197-203 | two names with one marker: a run from an empty box and remote in which one is mirrored and the other lost uncopied |
| `ReplicaLoss.RepushCanBeLost` | src/server.rs:631-651 | for every name and any two texts, a run that pushes one, mirrors it, pushes the other and can lose it |
| `ReplicaRun.PlainFlakesDistinct` | src/store.rs:197-203 | plain flake names rule shared markers out |
| `Json.DocumentOf` | src/manifest.rs:10-22 | every object printed, nested values included, is read back as it was |
| `Json.PrefixDocument` | src/manifest.rs:81-89 | if a document and a prefix of it both parse, they say the same, by the same object |
| `Json.MembersGoOn` | src/manifest.rs:83-87 | closing an object at a comma reads exactly the members before it |
| `JsonGrammar.DocumentIs` | src/manifest.rs:25-26 | the reader takes a text for an object, nested values, blanks and escapes included, exactly when the grammar does |
| `ManifestHead.PrefixSound` | src/manifest.rs:75-89 | from any prefix of any object, in any field order, the reader finds what it finds in the whole, or nothing; where no header field repeats that is the header of the full parse |
| `ManifestHead.PrintedExactIff` | src/manifest.rs:77-80 | on any object with no list or object before its first `closure`, the reader differs from the full parse iff a header field repeats and the fields before `closure` make an acceptable header |
| `ManifestHead.PrintedPrefix` | src/manifest.rs:75-89 | what the reader gets from each prefix of such an object |
| `ManifestHead.WholeExactIff` | src/manifest.rs:77-80 | on any whole object, in any layout, they agree iff no header field repeats or the cut text is unacceptable |
| `ManifestHead.RepeatedFieldMissed` | src/manifest.rs:81-89 | an emitted manifest followed by a second `flake`: the reader accepts what the parse rejects |
| `ManifestHead.MembersCutFree` | src/manifest.rs:82-86 | the cut mark cannot begin inside the fields before `closure`, whatever their names and texts, nor across their ends |
| `ManifestHead.FirstCut` | src/manifest.rs:83-86 | in such an object and every prefix of it the first cut mark is the one before `closure` |
| `ManifestHead.PrefixAgrees` | src/manifest.rs:76-89 | for emitted manifests any prefix reaching the closure yields the header of the whole, any shorter one nothing |
| `ManifestHead.ShortPrefix` | src/manifest.rs:79-80 | no proper prefix of a printed object parses |
| `ManifestHead.ManifestRoundTrip` | src/manifest.rs:25-29 | what emit writes the sweep reads back, header and closure |
| `ManifestHead.ManifestSpelled` | src/manifest.rs:10-55 | a text is accepted as a manifest iff its document has each header field once and of its type, version 3, no empty name, a good timestamp, and one `closure`, a list of texts that is not empty and holds only paths under `/nix/store` |
| `ManifestHead.ListedHeadExact` | src/gc.rs:287-294 | the ranged read with its fallback finds what the reader finds in the whole object |
| `ManifestHead.ListedSpelled` | src/manifest.rs:75-97 | where no header field repeats, `ls` shows a header iff the document says it and it is good |
| `ManifestHead.ListedUnlessClosure` | src/gc.rs:278-280 | the sweep accepts a document iff `ls` shows a verdict for it, no header field repeats and its closure is sound; the headers then agree |
| `Listing.List` | src/gc.rs:281-321 | one line per header in reading order with its declared verdict, then the garbage |
| `Listing.HeadGenIsToGen` | src/gc.rs:295-306 | `ls` judges a manifest by the same generation the sweep does: the header's flake, branch and attr, and the time of its timestamp |
| `Listing.SweptWithinListed` | src/gc.rs:276-280 | the sweep judges a subsequence of what `ls` judges |
| `Listing.ListingPredictsIff` | src/main.rs:123-124 | the listing predicts what the sweep keeps iff no manifest shown as kept is one the sweep rejects |
| `NarInfo.Parse` | src/narinfo.rs:55-94 | a narinfo is read exactly as its lines say, field by field: of a repeated field the last line, signatures added up, references as the words between white space, sizes as decimal numbers of 64 bits; it fails iff no narinfo is what they say, because of a malformed line or size, a missing field or a path outside the store |
| `NarInfo.MeaningSpelled` | src/narinfo.rs:55-94 | what the lines say, in terms of how lines begin and go on |
| `NarInfo.WordsIff` | src/narinfo.rs:75-75 | the words of a text are those it is made of by putting white space around them and between any two |
| `NarInfo.ReferencesAdded` | src/narinfo.rs:75-75 | a last `References` line gives exactly its words, whatever white space stands between them |
| `NarInfo.FieldAdded` | src/narinfo.rs:70-77 | a last line for path, URL, NAR hash or content address replaces that field and nothing else; a path outside the store fails |
| `NarInfo.SizeAdded` | src/narinfo.rs:74-74 | a last size line replaces the size and nothing else, and fails iff it is no number of 64 bits |
| `NarInfo.SignatureAdded` | src/narinfo.rs:76-76 | one more `Sig` line adds a signature and changes nothing else |
| `NarInfo.FingerprintSpelled` | src/narinfo.rs:102-115 | the fingerprint is `1`, path, NAR hash, decimal size and references, with semicolons between |
| `NarInfo.SizePrinted` | src/narinfo.rs:108-114 | the size stands in it as its decimal digits, no zero in front |
| `NarInfo.JoinRefsSpelled` | src/narinfo.rs:103-107 | the references stand in it as full paths, a comma between any two |
| `NarInfo.FingerprintInjective` | src/narinfo.rs:102-115 | when no reference holds `,/nix/store/` and path and hash no `;`, fingerprints are equal iff path, hash, size and references are |
| `NarInfo.SignedBinds` | src/narinfo.rs:102-115 | whoever shares the fingerprint of a clean narinfo, whatever its own names, is for its path, hash and size, and lists its references iff none it lists holds `,/nix/store/` |
| `NarInfo.CommaAmbiguous` | src/narinfo.rs:102-115 | a reference that holds `,/nix/store/` shares its fingerprint with two references |
| `ContentAddress.ContentBound` | src/narinfo.rs:154-224 | two narinfos of one path that both pass the check agree on the CA text, on the descriptor's text for the references, and on a tree's NAR hash, or exhibit a collision; beside one without colons in its references the other lists the same ones iff it holds none either |
| `ContentAddress.ContentIff` | src/narinfo.rs:154-224 | beside one that passes, another narinfo of its path passes iff it makes the same claim, or a collision is exhibited |
| `ContentAddress.ContentDecides` | src/narinfo.rs:154-210 | narinfos that agree on these pass or fail together |
| `ContentAddress.ColonAmbiguous` | src/narinfo.rs:166-176 | a colon in a reference makes different reference lists give one path |
| `ContentAddress.TextPath` | src/narinfo.rs:154-177 | the path of a text: its sorted references, the 32 bytes its hash spells and the name; none with a self reference or a bad hash |
| `ContentAddress.TreePath` | src/narinfo.rs:178-192 | the path of a tree: its NAR hash must be the same text, and a self reference is marked behind the others |
| `ContentAddress.OutputPath` | src/narinfo.rs:193-209 | the path of any other fixed output of the four hashes: no references, and the hash of the text that names mode, algorithm and hash |
| `ContentAddress.AddressForms` | src/narinfo.rs:154-209 | nothing else gives a path |
| `ContentAddress.SignedSpelled` | src/narinfo.rs:126-139 | a signature counts iff a key of the name before its first colon checks the text behind it |
| `ContentAddress.ClaimBack` | src/narinfo.rs:168-182 | the parsed kind, algorithm and hash spell the CA text they came from |
| `ContentAddress.RefTextInjective` | src/narinfo.rs:166-190 | references and the self mark are read back from the descriptor in one way |
| `ContentAddress.InnerInjective` | src/narinfo.rs:206-207 | the inner text of a fixed output determines mode, algorithm and hash |
| `ContentAddress.DescribeInjective` | src/narinfo.rs:213-217 | the descriptor determines type part and hash |
| `ContentAddress.AcceptedIsBound` | src/narinfo.rs:121-140 | an accepted narinfo, whatever its names, is content-addressed or has the fingerprint of one a trusted key has signed; of a clean one it has path, hash and size, and the references iff none it lists holds a separator |
| `ContentAddress.RunTogether` | src/narinfo.rs:121-140 | a signed narinfo with two of its references run together is still accepted |
| `Nix32.DecodeEncode` | src/narinfo.rs:226-241 | decoding undoes encoding for every byte string |
| `Nix32.EncodeDecode` | src/narinfo.rs:235-241 | every accepted text is the encoding of what it decodes to |
| `Nix32.DecodesIff` | src/narinfo.rs:235-241 | a text is accepted at a length iff it encodes some byte string of that length |
| `Nix32.EncodeSpelled` | src/narinfo.rs:222-233 | the text is the number the bytes are, least byte first, in base 32 with the highest digit first, in as many letters as its bits need |
| `Nix32.AlphabetLetters` | src/narinfo.rs:230-230 | the letter table is the alphabet, and looking a letter up undoes it |
| `Nix32.Fold` | src/narinfo.rs:218-221 | the in-place fold leaves d[i] xor d[i+20] in the first twelve bytes and d[i] in the rest |
| `Nix32.FoldSpelled` | src/narinfo.rs:218-221 | byte j of the fold is byte j xor byte j + 20, if there is one |
| `Sorting.SortInPlace` | src/narinfo.rs:164-164 | the in-place sort leaves the same references, as often, in ascending order |
| `Sorting.LeqSpelled` | src/narinfo.rs:164-164 | the order is byte order: first a proper beginning, then the smaller letter where two first differ |
| `Sorting.SortedIff` | src/narinfo.rs:164-166 | two reference lists sort alike iff they hold the same references equally often |
| `Sorting.Canonical` | src/main.rs:253-260 | emit's sort and dedup, in place, give the paths in strictly ascending order, each once |
| `Sorting.CanonicalIff` | src/main.rs:259-260 | two closures emit the same list iff they hold the same paths, in whatever order and however often |

## Left out

- HTTP serving, S3 signing and XML, retry and backoff: a request may succeed or fail, and that is all that is kept of it.
- ed25519, SHA-256, base64, RFC 3339 and UTF-8 themselves: parameters with the hypotheses above; text is a sequence of characters, so byte slicing inside a character is not modelled.
- JSON numbers with a sign, fraction or exponent, escaped surrogate pairs and the parser's nesting limit: such documents are not read by the model; emitted manifests hold none of them.
- A manifest or header written as a JSON array of its fields: a derived parser takes it, the model reads objects only.
- ManifestHead.PrintedExactIff: objects with a list or object ahead of `closure`, or with `closure` first, are covered by `WholeExactIff` and `PrefixSound` only, and so are documents with blanks between tokens.
- The trimming of the lines `emit` reads: its paths are given, without empty ones.
- The file system: directories are maps, a write is one atomic step, concurrent writers of one name do not occur.
- Outside the `BoxRace` files a push and its local-origin marker are one step (the window inside `ingest` is not guarded by the code), as are a removal and its index update.
- ReplicaRun.OnlyCopyServed: a sweep or a mirror pass is one step of its runs; pushes landing inside a sweep are the subject of `BoxRace`, pushes landing inside a mirror-down are not modelled.
- `IndexRace` has no sweep of the server's own among its steps; `BoxRaceLimits.EntrySafeIff` is about that.
- Local reads succeed; local writes and removals fail only where the methods say so, so a failing sweep stamp and a marker that cannot be removed are not modelled.
- The window between the sync loop's own stamp and its re-read of it: taken as one step.
- The `newest` map of the mirror-down report, `/status`, `/metrics`, the age histogram, label escaping, the in-flight limit and request authorisation: presentation and plumbing.
- How many bytes `ls` reads ahead (1024): by `ManifestHead.ListedHeadExact` no answer depends on it.
- The column layout of `ls`, and the command line's policy flags, which only overwrite policy fields.
- `scripts/cache-push.sh`, the Nix modules and the dashboards.
- Mirror.Replica.Down: the accounting of gaps needs well-keyed sources, the counts also closures without repeated store hashes, and that every listed manifest has arrived a well-keyed remote; without these only the additions, the drops, the trust check and the retry rule are claimed.
- MirrorUp.Up: the count of pending generations needs distinct marker names; without them only the relation on the store and the remote is claimed.
- No claim is made that every narinfo always has its NAR on the box or after a remote sweep: a young unmarked narinfo may outlive its NAR, so servability is claimed for retained closures only.
