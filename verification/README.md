# ClusterYourCodex: verified model of the protocol cores

This project models, in Dafny, the parts of ClusterYourCodex on which its components have to
agree without talking to each other, and proves what each of them promises.

- **Job identity.** A job is normalized, written as a JSON tree, its resource-unit keys are moved
  to an older spelling in place, and the tree is printed with sorted keys and hashed. The bytes
  that are hashed identify the normalized job, and neither defaulting nor the change of spelling
  alters them (`CanonicalJson`, `JsonReader`, `ResourceKeys`, `Documents`, `Jobs`, `JobReader`, `Resources`).
- **Provisioning records.** The compare-and-swap record store (`Store`), the desktop client that
  overlaps list requests and mutations with it (`ComputerList`, `Renderer`), and the client's
  timer-driven automatic advance (`AutoAdvance`, `AdvanceSteps`). The client and the store are one step system
  with requests in flight; every SQLite transaction is one step.
- **Snapshot packing.** The collecting loop with its running limits, its map of case-folded path
  prefixes and its final sort (`CasePaths`, `Snapshot`).
- **Node state.** Config, inventory and telemetry, validated separately and merged, with the join
  of GPU telemetry to GPU inventory (`NodeState`).
- **Placement evidence.** The validator of a placement decision and of its binding to a job
  (`Placement`).
- **Discovery reports and host identities.** The line protocol of the discovery probes
  (`Base64`, `Discovery`, `Reports`) and the canonical host set of a controller certificate (`Hosts`).
- **Run life cycle.** The state graph, its transition and the check of stored evidence (`Runs`).

`Text`, `Utf8`, `Decimal`, `Uuids`, `Splits` and `Sums` are shared vocabulary.

Code that loops or updates fields is a method, or a class with the same fields, proved against a
function or predicate that does not mention the loop; expressions are functions. Each such function
is fixed in turn by something written apart from it: a reader that undoes a writer, a grammar, a
table, or the effect in plain terms. What is outside
the modelled code is a parameter: SHA-256 (`sha256Hex`), case folding (`fold`), the text form of
IP addresses (`IpText`, with the laws in `IpLaws`), clocks, and the rest of a record's validation
(`bodyOk`, `jobValid`). `dafny verify dfyconfig.toml` checks everything.

Some expectations a reader may bring to the code do not hold, and are settled exactly:

- A removed computer can come back on screen: no later list shows it, but a late reply of another
  mutation of it does. From a reachable state it can come back exactly when such a reply is answered
  and not yet delivered (`Renderer.RemovedReturnsIffCarried`). In runs that request no mutation of a
  record while one is under way it never does (`Renderer.RemovedNeverReturns`). The rendered buttons
  forbid that overlap (apps/desktop/src/ProvisioningComputers.tsx:741, 793 and 844), so the run of
  `Renderer.RemovedCanReturn` needs a click on a button that has not been drawn again yet; the
  handlers do not test it a second time.
- Two inventory GPUs can be given the same telemetry reading, so free memory is counted twice,
  exactly when a positional device and an identified one claim one reading
  (`NodeState.MixedIdsCountTwice`, `NodeState.JoinInjectiveIffUncontested`).
- An object holding both spellings of a unit key loses an entry, and only such an object does
  (`ResourceKeys.EntriesLostExactlyOnClash`, and for whole trees `ResourceKeys.PathsLostExactlyOnClash`).
- A trailing root dot is harmless for names and dotted addresses but not for address text that is
  not of DNS shape, such as IPv6 text (`Hosts.RootDot`, `Hosts.RootDotOnLoopback`).
- Four guards never decide: the `sequence < lastApplied` part of the list guard, the concurrency
  limit inside the timer callback, the checked-addition overflow and the in-loop second selection
  of the placement validator.

## Model

| member | source | states |
|---|---|---|
| `CanonicalJson.WriteCanonical` | crates/cyc-protocol/src/lib.rs:833-864 | the recursive writer appends to its buffer exactly the canonical text of the value, whatever was there before |
| `CanonicalJson.WriteItems` | crates/cyc-protocol/src/lib.rs:838-847 | the array loop appends the comma-separated texts of the elements in order |
| `CanonicalJson.WriteMembers` | crates/cyc-protocol/src/lib.rs:848-861 | the object loop appends the members in ascending key order |
| `JsonReader.ReadStringBack` | crates/cyc-protocol/src/lib.rs:835-837 | a reader written from the escape table of RFC 8259 section 7 recovers every string from its literal, whatever follows |
| `JsonReader.ReadBack` | crates/cyc-protocol/src/lib.rs:833-864 | a strict reader of JSON values (no whitespace, shortest escapes, ascending keys) recovers every tree from its text, whatever follows |
| `JsonReader.CanonicalTextReadsBack` | crates/cyc-protocol/src/lib.rs:833-864 | the canonical text of every tree reads back as that tree |
| `JsonReader.Unambiguous` | crates/cyc-protocol/src/lib.rs:833-864 | two canonical texts followed by anything but a digit are equal only if the trees and the remainders are equal |
| `JsonReader.TextInjective` | crates/cyc-protocol/src/lib.rs:833-864 | canonical texts of two JSON trees are equal exactly when the trees are |
| `Text.SortKeys` | crates/cyc-protocol/src/lib.rs:850-851 | selecting keys one by one gives the one ascending listing of the key set |
| `Text.AscendingUnique` | crates/cyc-protocol/src/lib.rs:850-851 | an ascending key list is determined by its set of keys |
| `Text.LessExact` | crates/cyc-protocol/src/lib.rs:850-851 | the order of keys is decided at the first difference, by code point, a prefix first |
| `Utf8.DecodeEncoded` | crates/cyc-protocol/src/lib.rs:793-795 | every string is recovered from its bytes |
| `Utf8.EncodeDecoded` | crates/cyc-provision/src/discovery.rs:182-182 | bytes accepted as UTF-8 are the encoding of what they decode to |
| `ResourceKeys.RenameInPlace` | crates/cyc-protocol/src/lib.rs:809-824 | the remove-and-insert loop over the keys computes the key rename, in whatever order the keys are visited |
| `ResourceKeys.ProjectInPlace` | crates/cyc-protocol/src/lib.rs:802-831 | the in-place recursion computes the pure projection at every depth |
| `ResourceKeys.PathSurvives` | crates/cyc-protocol/src/lib.rs:802-831 | at every depth, a path through no older spelling that stands beside its newer one is found again under its renamed path, with the projection of its value |
| `ResourceKeys.PathComes` | crates/cyc-protocol/src/lib.rs:802-831 | on every tree, each path of the projection is the renamed path of one that survives: nothing is invented |
| `ResourceKeys.SurvivingPathsUnique` | crates/cyc-protocol/src/lib.rs:802-831 | surviving paths keep different names |
| `ResourceKeys.PathsLostExactlyOnClash` | crates/cyc-protocol/src/lib.rs:802-831 | a tree loses no path, and no two of its paths fall together, exactly when no object in it holds both spellings of a unit key |
| `ResourceKeys.NoClashKeepsEveryEntry` | crates/cyc-protocol/src/lib.rs:809-824 | in one object without both spellings of a unit key in one object, every entry survives under its renamed key and no other key appears |
| `ResourceKeys.EntriesLostExactlyOnClash` | crates/cyc-protocol/src/lib.rs:809-824 | the number of entries of one object is kept exactly when no key of it clashes with its other spelling |
| `ResourceKeys.ProjectIdempotent` | crates/cyc-protocol/src/lib.rs:802-831 | projecting a second time changes nothing, for every JSON tree |
| `Uuids.PrintInjective` | crates/cyc-protocol/src/lib.rs:520-544 | the hyphenated text of an id determines the id |
| `Uuids.ReadBack` | crates/cyc-protocol/src/lib.rs:520-544 | a reader of lower-case hyphenated ids recovers the sixteen bytes |
| `Documents.StructProject` | crates/cyc-protocol/src/lib.rs:802-831 | on a struct the projection acts member by member and respells the keys |
| `JobReader.JobInjective` | crates/cyc-protocol/src/lib.rs:282-544 | job documents are equal only for equal jobs: no two field values share a wire form |
| `JobReader.JobReadsBack` | crates/cyc-protocol/src/lib.rs:282-544 | a reader that looks members up by their wire names, and accepts no others, recovers every job from its document |
| `Jobs.JobProject` | crates/cyc-protocol/src/lib.rs:799-831 | projecting the current wire form of a job gives its preview.100 wire form |
| `Jobs.MigrationKeepsBytes` | crates/cyc-protocol/src/lib.rs:780-797 | the bytes hashed for the current spelling are those of the older spelling |
| `JobReader.BytesIdentifyNormalForm` | crates/cyc-protocol/src/lib.rs:772-797 | for all jobs, canonical bytes are equal exactly when the normalized jobs are equal |
| `JobReader.BytesReadBack` | crates/cyc-protocol/src/lib.rs:772-864 | reading the hashed bytes of any job as UTF-8, JSON and a job gives that job with one core where it names no number |
| `JobReader.SameBytesExactly` | crates/cyc-protocol/src/lib.rs:772-797 | two jobs have equal bytes exactly when they agree once a missing core count is read as one; in particular the default and its absence do |
| `Jobs.NormalizeKeepsBytes` | crates/cyc-protocol/src/lib.rs:772-797 | normalizing a job does not change its canonical bytes |
| `Jobs.CanonicalJobDigest` | crates/cyc-protocol/src/lib.rs:790-797 | the digest is the hash of the canonical bytes, computed through the in-place projection and the writer |
| `Resources.DerivedRequestIsLeast` | crates/cyc-protocol/src/lib.rs:699-765 | a request is accepted exactly when it is at least the derived one in every dimension, asks for a core and names a well-formed device; the derived request itself exactly when the legacy core count is not zero |
| `Resources.DerivedRequest` | crates/cyc-protocol/src/lib.rs:706-719 | one slot, the legacy minima with one core and zero memory and disk by default, a GPU exactly when one is required and no device |
| `Resources.EffectiveCoversLegacy` | crates/cyc-protocol/src/lib.rs:699-703 | an explicit request is used as it is, the derived one otherwise, and an accepted one covers the legacy requirements |
| `Resources.RequestErrorsNameDefects` | crates/cyc-protocol/src/lib.rs:721-765 | every error of the request check names a defect that is there |
| `Resources.DeviceIds` | crates/cyc-protocol/src/lib.rs:736-744 | device ids are visible text of at most 256 characters without control characters |
| `Resources.ZeroMinimaRefused` | crates/cyc-protocol/src/lib.rs:606-626 | a requirement of zero is refused exactly when there is one, and the error names it |
| `Resources.NormalizeKeepsMeaning` | crates/cyc-protocol/src/lib.rs:606-629 | normalization changes neither a job's validation result nor its effective request |
| `Placement.ValidateEligible` | crates/cyc-protocol/src/placement_binding.rs:302-346 | accepts exactly the candidates with distinct valid components, every prefix sum within the JSON-safe range and total equal to the score; an error names a defect, and overflow is never one |
| `Placement.CheckComponents` | crates/cyc-protocol/src/placement_binding.rs:318-341 | the loop over score components accepts exactly the consistent lists and returns their sum |
| `Placement.ValidTextExact` | crates/cyc-protocol/src/placement_binding.rs:375-379 | evidence text is visible, at most 256 bytes and free of control characters |
| `Placement.ValidateIneligible` | crates/cyc-protocol/src/placement_binding.rs:348-373 | accepts exactly the unscored candidates with a non-empty list of distinct, explained rejections; an error names a defect |
| `Placement.ValidateExplanation` | crates/cyc-protocol/src/placement_binding.rs:258-300 | accepts exactly the consistent decisions; an error names a defect, and a selection-count error means that no candidate carries the chosen id |
| `Placement.RejectionsAtMost25` | crates/cyc-protocol/src/lib.rs:1373-1399 | distinct codes bound every accepted rejection list by 25 |
| `Placement.ValidateBinding` | crates/cyc-protocol/src/placement_binding.rs:164-240 | accepts exactly the well-formed bindings of that job whose clock lies from 30 s before creation up to but excluding expiry; an error names a defect |
| `Placement.CheckHeader` | crates/cyc-protocol/src/placement_binding.rs:164-207 | the checks before the clock accept exactly the good headers, and an error names a defect |
| `Placement.CheckJob` | crates/cyc-protocol/src/placement_binding.rs:217-237 | the checks against an expected job accept exactly when the binding is for it, and an error names the mismatch |
| `Placement.DigestExact` | crates/cyc-protocol/src/placement_binding.rs:381-386 | a digest is 64 lower-case hexadecimal digits |
| `Placement.BindingFitsOneJob` | crates/cyc-protocol/src/placement_binding.rs:164-240 | with an injective hash, a binding that fits one job fits a valid other job exactly when their normalized forms are equal |
| `Store.ProvisioningStore.Insert` | crates/cyc-provision/src/store.rs:59-86 | succeeds exactly for a valid first revision of an absent id; on failure nothing changes and the error names the reason; column agreement is kept |
| `Store.ProvisioningStore.Get` | crates/cyc-provision/src/store.rs:88-91 | returns the stored document, never a corruption error, in an agreeing table; in any table, what it returns is the row's valid document |
| `Store.ProvisioningStore.List` | crates/cyc-provision/src/store.rs:93-118 | in an agreeing table returns every document once, latest update text first and equal ones by id text |
| `Store.ProvisioningStore.SaveCas` | crates/cyc-provision/src/store.rs:120-174 | succeeds exactly when the expected revision is current, the identity fields are unchanged and the stamped record is valid; then commits the caller's record at revision + 1, with the clock's time if that is later than the replaced version's and a microsecond after it otherwise; on failure nothing changes and the error names the reason |
| `Store.MonotonicNow` | crates/cyc-provision/src/store.rs:267-274 | the clock's time if it has moved on, a microsecond after the previous time otherwise |
| `Store.ProvisioningStore.DeleteCas` | crates/cyc-provision/src/store.rs:176-202 | succeeds exactly on the current revision; on failure nothing changes and the error names the reason |
| `Store.LadderStep` | crates/cyc-provision/src/store.rs:120-174 | one commit extends a record's committed versions by the next revision, a strictly later time and the same identity |
| `Store.RunKeepsLadders` | crates/cyc-provision/src/store.rs:59-202 | on every run, the versions since a record's insert are revisions 1, 2, 3, ... without gaps, with strictly increasing times and constant identity, and the table holds the last of them |
| `Store.OneSavePerRevision` | crates/cyc-provision/src/store.rs:120-174 | two commits of the same revision of one id have a delete between them |
| `Store.RunAgrees` | crates/cyc-provision/src/store.rs:209-257 | in every reachable table each row's columns agree with its document |
| `Store.LiveRecordsAreSound` | crates/cyc-provision/src/model.rs:808-828 | every record of every reachable table has non-nil ids, a revision from 1 that fits the column, a creation time no later than its update and columns equal to its fields |
| `Store.RevisionsGrow` | crates/cyc-provision/src/store.rs:120-202 | until it is deleted, a record stays and its revision never falls |
| `ComputerList.UpsertFacts` | apps/desktop/src/ProvisioningComputers.tsx:366-373 | keeps ids unique and sorted by update-time text, shows the incoming version if it is newer or new and the shown one otherwise, and leaves every other record alone |
| `ComputerList.ReconcileFacts` | apps/desktop/src/ProvisioningComputers.tsx:377-386 | shows exactly the incoming ids, each as it came unless the shown version is at least as new, unique and sorted by update-time text |
| `ComputerList.SortKeepsTies` | apps/desktop/src/ProvisioningComputers.tsx:360-362 | the sort loses nothing and keeps records of equal time text in their order |
| `ComputerList.ServerOrderIsDisplayOrder` | crates/cyc-provision/src/store.rs:93-118 | the query's order, latest first and equal times by id text, is one the display sort leaves as it is |
| `ComputerList.FreshListShownAsSent` | apps/desktop/src/ProvisioningComputers.tsx:377-386 | a list holding nothing older or different than what is shown is displayed exactly as the server sent it |
| `ComputerList.WithoutFind` | apps/desktop/src/ProvisioningComputers.tsx:502-503 | removing an id hides that record and no other |
| `Renderer.RendererState.BeginRefresh` | apps/desktop/src/ProvisioningComputers.tsx:459-461 | takes a fresh sequence number and the current epoch |
| `Renderer.RendererState.FinishRefresh` | apps/desktop/src/ProvisioningComputers.tsx:464-467 | applies a list exactly as the abstract client does |
| `Renderer.RendererState.ApplyResult` | apps/desktop/src/ProvisioningComputers.tsx:500-509 | applies a mutation reply exactly as the abstract client does |
| `Renderer.KeepsInvariant` | apps/desktop/src/ProvisioningComputers.tsx:459-509 | every step of client, network and store keeps the joint invariant |
| `Renderer.Reachable` | apps/desktop/src/ProvisioningComputers.tsx:459-509 | in every reachable state shown ids are unique and sorted by update-time text, and every shown record was committed by the store |
| `Renderer.StepNeverLowersRevision` | apps/desktop/src/ProvisioningComputers.tsx:364-386 | no step lowers the revision of a record that stays on display, and an equal revision is the same document |
| `Renderer.RevisionNeverDecreases` | apps/desktop/src/ProvisioningComputers.tsx:364-386 | over every interleaving, a record's revision never decreases while it stays displayed |
| `Renderer.AppliedListsAscend` | apps/desktop/src/ProvisioningComputers.tsx:465-466 | an applied list has a higher sequence number than all applied before, and the `lastApplied` comparison never decides |
| `Renderer.AppliedInOrder` | apps/desktop/src/ProvisioningComputers.tsx:465-466 | over every run, applied lists have strictly increasing sequence numbers |
| `Renderer.AppliedListHidesRemoved` | apps/desktop/src/ProvisioningComputers.tsx:465-467 | an applied list shows exactly its own ids and none whose removal reply was applied |
| `Renderer.ListBringsUpToDate` | apps/desktop/src/ProvisioningComputers.tsx:464-467 | an applied list leaves each of its records shown at no lower revision than it came with; a list that is not applied changes nothing |
| `Renderer.ReplyTakesEffect` | apps/desktop/src/ProvisioningComputers.tsx:500-509 | a delivered document is shown at its revision or later, a removed one is hidden, every other record stays and the epoch moves on |
| `Renderer.NeverBehindWhatCame` | apps/desktop/src/ProvisioningComputers.tsx:459-509 | over every run, what a reply or applied list brought is shown at that revision or later for as long as it stays shown |
| `Renderer.RemovedNeverListedAgain` | apps/desktop/src/ProvisioningComputers.tsx:459-509 | over every run, no list applied after a removal reply shows the removed record |
| `Renderer.RemovedReturnsOnlyByLateReply` | apps/desktop/src/ProvisioningComputers.tsx:500-509 | a removed record that is not shown returns in a step exactly when that step delivers a mutation reply carrying it |
| `Renderer.RemovedReturnsIffCarried` | apps/desktop/src/ProvisioningComputers.tsx:500-509 | from any state of a run, some continuation shows a removed record again exactly when an answered, undelivered mutation carries its document |
| `Renderer.StaysHidden` | apps/desktop/src/ProvisioningComputers.tsx:500-509 | without such a reply a removed record stays hidden for the rest of every run |
| `Renderer.RemovedNeverReturns` | apps/desktop/src/ProvisioningComputers.tsx:741-844 | in every run that requests no mutation of a busy record, as the rendered buttons demand, a removed record is never shown again |
| `Renderer.RemovedCanReturn` | apps/desktop/src/ProvisioningComputers.tsx:500-509 | without that guard, an eight-step run from the initial state in which a removed record is shown again |
| `AutoAdvance.AdvanceRefs.DropStale` | apps/desktop/src/ProvisioningComputers.tsx:518-525 | the loop over the timer map withdraws exactly the timers no longer wanted |
| `AutoAdvance.AdvanceRefs.ArmAll` | apps/desktop/src/ProvisioningComputers.tsx:532-580 | the arming loop with its early exit computes the abstract arming |
| `AutoAdvance.AdvanceRefs.RunEffect` | apps/desktop/src/ProvisioningComputers.tsx:511-581 | the whole effect computes the abstract effect and keeps the invariant |
| `AutoAdvance.StepKeeps` | apps/desktop/src/ProvisioningComputers.tsx:511-587 | every step keeps the invariant and moves no start time |
| `AutoAdvance.Reachable` | apps/desktop/src/ProvisioningComputers.tsx:511-587 | the invariant holds in every reachable state |
| `AutoAdvance.AtMostTwoAtOnce` | apps/desktop/src/ProvisioningComputers.tsx:530-551 | in every reachable state timers and calls together are at most two, and no record has two of them |
| `AutoAdvance.EveryDelayInRange` | apps/desktop/src/ProvisioningComputers.tsx:536-562 | every armed delay is 500 doubled some times, within 500 to 8000 ms |
| `AutoAdvance.LimitBranchNeverTaken` | apps/desktop/src/ProvisioningComputers.tsx:545-551 | when a timer fires, the limit branch is not taken and the call starts |
| `AutoAdvance.StartNeverMoves` | apps/desktop/src/ProvisioningComputers.tsx:536-562 | while a progress entry lives its start time stays the same |
| `AutoAdvance.ArmedWithinDeadline` | apps/desktop/src/ProvisioningComputers.tsx:540-545 | a timer is armed only within ten minutes of its recorded start |
| `AdvanceSteps.OperationSuspends` | apps/desktop/src/ProvisioningComputers.tsx:512-516 | while an operation runs no timer is armed, and entries and calls are left alone |
| `AdvanceSteps.TimerStaysWhileCurrent` | apps/desktop/src/ProvisioningComputers.tsx:518-525 | a timer is kept exactly while its record is listed at the revision it was armed for |
| `AdvanceSteps.EffectServes` | apps/desktop/src/ProvisioningComputers.tsx:517-580 | after the effect every timer is for a listed record at its revision, entries are kept or begun anew and only for listed records, and either two records are worked on or every listed one is served |
| `AdvanceSteps.NoSlotLeftIdle` | apps/desktop/src/ProvisioningComputers.tsx:530-580 | the arming loop fills all the room there is or serves every listed record |
| `AdvanceSteps.FireStartsCall` | apps/desktop/src/ProvisioningComputers.tsx:545-554 | a timer that fires becomes a call for what it captured, and nothing else changes |
| `AdvanceSteps.SuccessBacksOff` | apps/desktop/src/ProvisioningComputers.tsx:555-567 | a success at a checkpoint stores the returned revision, the same start and twice the delay up to eight seconds; any other success forgets the entry |
| `AdvanceSteps.CallEnds` | apps/desktop/src/ProvisioningComputers.tsx:568-577 | a failure keeps the entry, and the end of a call frees its slot |
| `AdvanceSteps.ActionWithdraws` | apps/desktop/src/ProvisioningComputers.tsx:676-681 | an action withdraws the record's timer and entry and touches no other |
| `AdvanceSteps.BackoffExact` | apps/desktop/src/ProvisioningComputers.tsx:536-562 | in every reachable state each entry, timer and call has the delay of the number of successes in a row behind it |
| `AdvanceSteps.BackoffValues` | apps/desktop/src/ProvisioningComputers.tsx:538-560 | the delays are 500, 1000, 2000, 4000 and from then on 8000 ms |
| `CasePaths.Registry.Register` | crates/cyc-cli/src/main.rs:276-296 | succeeds exactly when no two spellings among the prefixes seen and those of the path have the same folded form; the map holds one spelling for each folded prefix |
| `CasePaths.RegisterAll` | crates/cyc-cli/src/main.rs:276-296 | registering a sequence of paths succeeds exactly when no two of all their prefixes collide |
| `CasePaths.RegistrationOrderIrrelevant` | crates/cyc-cli/src/main.rs:276-296 | the outcome depends only on which paths there are |
| `CasePaths.PrefixesExact` | crates/cyc-cli/src/main.rs:276-286 | the prefixes of a relative path are the path itself and every non-empty part of it that ends before a slash |
| `Snapshot.PortableInjective` | crates/cyc-cli/src/main.rs:223-274 | different walked paths never get the same portable path |
| `Snapshot.SensitiveNames` | crates/cyc-cli/src/main.rs:209-221 | a segment is passed over exactly when its lower-case form is in the table of names, starts and ends |
| `Snapshot.UpperLetters` | crates/cyc-cli/src/main.rs:254-258 | each small letter becomes its capital and every other character stays |
| `Snapshot.ValidatePackSegment` | crates/cyc-cli/src/main.rs:244-274 | the check of one segment accepts exactly the packable ones |
| `Snapshot.PackedNamesArePortable` | crates/cyc-cli/src/main.rs:244-274 | a packable segment is no device name, not too long, and without bad characters or endings |
| `Snapshot.ValidatePortableRelative` | crates/cyc-protocol/src/lib.rs:883-916 | the loop over segments accepts exactly the portable relative paths |
| `Snapshot.PortablePath` | crates/cyc-cli/src/main.rs:223-242 | the loop over components computes the portable path or refuses |
| `Snapshot.PortableExact` | crates/cyc-cli/src/main.rs:223-242 | a path is portable exactly when every component is packable and the joined path is relative and at most 1024 bytes |
| `Snapshot.JudgeExact` | crates/cyc-cli/src/main.rs:132-178 | a finding is taken, skipped or refused exactly as its kind, names and size say, and is taken with its own path, kind and length |
| `Snapshot.PackedExactly` | crates/cyc-cli/src/main.rs:132-184 | an accepted snapshot holds exactly the directories and files under no sensitive name, at most 10000 of them, no file over 64 MiB |
| `Snapshot.CollectEntries` | crates/cyc-cli/src/main.rs:132-184 | accepts exactly when no item is refused, the totals are within the limits and no prefixes collide, and then returns the taken entries sorted; running limits decide no more than totals do |
| `Snapshot.EnumerationOrderIrrelevant` | crates/cyc-cli/src/main.rs:132-184 | any two enumerations of the same walk are both refused or give the identical list, strictly ordered by portable path |
| `Snapshot.DirectoriesFirst` | crates/cyc-cli/src/main.rs:180-183 | every directory comes before everything beneath it |
| `NodeState.CheckInventoryGpus` | crates/cyc-protocol/src/node_state.rs:410-429 | accepts exactly the inventories of well-formed devices with distinct stable ids |
| `NodeState.CheckShape` | crates/cyc-protocol/src/node_state.rs:619-679 | the telemetry loops accept exactly the declared shape |
| `NodeState.CheckRuns` | crates/cyc-protocol/src/node_state.rs:642-651 | accepts exactly the run lists without a nil or repeated id |
| `NodeState.CheckReadings` | crates/cyc-protocol/src/node_state.rs:652-677 | accepts exactly the reading lists with well-formed readings and distinct ids |
| `NodeState.CheckCapacity` | crates/cyc-protocol/src/node_state.rs:96-127 | the capacity checks with their loop over percentages accept exactly the valid policies |
| `NodeState.CheckConfig` | crates/cyc-protocol/src/node_state.rs:157-175 | accepts exactly the valid configs |
| `NodeState.CheckHostile` | crates/cyc-protocol/src/node_state.rs:263-317 | the early exits accept exactly the consistent isolation reports |
| `NodeState.CheckInventory` | crates/cyc-protocol/src/node_state.rs:400-470 | accepts exactly the valid inventories |
| `NodeState.CheckTelemetry` | crates/cyc-protocol/src/node_state.rs:576-603 | shape, totals and the lookup for every device accept exactly the valid telemetry |
| `NodeState.JoinExact` | crates/cyc-protocol/src/node_state.rs:605-614 | a device's reading is the one with its id if it has one and the one at its place otherwise |
| `NodeState.JoinInjectiveIffUncontested` | crates/cyc-protocol/src/node_state.rs:605-614 | for accepted documents the join uses each reading once exactly when no identified device claims the reading at a positional device's place |
| `NodeState.JoinConserves` | crates/cyc-protocol/src/node_state.rs:605-614 | an uncontested join is a permutation of the readings and keeps their total free memory |
| `NodeState.UniformIdsUncontested` | crates/cyc-protocol/src/node_state.rs:605-614 | with all devices identified, or none, nothing is contested |
| `NodeState.MixedIdsCountTwice` | crates/cyc-protocol/src/node_state.rs:605-614 | a config, inventory and telemetry with mixed ids that are accepted, and whose merged node has twice the reported free memory |
| `NodeState.ToNode` | crates/cyc-protocol/src/node_state.rs:769-823 | the lookup in the conversion never fails, each device appears, and its free memory is at most its total |
| `NodeState.NodeConservesVram` | crates/cyc-protocol/src/node_state.rs:769-799 | the merged node's free GPU memory is the reported total |
| `NodeState.SplitMergeRoundTrip` | crates/cyc-protocol/src/node_state.rs:742-823 | splitting a node, merging and converting returns the node, with last-seen the receive time and status offline exactly when it is enabled and stale |
| `NodeState.StaleStaysStale` | crates/cyc-protocol/src/node_state.rs:696-720 | without a newer report a stale node stays stale at all later times |
| `NodeState.StatusExact` | crates/cyc-protocol/src/node_state.rs:696-720 | the merged status is as reported for a disabled node, draining whenever the operator wants it, offline beyond the freshness limit and as reported otherwise |
| `Base64.DecodeEncoded` | crates/cyc-provision/src/discovery.rs:176-178 | decoding undoes encoding, for all bytes |
| `Base64.EncodeDecoded` | crates/cyc-provision/src/discovery.rs:176-178 | only canonical text is accepted: what decodes is the encoding of what it decodes to |
| `Base64.Alphabet` | crates/cyc-provision/src/discovery.rs:176-178 | the symbols are those of section 4 of RFC 4648, in order |
| `Discovery.ParseDiscovery` | crates/cyc-provision/src/discovery.rs:47-121 | the line loop, with its running count and maps, gives the result or the first error that the line-by-line reading defines |
| `Discovery.CollectExact` | crates/cyc-provision/src/discovery.rs:63-96 | the loop accepts exactly fewer than 256 well-formed lines without a repeated field, and collects exactly what some line says |
| `Discovery.EnvelopeErrors` | crates/cyc-provision/src/discovery.rs:51-61 | size, encoding and header are refused with their own errors, in that order |
| `Discovery.FirstBadLineDecides` | crates/cyc-provision/src/discovery.rs:67-96 | the first line that cannot be absorbed decides the error: too many lines, its own error, or a repeated field |
| `Discovery.LineErrors` | crates/cyc-provision/src/discovery.rs:68-95 | empty, over-long, unseparated and unknown lines have their own errors, and a scalar line is its key, an equals sign and its value |
| `Discovery.AssembledFrom` | crates/cyc-provision/src/discovery.rs:98-116 | an accepted computer has each field from the line of that name |
| `Discovery.ValidTextExact` | crates/cyc-provision/src/model.rs:1017-1027 | inventory text is visible, at most 512 bytes and free of control characters |
| `Discovery.LineOrderIrrelevant` | crates/cyc-provision/src/discovery.rs:47-121 | permuting the lines after the header changes neither acceptance nor any field except the order of GPUs |
| `Reports.LinesTerminated` | crates/cyc-provision/src/discovery.rs:58-58 | both line endings of the probes read back as the same lines |
| `Reports.ReportReadsBack` | crates/cyc-provision/src/discovery.rs:243-271 | the report of every valid computer of the probed platform stays within all limits and parses to that computer, in any order of tools and with either line ending |
| `Reports.AcceptedIsValid` | crates/cyc-provision/src/discovery.rs:98-120 | every accepted report gives a valid computer of the probed platform with a supported architecture |
| `Hosts.NormalizeIdempotent` | crates/cyc-cli/src/identity.rs:211-262 | the printed form of a normalized host normalizes to itself, and no resulting DNS name reads as an address |
| `Hosts.NormalizeIgnoresCase` | crates/cyc-cli/src/identity.rs:211-262 | letter case and surrounding spaces do not matter |
| `Hosts.HostExact` | crates/cyc-cli/src/identity.rs:211-231 | a host is accepted exactly when it has no control character and, trimmed, is ASCII and address text or a DNS name with at most one root dot; it stands for the address or the lower-case name |
| `Hosts.DnsGrammar` | crates/cyc-cli/src/identity.rs:247-260 | a name is accepted exactly when it is labels of letters, digits and inner hyphens, at most 63 each and 253 in all, joined by dots |
| `Hosts.TrimExact` | crates/cyc-cli/src/identity.rs:215-215 | trimming takes away spaces at both ends and nothing else |
| `Text.LowerLetters` | crates/cyc-cli/src/identity.rs:261-261 | lower case changes exactly the capitals, each to the letter at its place of the alphabet |
| `Hosts.RootDot` | crates/cyc-cli/src/identity.rs:240-246 | one trailing root dot makes no difference exactly when the text is not address text or is of DNS shape |
| `Hosts.RootDotOnLoopback` | crates/cyc-cli/src/identity.rs:211-231 | `::1` is accepted and `::1.` refused |
| `Hosts.HostTrichotomy` | crates/cyc-cli/src/identity.rs:56-62 | the order is strict and total: hosts that compare equal are equal |
| `Hosts.InsertHost` | crates/cyc-cli/src/identity.rs:204-208 | inserting keeps the set ascending and adds exactly that host |
| `Hosts.TextOrder` | crates/cyc-cli/src/identity.rs:56-62 | the list is in the order of its printed texts, of one text the name before the address |
| `Hosts.NormalizeHosts` | crates/cyc-cli/src/identity.rs:200-209 | accepts exactly 1 to 32 arguments that all normalize, and returns the ascending list of their set |
| `Hosts.CertificateSans` | crates/cyc-cli/src/identity.rs:264-293 | accepts exactly a non-empty list of readable names, and returns the ascending list of their typed set |
| `Hosts.AscendingDetermined` | crates/cyc-cli/src/identity.rs:172-175 | comparing the two ascending lists compares the sets |
| `Hosts.NamesMatch` | crates/cyc-cli/src/identity.rs:172-175 | accepts exactly when the typed name set equals the expected host set, and then no DNS name in it reads as an address |
| `Hosts.HostListIgnoresForm` | crates/cyc-cli/src/identity.rs:200-231 | order, repetition, letter case, surrounding spaces and one trailing root dot, wherever `RootDot` says it is harmless, change neither acceptance nor the set |
| `Hosts.HostListIdempotent` | crates/cyc-cli/src/identity.rs:200-231 | normalizing the printed hosts gives the same set |
| `Hosts.IssuedNamesMatch` | crates/cyc-cli/src/identity.rs:44-53 | a certificate issued for a host list reads back as exactly that list's set |
| `Runs.Run.Transition` | crates/cyc-protocol/src/lib.rs:1212-1228 | moves exactly along the graph, stamps the first start and the finish, and changes nothing when refused |
| `Runs.EveryHistory` | crates/cyc-protocol/src/lib.rs:1149-1307 | on every history of a queued run under a clock that never goes back: at least as many transitions as the state is away from the queue and at most four, success only after a recorded start, every non-terminal or cancelled state validates, and succeeded or failed ones validate exactly with the right evidence |
| `Runs.EdgesExact` | crates/cyc-protocol/src/lib.rs:1150-1166 | the edges are exactly: fail or cancel from any unfinished state, go on to the next stage, or succeed straight from running |
| `Runs.TerminalStays` | crates/cyc-protocol/src/lib.rs:1149-1166 | from a terminal state no event moves the state or either time |
| `Runs.StartStays` | crates/cyc-protocol/src/lib.rs:1220-1222 | a recorded start is never moved |
| `Runs.TimesExact` | crates/cyc-protocol/src/lib.rs:1219-1226 | the recorded start is the time of the first move into Running, the recorded finish that of the terminal move |
| `Runs.EvidenceKept` | crates/cyc-protocol/src/lib.rs:1212-1228 | transitions change neither creation time nor evidence |
| `Runs.ValidateExact` | crates/cyc-protocol/src/lib.rs:1235-1307 | any stored run is accepted exactly with good evidence, and an error names a defect |
| `Runs.SoundValidates` | crates/cyc-protocol/src/lib.rs:1235-1307 | a run with consistent times validates exactly when success and failure carry the right evidence |
| `Runs.FourTransitions` | crates/cyc-protocol/src/lib.rs:1154-1166 | the bound of four is reached |

## Left out

- Controller HTTP handlers, middleware and error mapping, pairing, leases, plans and reservations: wrappers over a scheduler and database that are not part of this model.
- tar and zstd encoding of a snapshot, and the size-limiting writer around it: the model stops at the ordered entry list; the writer is one comparison.
- TLS, key and certificate generation, PEM and DER parsing: the model starts from the list of certificate names.
- File permissions, access-control lists, reparse points, credential stores, UDP beacons and the network client: operating-system behaviour.
- React rendering, translations and error banners of the desktop client: only the refs and the list state are modelled.
- Fractional JSON numbers: a job document holds integers only, so numbers are integers.
- JSON text to tree and timestamp text: stored documents, columns and times are decoded values, and times are integers; sorting goes by an arbitrary order of the printed times, because both the query and the client compare text.
- `serde_json::to_value` on a job: modelled by the wire names and omission rules of the job structs.
- The choice among several errors that apply at once: a placement, run, request or store error is proved to name a defect that is there, not to be the first one checked; node-state, packing and host checks have one error each in the model.
- Resources.NormalizeKeepsMeaning: the checks of a job that do not concern resources are arbitrary functions of the fields they read; what they test is not modelled.
- Store.ProvisioningStore.List: the sorted row keys are given, as the query returns them; sorting inside SQLite is not modelled.
- Renderer.RemovedNeverListedAgain: ids are not used again after a delete, and a list is a store snapshot taken between its request and its reply.
- Renderer.RemovedNeverReturns: the guard is a property of the run; that every button is drawn again before the next click is not modelled.
- AutoAdvance.StepKeeps: a successful reply is for the record that was asked about, as the store answers.
- Snapshot.EnumerationOrderIrrelevant: a walk lists no path twice; symbolic links and other file kinds are findings of the walk.
- Reports.ReportReadsBack: the shell commands that gather the values, and their truncation to 512 characters, are not modelled; the printer starts from the values.
- Hosts.NormalizeIdempotent: the standard library's address text is a pair of functions with four laws; no address text ends in a dot.
- Runs.EveryHistory: exit code and error may be overwritten at any time by any value; node, placement and artifact fields play no part and are omitted.
