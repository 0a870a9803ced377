# Boxy, verified

A Dafny model of the parts of Boxy where several actors share state or where text and bytes are transformed:

- **The operator's session protocol.** The API server's sessions and configs, the sandbox ids each controller
  holds, the session worker and the config worker are one step system (`SessionProtocol`). Every read, remote
  call and write of a reconcile is a step of its own; routers, users, controllers and the clock act between any
  two of them. `Update` and `Status().Update` are compare-and-swap on the resource version, the eviction and
  last-use patches are unconditional. A run is any sequence of steps, and the theorems are about all runs.
  `Reconcilers` holds the reconcile functions as imperative code over the shared cluster and proves that each
  execution, under any interference, is a run of that step system. `Passes` and `Evictions` say what one
  undisturbed reconcile does to a session or config, phase by phase, in terms of the object alone.
- **Placement and scaling** of controller pods: best fit, and the two scalers that share one StatefulSet.
- **The controller's output and file pipeline**: the limiting writer, the two drains of a streamed command, the
  UTF-8 tail trimmer, exact-string edits, and the sandbox registry with its lock windows. `Streaming` and
  `Registry` are step systems over all interleavings; `Drains` and `Sandboxes` hold the code, proved to be runs.
- **The nsjail text printer**, with a reader for the emitted part of the Protocol Buffers Text Format.
- **The token-review cache** and **the environment** of a command.

`dafny verify dfyconfig.toml` checks the whole project. Three conditions on the environment appear as explicit
preconditions of the theorems that need them, as predicates over a run: `CurrentReads` (a read returns
what the API server holds at that moment), `TruthfulReplies` (a stale-route answer comes from a controller that
does not hold the id afterwards) and `CarefulFrom` (no API delete goes to a Deleting session, and no patch to
Deleting goes to a marked one that is not retired). Theorems without them hold for arbitrarily stale caches: the
state keeps every version ever stored, and a read may return any of them.

Where a promise does not hold of the code, the code is kept, a lemma gives a concrete run or input, and another
lemma gives the exact condition: `EndangeringExactly`, `RemovalIsQuietExactly`, `SparesBusyPodsExactly`,
`ShortCountsExactly`, `TruncateBoundExactly`, `DataAfterAnnouncementExactly`, `ReadSucceedsExactly`,
`ReverseEditExactly`, `OverlapsKeepDirsExactly`, `CacheIsSoundExactly`, `LayeringExactly`.

Two places where the code differs from `docs/architecture.md`, and the model follows the code: lines 139-149
there describe first fit by ordinal, while `assignController` takes the pod with the least remaining room; and
lines 151-158 describe the scale-down loop as removing the idle pods, while `tryScaleDown` only lowers the replica
count, so that the StatefulSet drops its highest ordinals.

## Model

| member | source | states |
|---|---|---|
| Placement.BestPod | internal/operator/session_reconciler.go:372-394 | The chosen pod is ready, not being deleted, has room, and is the fullest such pod, the earliest listed among equals; there is no choice exactly if no listed pod has room. |
| Placement.CountPerPod | internal/operator/session_reconciler.go:361-370 | Each counter is the number of listed sessions on that pod that are neither Terminated nor Deleting, and pods without a counter have none. |
| Placement.CountOnIsSize | internal/operator/session_reconciler.go:361-370 | The count used in all statements about placement is the size of that set. |
| Placement.PodsNeededIsCeiling | internal/operator/session_reconciler.go:361-394 | The number of pods called needed is n / max rounded up. |
| Placement.AssignController | internal/operator/session_reconciler.go:347-404 | The loop finds the best-fit pod, and returns none, so that the caller scales up, exactly if every ready, non-deleting listed pod is full. |
| Placement.BestFitIsOptimal | internal/operator/session_reconciler.go:361-394 | For every run of arrivals with pods that only join: at most one pod is partly filled, no pod is over the limit, and the pods in use are n / max rounded up. |
| Placement.ArrivalKeepsPacked | internal/operator/session_reconciler.go:361-394 | One arrival preserves the packing invariant: all used pods full but at most one, as long as the used pods still serve. |
| PhaseSafety.StepIsForward | internal/operator/session_reconciler.go:133-320 | Every step of every actor keeps stored versions unique and ordered: later versions of an object never leave Deleting/Terminated and never lose a deletion mark, and the worker's pending write moves forward too. |
| PhaseSafety.RetiredForever | internal/operator/session_reconciler.go:133-297 | In every run with arbitrarily stale caches, an object once Deleting or Terminated never shows another phase again, a Running one only stays so or retires, and marks are permanent. |
| NoOrphans.StepIsSafe | internal/operator/session_reconciler.go:108-297 | Every step keeps the invariant that held ids belong to their session and that the worker's pending writes and calls fit what controllers hold, unless a read is stale, a reply untruthful or the step skips. |
| NoOrphans.NoOrphansWithoutSkips | internal/operator/session_reconciler.go:108-297 | Step towards the next row: over whole runs in which no reconcile takes the skipping branch on a held session, every id a controller holds belongs to a stored session assigned to that pod, with its finalizer, in phase Creating, Running or Deleting. |
| CarefulRuns.NoOrphansInRuns | internal/operator/session_reconciler.go:108-297 | The same, over whole runs, from a condition on requests alone: no API delete of a Deleting session and no patch to Deleting of a marked one, as told by the stored object's phase, mark and address. |
| CarefulRuns.StepIsGuarded | internal/operator/session_reconciler.go:108-297 | Every step of every actor keeps: sessions that are marked and Deleting are held by nobody, and the worker is not about to make one of them held. |
| CarefulRuns.EndangeringExactly | internal/operator/session_reconciler.go:108-131 | Neither request can be allowed: after one for a session, with the worker idle, every further run is without orphans if and only if no controller holds that session. |
| NoOrphans.AddressIsInjective | internal/operator/session_reconciler.go:389-393 | Controller addresses determine pods, so a matching address means a matching pod. |
| NoOrphans.SkippingOrphans | internal/operator/session_reconciler.go:108-131 | The mechanism: one undisturbed pass over a session leaves no orphan if and only if it does not take the skipping branch while a controller holds it. |
| Scenarios.DeletedWhileDeleting | internal/operator/session_reconciler.go:113-124 | A run with current reads and truthful replies in which an API delete of a Deleting session leaves its sandbox behind. |
| Scenarios.EvictedWhileMarked | internal/router/server.go:1067-1080 | A second such run: an eviction patch lands on a session that was marked after the listing. |
| Scenarios.UntruthfulStaleRoute | internal/controller/client.go:49-59 | A run in which a transport error is taken for a gone sandbox although the call never arrived, and the sandbox stays. |
| Scenarios.DeletedBeforeFinalizer | internal/operator/sandbox_config_reconciler.go:42-49 | A run in which a config deleted before its finalizer was added disappears while its session keeps Running. |
| Scenarios.DeletedWhilePromoting | internal/operator/session_reconciler.go:155-173 | A second such run: nothing of the config is live when it goes, but the session worker's pending write turns a session Creating afterwards. |
| ConfigDrain.StepDrains | internal/operator/sandbox_config_reconciler.go:54-88 | Every step with current reads keeps: closed configs have no live unmarked session and no write in flight that would make one. |
| ConfigDrain.RemovedConfigIsQuiet | internal/operator/sandbox_config_reconciler.go:54-88 | From the step that drops a config's finalizer until a config of that id is created again, no unmarked session of it is Creating or Running, in every interleaving. |
| ConfigRemoval.RemovalIsQuietExactly | internal/operator/sandbox_config_reconciler.go:33-88 | Whatever step removes a config: in every way the run goes on with current reads and without that config, no unmarked session of it is Creating or Running, if and only if it carried its finalizer, no controller has room, or none of its sessions was live and the session worker was not about to make one live. |
| Capacity.ListingCounts | internal/operator/session_reconciler.go:355-370 | Counting over a complete listing gives the number of stored sessions on the pod. |
| Capacity.StepKeepsLimit | internal/operator/session_reconciler.go:155-219 | Every step with current reads keeps each pod within the limit, with one place left for an assignment that is about to be written. |
| Capacity.RunKeepsLimit | internal/operator/session_reconciler.go:155-173 | In every run with current reads the limit holds, with one place left for a pending assignment. |
| Capacity.NeverOverLimit | internal/operator/session_reconciler.go:155-173 | In every run with current reads, the sessions on any one pod that are neither Deleting nor Terminated never exceed MaxSandboxesPerCtrl. |
| Expiry.ExpiryIsRunningMaximum | internal/operator/session_reconciler.go:237-262 | In every run, the stored expiry is the maximum of its initial value and each last use plus TTL that a completed reconcile has seen. |
| Expiry.SeenTimesAreKept | internal/operator/session_reconciler.go:243-257 | Last use plus TTL, as a reconcile sees it, goes on that record or is exactly what it is about to write. |
| Expiry.ExpiryNeverDecreases | internal/operator/session_reconciler.go:237-262 | From any moment at which an object is Running, its expiry never moves back. |
| Expiry.EndsOnlyAfterExpiry | internal/operator/session_reconciler.go:258-265 | The session worker turns a Running session to Deleting only when the time is past the maximum on record. |
| Passes.PendingPass | internal/operator/session_reconciler.go:133-177 | An undisturbed reconcile of a new or Pending session adds the finalizer, and makes it Deleting without its config, or Creating on the best-fit pod, at that pod's DNS name and with now plus TTL as its expiry. |
| Passes.CreatingPass | internal/operator/session_reconciler.go:179-235 | Of a Creating session: Deleting without its config, Running on success, Pending without assignment on a stale route, unchanged otherwise, with what the controller then holds. |
| Passes.RunningAnswer | internal/operator/session_reconciler.go:243-265 | With the config at hand, the pending write is last use plus TTL if that is later than the expiry, or else Deleting if the time is past the expiry, or else none. |
| Passes.RunningPass | internal/operator/session_reconciler.go:237-270 | Of a Running session: its expiry is the later of the old one and last use plus TTL, and it is Deleting exactly if the time is past that. |
| Passes.UseExtends | internal/router/server.go:509-518 | A use recorded by the router and reconciled by use plus TTL keeps the session Running, with the later of the old expiry and use plus TTL. |
| Passes.DeletingPass | internal/operator/session_reconciler.go:272-297 | Of a Deleting session: deleted at its controller, if it has one, and Terminated now, unless that call is refused. |
| Passes.TerminatedPass | internal/operator/session_reconciler.go:299-320 | Of a Terminated session: it stays as it is if it is retained or within its retention time; otherwise it is deleted, or marked if it carries its finalizer. |
| Passes.MarkedPass | internal/operator/session_reconciler.go:108-131 | Of a marked session: it goes, after a delete call if it is Running or Creating with an address and unless that call is refused; without the finalizer nothing happens. |
| Passes.UnknownPass | internal/operator/session_reconciler.go:91-106 | Of a session in an unknown phase: nothing happens. |
| Passes.StepIsAbsorbed | internal/operator/session_reconciler.go:78-320 | Taking the next step of a reconcile leaves the end of its pass where it is, so step by step a reconcile is one pass. |
| Reconcilers.Cluster.Reconcile | internal/operator/session_reconciler.go:78-106 | Under any interference a reconcile extends the run, reads the session once and first, acts on what its calls return, gives up at a call exactly if that call fails, ends with the worker idle, and revives no retired session; undisturbed on the stored version it is exactly one pass. |
| Reconcilers.Cluster.HandleDeletion | internal/operator/session_reconciler.go:108-131 | From the point where a marked session was read, its calls are exactly protocol steps that end with the worker idle. |
| Reconcilers.Cluster.ReconcilePending | internal/operator/session_reconciler.go:133-177 | Likewise for finalizer, config lookup, placement and the Creating write. |
| Reconcilers.Cluster.AddFinalizer | internal/operator/session_reconciler.go:134-139 | The update lands only on the version read; the caller goes on with that version plus the finalizer and a new resource version. |
| Reconcilers.Cluster.Assign | internal/operator/session_reconciler.go:155-176 | A write that lands carries the assignment to the best-fit pod, with the expiry counted from a moment during the call; without a pod nothing is written. |
| Reconcilers.Cluster.ReconcileCreating | internal/operator/session_reconciler.go:179-235 | A write that lands is Deleting without the config, Running on success, Pending without assignment on a stale route, and there is none on other errors; success is turned into a refusal only if the controller already holds the id. |
| Reconcilers.Cluster.CreateSandbox | internal/operator/session_reconciler.go:193-234 | The create call's part of the same. |
| Reconcilers.Cluster.ReconcileRunning | internal/operator/session_reconciler.go:237-270 | A write that lands has the later of the old expiry and last use plus TTL, and is Deleting only past that; undisturbed, the session ends with that expiry and is Deleting exactly if the time is past it. |
| Reconcilers.Cluster.Slide | internal/operator/session_reconciler.go:243-256 | The sliding part of the same, with the version the caller goes on with. |
| Reconcilers.Cluster.ReconcileDeleting | internal/operator/session_reconciler.go:272-297 | Likewise for the delete call and the Terminated write. |
| Reconcilers.Cluster.ReconcileTerminated | internal/operator/session_reconciler.go:299-320 | Likewise for retention and the final delete. |
| Reconcilers.Cluster.UpdateStatus | internal/operator/session_reconciler.go:170-173 | A successful status write leaves exactly the given status on the stored object; a failed one ends the reconcile. |
| Reconcilers.Cluster.ReconcileConfig | internal/operator/sandbox_config_reconciler.go:33-52 | Under any interference a config reconcile extends the run, reads the config once, obeys its calls and ends at rest. |
| Reconcilers.Cluster.EvictSessions | internal/operator/sandbox_config_reconciler.go:54-88 | Unless a call fails, the last step drops the finalizer if and only if no listed session is in the way; undisturbed with a current listing, every unmarked session of the config that is not Terminated is Deleting afterwards. |
| Reconcilers.Cluster.EvictAll | internal/operator/sandbox_config_reconciler.go:63-80 | The loop counts some exactly if a listed session is in the way; undisturbed, exactly the listed sessions that are unmarked and neither Terminated nor Deleting have moved to Deleting. |
| Evictions.PatchListExactly | internal/operator/sandbox_config_reconciler.go:64-80 | The patch list is exactly the listed sessions that are unmarked and neither Terminated nor Deleting, in list order. |
| Evictions.MarkedConfigPass | internal/operator/sandbox_config_reconciler.go:54-88 | An undisturbed reconcile of a marked config: if an unmarked session of it is not Terminated, exactly those sessions are Deleting afterwards and the config stays; otherwise the config goes and no session changes. |
| Evictions.KeptConfigPass | internal/operator/sandbox_config_reconciler.go:42-49 | Of other configs: a missing finalizer is added, and an unmarked config is left alone. |
| Reconcilers.Cluster.EvictOne | internal/operator/sandbox_config_reconciler.go:64-80 | One round counts a session exactly if it is neither Terminated nor marked; undisturbed, it moves exactly that session to Deleting if it is counted and not Deleting yet. |
| Scaling.ReplicasStayBounded | internal/operator/session_reconciler.go:406-442 | Every interleaving of scaling up and down with stale reads keeps replicas in [min, max], and the count is the initial one plus the landed ups minus the landed downs. |
| Scaling.UndisturbedScaling | internal/operator/session_reconciler.go:406-442 | Undisturbed, scaling up adds one replica below the maximum and none at it, and a scale-down write takes one above the floor. |
| Scaling.SortByName | internal/operator/session_scaler.go:70-72 | The pods are a permutation of the listing with names descending as strings. |
| Scaling.LessExactly | internal/operator/session_scaler.go:70-72 | The string order of the sort: the shorter prefix, or the smaller char at the first difference, comes first. |
| Scaling.TryScaleDown | internal/operator/session_scaler.go:32-96 | A pass whose updates succeed removes min(current - min, n) replicas, n being the pods past their cooldown whose sessions are all Terminated or Deleting; failures only leave more. |
| Scaling.IdleExactly | internal/operator/session_scaler.go:78-83 | A pod is counted exactly if its cooldown is over and all its sessions are Terminated or Deleting. |
| Scaling.EnoughReplicasRemain | internal/operator/session_scaler.go:74-93 | If no more pods are listed than replicas exist, a replica remains for every pod with active sessions. |
| Scaling.TopOrdinalsAreSafe | internal/operator/session_scaler.go:74-93 | If the idle pods are the top ordinals, no pod with active sessions is removed. |
| Scaling.SparesBusyPodsExactly | internal/operator/session_scaler.go:74-93 | With all cooldowns over and the floor not reached, busy pods are spared if and only if the idle pods are the top ordinals. |
| Scaling.BusyPodRemoved | internal/operator/session_scaler.go:74-93 | Two pods, the lower idle and the upper busy: the pass removes the busy one. |
| LimitWriter.Writer.Write | internal/nsjail/adapter.go:360-377 | The buffer grows to the limit and no further, and the returned count is short exactly on the write that straddles the limit. |
| LimitWriter.CapturedIsLimited | internal/nsjail/adapter.go:360-379 | After any writes the buffer is the first min(limit, total) bytes of their concatenation, all of it without a limit. |
| LimitWriter.ShortCountsExactly | internal/nsjail/adapter.go:365-377 | At most one write is short, and none is exactly if there is no limit, the output fits, or the limit falls between two writes. |
| LimitWriter.TruncateIsIdentity | cmd/boxy-controller/server.go:496-506 | With both limits equal the server's cut is the identity on captured output. |
| LimitWriter.TruncateBoundExactly | cmd/boxy-controller/server.go:496-506 | On longer output the result is its beginning and the notice, or the notice alone, and respects the limit exactly if the limit leaves room for the notice. |
| Streaming.RunKeepsInv | internal/nsjail/adapter.go:254-316 | In every interleaving of the two drains: bytes are accounted for between read, lock, buffer and event, and announcements sent plus owed are one if truncated and zero otherwise. |
| Streaming.EventsArePrefixes | internal/nsjail/adapter.go:254-316 | At every moment each stream's events are a prefix of its buffer and of what was read, within the shared budget. |
| Streaming.StreamsAddUp | internal/nsjail/adapter.go:254-316 | On return the events equal the returned buffers, together min(bytes read, budget) bytes, with exactly one truncated event if the bytes read reached the budget and none otherwise. |
| Streaming.AtMostOneAfterAnnouncement | internal/nsjail/adapter.go:270-299 | At most one data event follows the truncated event. |
| Streaming.DataAfterAnnouncement | internal/nsjail/adapter.go:270-299 | An interleaving in which one does. |
| Streaming.DataAfterAnnouncementExactly | internal/nsjail/adapter.go:270-299 | When the call has returned, what follows the truncated event is exactly the chunk the other drain had in hand when it was sent, so no data follows if and only if there was none. |
| Streaming.ResponseRepeatsEvents | internal/nsjail/adapter.go:326-358 | The response repeats the events if the command was waited for without an error or with an exit status; after any other error it is a time-out without output or an internal error. |
| Drains.Command.TakeBudget | internal/nsjail/adapter.go:273-292 | The lock section's variables agree with the shared budget: what it sends and whether it announces is what the step system takes next. |
| Drains.Command.Handle | internal/nsjail/adapter.go:270-301 | Amid any steps of the other drain, a chunk is taken whole and handled to the end of the round. |
| Drains.Command.DrainPipe | internal/nsjail/adapter.go:266-306 | The loop ends, has taken every byte of its pipe in order, extends the run, and its events are its buffer, a prefix of the pipe. |
| Utf8.CharIsEncoding | cmd/boxy-controller/server.go:486-494 | What the grammar of section 4 of RFC 3629 accepts as a character is the encoding of a scalar value by the table in section 3. |
| Utf8.EncodingIsChar | cmd/boxy-controller/server.go:486-494 | Every such encoding is accepted as one character. |
| Utf8.WholeCharsIsLongest | cmd/boxy-controller/server.go:486-494 | The whole characters from the front form the longest valid prefix. |
| Utf8.CutLeavesAtMostThree | cmd/boxy-controller/server.go:486-494 | A cut of a valid text ends in at most three bytes of a character. |
| Utf8.TrimPartialRune | cmd/boxy-controller/server.go:486-494 | The result is valid exactly if at most three bytes follow the longest valid prefix of the input. |
| ExecResponse.ReadSucceedsExactly | internal/nsjail/adapter.go:326-404 | A file read succeeds exactly if the command does and no write of its output straddles the limit, and then hands over the file up to the limit. |
| ExecResponse.OneWriteFails | internal/nsjail/adapter.go:365-377 | A file beyond the limit that arrives in one write cannot be read. |
| Utf8.FileRead | cmd/boxy-controller/server.go:380-398 | The handler's branches compute the specified answer, failed reads included. |
| Utf8.AnswersExactly | cmd/boxy-controller/server.go:380-398 | Every answer, told by the bytes: below the limit the file itself without notice, or not text; from the limit on with the notice, and not text exactly if more than three bytes follow every valid prefix. |
| Utf8.ValidFilesStayText | cmd/boxy-controller/server.go:380-398 | A valid UTF-8 file is never reported as something else; the answer is text exactly if the read succeeds, and then the longest valid prefix of what the limit lets through, at most three bytes shorter. |
| FileEdit.SandboxFile.Read | internal/nsjail/adapter.go:393-404 | Reading fails exactly if the command does or a write straddles the limit; otherwise it returns the limited content and reports truncation exactly if the content reaches the limit. |
| FileEdit.SandboxFile.EditFile | internal/nsjail/adapter.go:419-450 | Each outcome exactly when it occurs, and what it means for the file: the first occurrence replaced, or all found from the left with their number and the new length, or nothing changed. |
| FileEdit.EditIsMeant | internal/nsjail/adapter.go:420-449 | The same of an edit whose read and write succeed, for single edits and for all occurrences. |
| FileEdit.CountIsUpperBound | internal/nsjail/adapter.go:430-437 | No choice of pairwise disjoint occurrences is larger than the reported count. |
| FileEdit.CountIsAttained | internal/nsjail/adapter.go:430-437 | Some choice is as large, so the count is the maximum. |
| FileEdit.SplitJoins | internal/nsjail/adapter.go:439-440 | Splitting at the old string and joining with the new one is replacing all, joining with the old one restores the file. |
| FileEdit.PiecesAreFree | internal/nsjail/adapter.go:439-440 | None of the pieces kept contains the old string. |
| FileEdit.SplitIsLeftmost | internal/nsjail/adapter.go:439-440 | Each piece ends at the first occurrence of the old string after it. |
| FileEdit.SplitIsOnly | internal/nsjail/adapter.go:439-440 | There is only one way to cut the file like that, so which occurrences are replaced is settled. |
| FileEdit.ReplaceAllLength | internal/nsjail/adapter.go:439-440 | Replacing all changes the length by count times the difference of the two strings. |
| FileEdit.OthersOverlap | internal/nsjail/adapter.go:431-437 | When the count is one, every other occurrence overlaps the first. |
| FileEdit.SingleEdit | internal/nsjail/adapter.go:431-443 | A successful single edit turns a + old + b into a + new + b at the first occurrence. |
| FileEdit.ReverseEditExactly | internal/nsjail/adapter.go:419-450 | The reverse edit restores the file if and only if the new string is not empty, the result is below the read limit, and the new string has one disjoint match that begins at the edit. |
| FileEdit.UniqueEditsReverse | internal/nsjail/adapter.go:419-450 | In particular when the new string occurs at exactly one position of the result. |
| Registry.NameIsOneComponent | internal/api/validate.go:159-167 | A valid name adds exactly one component to the cleaned root, so it cannot lead elsewhere. |
| Registry.NamesAreApart | internal/api/validate.go:159-167 | Directories of different valid names do not contain one another. |
| Registry.OthersFilesUntouched | internal/nsjail/adapter.go:73-119 | No step of a call on one id creates or removes a file or registration of another. |
| Registry.RunKeepsInv | internal/nsjail/adapter.go:73-119 | In every interleaving whose overlaps on one id are all deletes or all creates without a setup hook, each call in flight finds the registration and files its position requires. |
| Registry.RegisteredHasDirs | internal/nsjail/adapter.go:73-119 | In every such interleaving a registered sandbox has root/id/workspace and root/id/bin at every moment. |
| Registry.OverlapsKeepDirsExactly | internal/nsjail/adapter.go:73-119 | Allowing calls on one id to overlap in some pairs of kinds keeps the directories in every run if and only if each pair is two deletes or two creates without a setup hook. |
| Registry.HookedCreateLoses | internal/nsjail/adapter.go:107-117 | A create with a setup hook that overlaps another create, in either order, can leave the id registered without its directories. |
| Registry.DeletionLoses | internal/nsjail/adapter.go:459-482 | So can a delete that overlaps a create, in either order. |
| Registry.RunIsExclusive | internal/nsjail/adapter.go:78-115 | In every interleaving, whatever overlaps, only the call that holds the mutex is in a locked section. |
| Sandboxes.Adapter.Create | internal/nsjail/adapter.go:73-119 | Amid any other calls: success and conflict mean the id is registered, the call fails at the first of its steps that fails and is done if none does, a failure after the first directory leaves no files, and with compatible overlaps a created sandbox has its directories. |
| Sandboxes.Adapter.CopyAndRegister | internal/nsjail/adapter.go:96-118 | The outcome follows the copying and the hook, a failure leaves no files, and without a hook the id is registered in the same locked section. |
| Sandboxes.Adapter.MakeDirectories | internal/nsjail/adapter.go:85-95 | The mutex stays held across both directories, and is given up with the call at the first that fails; if that is the second, no files are left. |
| Sandboxes.Adapter.RunSetup | internal/nsjail/adapter.go:107-118 | The hook's outcome decides the call's; after a failed hook nothing is left below the base directory. |
| Sandboxes.Adapter.Delete | internal/nsjail/adapter.go:459-482 | Not found means unregistered, and a finished delete leaves nothing below the base directory. |
| TokenCache.TokenReviewer.Authenticate | internal/router/auth.go:44-80 | The development token never touches the cache, an unexpired entry answers without a review, and only a granted review is stored. |
| TokenCache.TokenReviewer.Evict | internal/router/auth.go:146-163 | An eviction round removes exactly the expired entries. |
| TokenCache.EvictionIsInvisible | internal/router/auth.go:44-163 | Deleting all eviction steps from any run changes no answer. |
| TokenCache.FreshReviewsAnswer | internal/router/auth.go:51-60 | In every run a token whose granted review was stored less than a TTL ago is answered from the cache. |
| TokenCache.CachedAnswersAreJustified | internal/router/auth.go:44-80 | Without key collisions, every cached success was stored for that token by a granted review less than a TTL ago. |
| TokenCache.CacheIsSoundExactly | internal/router/auth.go:44-80 | That holds in all runs if and only if no two tokens share a key or the TTL is not positive, which the program's ticker rules out. |
| Environment.BuildEnvar | internal/nsjail/adapter.go:630-639 | The three loops emit defaults, sandbox entries and call entries, for any map iteration order. |
| Environment.EntryMeansPair | internal/nsjail/adapter.go:634-639 | Splitting an entry at its first '=' gives back key and value if the key has no '='. |
| Environment.LayeringExactly | internal/nsjail/adapter.go:630-639 | For all iteration orders, last-wins reading gives the defaults overridden by the sandbox map overridden by the call map, if and only if no key contains '='. |
| Environment.BlockedExactly | internal/api/validate.go:182-191 | A key is blocked exactly if, after any white space, it begins with KUBERNETES_ or BOXY_, letter for letter in either case. |
| Environment.AcceptedExactly | internal/api/validate.go:50-57 | Maps are accepted exactly if they keep the limit on keys and no key contains '=', is blank or is blocked in that sense. |
| Environment.ValidatedNamesAreAllowed | internal/api/validate.go:182-191 | For validated maps no effective key, after any white space, begins with KUBERNETES_ or BOXY_ in any spelling, and each comes from a map or a default. |
| NsjailConfig.ProtoString | internal/nsjail/nsjail_config.go:58-80 | The byte loop builds the escaped literal. |
| NsjailConfig.ReadEscaped | internal/nsjail/nsjail_config.go:58-80 | Reading a literal from its print followed by anything returns the string and what follows, for every byte string. |
| NsjailConfig.EscapedIsPlain | internal/nsjail/nsjail_config.go:58-80 | A printed literal has no control characters. |
| NsjailConfig.Decimal | internal/nsjail/nsjail_config.go:100-102 | A printed number has only digits and no leading zero, which a reader would take for octal. |
| NsjailConfig.DecimalMeans | internal/nsjail/nsjail_config.go:100-102 | A printed number reads back as that number. |
| TextFormat.AllTokensParse | internal/nsjail/nsjail_config.go:82-197 | The parser gives back every message, nested ones included, from its tokens. |
| TextFormat.LexAppend | internal/nsjail/nsjail_config.go:82-197 | A text that ends in white space can be read in parts: nothing written later changes how it is read. |
| NsjailConfig.Builder.Line | internal/nsjail/nsjail_config.go:92-141 | Writing a scalar field appends exactly that field to what a reader sees, or nothing if it is absent. |
| NsjailConfig.Builder.Block | internal/nsjail/nsjail_config.go:137-169 | Likewise for a message around the text of its own fields. |
| NsjailConfig.WriteEnvars | internal/nsjail/nsjail_config.go:142-144 | The loop adds one field per environment entry, in order. |
| NsjailConfig.WriteMounts | internal/nsjail/nsjail_config.go:153-169 | The loop adds one message per mount, in order. |
| NsjailConfig.ToTextProto | internal/nsjail/nsjail_config.go:82-197 | Parsing the printed text gives exactly the abstract message of the configuration, for all field contents, and a reader that knows the field names rebuilds the configuration from it. |
| NsjailMessage.RebuildUndoes | internal/nsjail/nsjail_config.go:82-197 | Looking every field up by its name in the message gives back the whole configuration, its root file system as the first mount. |
| NsjailMessage.HeadByName | internal/nsjail/nsjail_config.go:85-102 | Under mode, log_file, hostname, cwd and time_limit a reader finds exactly those settings, empty and zero ones absent. |
| NsjailMessage.ClonesByName | internal/nsjail/nsjail_config.go:104-112 | Likewise for the clone flags. |
| NsjailMessage.LimitsByName | internal/nsjail/nsjail_config.go:113-136 | Likewise for the memory limit and the resource limits. |
| NsjailMessage.UsersByName | internal/nsjail/nsjail_config.go:137-141 | Likewise for the two id maps. |
| NsjailMessage.NetByName | internal/nsjail/nsjail_config.go:170-188 | Likewise for the seccomp policy and the interface. |
| NsjailMessage.TailByName | internal/nsjail/nsjail_config.go:189-194 | Likewise for pasta and the port. |
| NsjailMessage.MountByName | internal/nsjail/nsjail_config.go:153-169 | Likewise for src, dst, fstype, rw and is_bind inside a mount. |
| NsjailMessage.EnvarsInOrder | internal/nsjail/nsjail_config.go:142-144 | A reader collects exactly the configured environment entries, in order. |
| NsjailMessage.RootMountsFirst | internal/nsjail/nsjail_config.go:145-169 | A reader collects the root file system first, if there is one, then the configured mounts in order. |

## Left out

- HTTP, TLS, JSON and MCP plumbing of router, controller and client; streaming is stated for the events handed to the callback, before JSON encoding.
- Sandboxes.Adapter.Create: a call that never gets the mutex is reported as waiting when the schedule ends; that the mutex is fair is not modelled.
- Process spawning, pseudo-terminals, hook scripts and real file-system calls appear only as outcomes; a failed MkdirAll is taken to leave nothing, RemoveAll to succeed, and hooks not to touch sandbox base directories.
- Liveness and requeue timing: a create call answered with 409 is retried without end, so no theorem says that Creating leads to Running.
- Kubernetes internals beyond resource versions, finalizers, deletion marks and stale reads: no leader election, no informers, no manual edits of status or finalizers, and one session worker, as the manager is set up.
- A request of an operator process that died does not arrive later, after its successor has started.
- Session status fields Port, Pool, CreatedAt and Message, which no modelled branch reads.
- Per-handler authorization and semaphores, metrics, telemetry, cgroup reading, environment-variable parsing of the operator, Helm charts and scripts.
- internal/operator/pool_reconciler.go and the session resolution of internal/router/mcp.go, which would add only easy members.
- The mounts that buildNsjailConfig chooses and its resource arithmetic; the printer is proved for all mounts and numbers instead.
- Unsigned widths of the nsjail configuration's numbers: the printer is proved for all natural numbers.
- Scaling.ReplicasStayBounded models the two scalers as steps on values, because it is about their interleavings; one scale-down pass is a method.
- Scaling.SparesBusyPodsExactly is stated with the cooldowns over and the floor not reached; Scaling.TopOrdinalsAreSafe holds without these conditions.
- Environment.ValidatedNamesAreAllowed: upper-casing models the letters whose upper case is ASCII; other letters are left as they are, which cannot produce either blocked prefix.
- ExecResponse.ReadSucceedsExactly: a short count is taken to end the copying with an error, as io.Copy documents; other failures of running a command are one flag.
