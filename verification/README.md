# pvetui: verified models of its self-contained algorithms

pvetui is a terminal interface and REST client for Proxmox. Most of it is screens and requests; this project models
the algorithms underneath and proves what they are relied on for. Each module follows one part of the program.

| modules | part of the program |
|---|---|
| `Scheduler`, `TaskManagement` | the task manager: a transition system over its lock-held sections, and the object whose methods are proved to take those steps |
| `CacheModel`, `CacheReload`, `FileCaching` | the LRU/TTL cache on values, its directory of files, and the objects updated in place; the Badger cache beside it |
| `EnrichPipeline` | the worker pipeline that enriches guests: bounded channels, five workers, a collector and a wait group |
| `CommandTemplate`, `FilledTemplates` | command templates: parsing, filling, the greedy whitelist matcher, and what it says of filled templates |
| `ShellQuote` | the shell quoters, and the part of the POSIX shell's tokenizer that must undo them |
| `Inventory`, `InventoryBuild` | the Ansible inventory: shared variables, aliases, identifiers, groups and the document |
| `DiskSize`, `DiskUnits` | the disk sizes that the mock server prints and the client parses, what the size texts mean, and what an allocation asks for |
| `MockTasks`, `MockServer`, `MockDisks` | the mock Proxmox server: asynchronous tasks, storage accounting, the id allocator, and disks over runs of it |
| `ClusterFailover` | the cluster client's failover ring |
| `GroupMerge` | merging what the profiles of a group report |
| `Text` | the operations of Go's `strings`, `strconv` and `sort` that the above call |

## How the models are built

Concurrency is modelled as steps. A section that holds a lock is one atomic step, and a run is any sequence of enabled
steps, so a statement about all runs covers every interleaving. Objects that the program updates in place are classes;
each method's postcondition says which step of the value model, or which function of the old state, it is. Ghost fields
hold histories only (who arrived, who was started, what ran). Clocks, identifiers, replies of remote calls and the order
in which Go visits a map are arbitrary inputs or arbitrary choices.

The invariants carry the weight. The scheduler's fast path never looks at the queue of its key: `Scheduler.Inv` shows
that this is sound only because a key never waits while both its own slot and some slot are free, and that one dequeue
per completion restores this. The storage accounts hold because every path that changes volumes recalculates. The
pipeline is free of panics because the wait group counts exactly the workers that have not left.

Some promises do not hold on every input. In each case the code is modelled as it is:

- A template with parameters but no literal makes the matcher index an empty list and panic;
  `FilledTemplates.FilledVerdict` gives the verdict for every well-formed template.
- Braces are not among the refused characters, so a placeholder that a value brings along, or opens, is filled in its
  turn. Filling one parameter after the other is filling all at once exactly for the values without an opening brace
  (`CommandTemplate.FilledAtOnceIff`). A brace that a value leaves open can even swallow a literal, so that the whitelist
  refuses its own template; this cannot happen exactly when the value closes its opening braces
  (`FilledTemplates.AlwaysAcceptedIff`).
- A storage whose name begins with `size=` hides the size from the client, and a resize then overwrites the volume's
  identifier. The size of an allocated volume reads back after every sequence of resizes exactly when its identifier
  holds no comma and does not name a size (`DiskSize.SizeRoundTrip`, `DiskSize.ResizeKeepsVolume`);
  `DiskSize.ReplacedSizeReadsBack` says for which configurations at all a rewritten size reads back.
- The merge keeps the first eligible copy it sees: of a node the first online one, of a placeholder or a guest simply
  the first. What is kept is independent of timing exactly when all eligible copies look alike, so a guest that two
  profiles report gets its source profile by timing (`GroupMerge.NodeTiming`, `GroupMerge.GuestTiming`,
  `GroupMerge.PlaceholderTiming`).
- The comment on `FindVMByIDInGroup` promises an ambiguity error whenever two profiles hold the number. The merge before
  it has already collapsed reports of the same kind, number and node, so two profiles of one cluster are no ambiguity
  (`GroupMerge.SearchIsExact`, `GroupMerge.PlainReports`).
- Times to live are cut to whole seconds, so an item never expires exactly when it has less than one
  (`CacheModel.NeverExpires`).
- Task identifiers of the mock server have a resolution of one second. A task overwritten by a later one with the same
  identifier never runs its completion (`MockTasks.CompletionRunsExactlyWhenDue`), and there are such runs
  (`MockTasks.OverwrittenRun`).

## Model

| member | source | states |
|---|---|---|
| `Scheduler.FastPathOnlyWhenQueueEmpty` | internal/taskmanager/manager.go:117-125 | a new task starts at once only when nothing of its key is queued |
| `Scheduler.EnqueueKeepsInv` | internal/taskmanager/manager.go:104-126 | enqueuing keeps the whole invariant: cap, work conservation, slot ownership, per-key order |
| `Scheduler.CompleteFreesOwnSlot` | internal/taskmanager/manager.go:214-217 | the unconditional delete by key removes the finishing task itself, and no other goroutine works for that key |
| `Scheduler.FreedSlot` | internal/taskmanager/manager.go:214-220 | after the delete and before the dequeue, only the freed key may be startable unless every slot was taken |
| `Scheduler.CompleteKeepsInv` | internal/taskmanager/manager.go:208-281 | one dequeue per completion restores work conservation and keeps everything else |
| `Scheduler.FreedSlotGoesTo` | internal/taskmanager/manager.go:236-281 | a freed slot goes to the next task of its own key, and else to the head of the queue that comes first in dictionary order among the keys without a slot |
| `Scheduler.EndsAs` | internal/taskmanager/manager.go:148-201 | a task ends well exactly on an empty identifier or the exit status OK, and badly on an error or any other exit status |
| `Scheduler.CancelKeepsInv` | internal/taskmanager/manager.go:286-304 | removing a queued task keeps the invariant, for that key and all others |
| `Scheduler.StepKeepsInv` | internal/taskmanager/manager.go:97-304 | every lock-held section keeps the invariant |
| `Scheduler.RunsKeepInv` | internal/taskmanager/manager.go:97-304 | at most `maxRunning` active tasks, no empty queue stored, and no key waiting beside a free slot of its own, in every state of every run |
| `Scheduler.NoOvertaking` | internal/taskmanager/manager.go:245-256 | when a task has started, every task of its key enqueued before it started before it or was cancelled |
| `Scheduler.SamePosition` | internal/taskmanager/manager.go:245-256 | what a key started before a task is exactly what it enqueued before it and did not cancel, in that order |
| `Scheduler.ExactlyOnePlace` | internal/taskmanager/manager.go:117-125 | every enqueued task is cancelled, or queued once under its own key, or started, and exactly one of these; it holds a slot exactly while its goroutine has not finished |
| `Scheduler.CancelledNeverStarts` | internal/taskmanager/manager.go:286-301 | a task that is ever cancelled has no goroutine before or after, in any run |
| `Scheduler.ProgressDecreases` | internal/taskmanager/manager.go:137-233 | starting, finishing and cancelling each lower a measure on queued and active work |
| `Scheduler.NeverStuck` | internal/taskmanager/manager.go:137-233 | while anything is queued or active and `Stop` was not called, some goroutine has a step that makes progress |
| `Scheduler.Drains` | internal/taskmanager/manager.go:137-281 | without new work, progress ends within the measure, and when none is left every queue is empty and every slot free |
| `TaskManagement.TaskKeyInjective` | internal/taskmanager/manager.go:93-95 | two targets share a key exactly when node and number are equal, although node names may hold slashes |
| `TaskManagement.TaskManager.constructor` | internal/taskmanager/manager.go:78-91 | an empty manager that satisfies the invariant; a cap below one becomes three |
| `TaskManagement.TaskManager.Enqueue` | internal/taskmanager/manager.go:97-126 | nil changes nothing; otherwise a fresh clone takes the enqueue step, and it is handed out to run exactly on the fast path |
| `TaskManagement.TaskManager.BeginRun` | internal/taskmanager/manager.go:139-142 | the goroutine moves on, the task shows that it is running, and the invariant stays |
| `TaskManagement.TaskManager.StoreUpid` | internal/taskmanager/manager.go:162-164 | the identifier is stored, the goroutine polls, and the invariant stays |
| `TaskManagement.TaskManager.CompleteTask` | internal/taskmanager/manager.go:208-221 | the whole completion step; the task returned to run is the one the freed slot went to |
| `TaskManagement.TaskManager.DequeueNextStartable` | internal/taskmanager/manager.go:236-281 | starts the preferred key's head if it can, else that of the least startable key, else nothing, and nothing at the cap |
| `TaskManagement.TaskManager.TryStartForKey` | internal/taskmanager/manager.go:241-257 | starts the head of a queue exactly when its key has no slot and its queue is not empty |
| `TaskManagement.TaskManager.CancelTask` | internal/taskmanager/manager.go:283-340 | a queued task of that identifier is removed; otherwise nothing changes, no queued task has it, and the answer tells an active task with an identifier, one still starting, and none apart |
| `TaskManagement.TaskManager.Stop` | internal/taskmanager/manager.go:375-377 | the stop step, keeping the invariant |
| `CacheModel.StepKeepsDistinct` | internal/cache/cache.go:142-318 | no operation makes a key stand twice in the recency list |
| `CacheModel.RunInv` | internal/cache/cache.go:218-220 | over any run the list has distinct keys and never outgrows the larger of the bound and what was loaded |
| `CacheModel.SizeBound` | internal/cache/cache.go:132-135 | one operation never outgrows the bound or what was already there |
| `CacheModel.SetIsKept` | internal/cache/cache.go:207-221 | the entry just set is first in the list and is never the one evicted |
| `CacheModel.NothingEvicted` | internal/cache/cache.go:207-221 | nothing is evicted while there is room or when a present key is set anew |
| `CacheModel.FoundAfterSet` | internal/cache/cache.go:158-204 | an item is found after it was set exactly within its whole seconds, or at any clock when it has none |
| `CacheModel.NeverExpires` | internal/cache/cache.go:200-204 | an item never expires if and only if its time to live is under one second |
| `CacheModel.ListIsRecencyOrder` | internal/cache/cache.go:175-176 | after any run on any cache, loaded entries included, an entry stands before another exactly when its last hit or set was later, entries not used since loading keeping their order at the end |
| `CacheModel.EvictsLeastRecentlyUsed` | internal/cache/cache.go:245-254 | a set of a new key into a full or overfull cache drops the entry whose last use was earliest, and nothing else |
| `CacheModel.StepKeepsCover` | internal/cache/cache.go:142-288 | one operation on a small and a large cache keeps the small list a subsequence of the large one and a hit of the small one a hit of the large one |
| `CacheModel.Inclusion` | internal/cache/cache.go:142-318 | fed the same operations and clocks from empty, every hit of the smaller cache is a hit of the larger with the same value, and their sizes differ by at most the difference of the bounds |
| `CacheReload.StepKeepsSynced` | internal/cache/cache.go:158-314 | after every operation of a persisted cache the readable `.json` files are exactly the entries in memory |
| `CacheReload.OnlyCacheFiles` | internal/cache/cache.go:306-314 | over any run no file without the `.json` ending is touched, and none at all by a cache that is not persisted |
| `CacheReload.OpenedSynced` | internal/cache/cache.go:93-139 | opening any directory leaves memory and files equal |
| `CacheReload.LoadedLookup` | internal/cache/cache.go:99-136 | loading finds exactly the readable, unexpired `.json` files, whatever the listing order |
| `CacheReload.RunSynced` | internal/cache/cache.go:142-318 | memory and files agree after any run on any opened directory |
| `CacheReload.Reload` | internal/cache/cache.go:93-139 | a fresh cache over the directory of any run holds exactly the entries not expired by then, with the same items |
| `CacheReload.UnboundedEqualsBadger` | internal/cache/badger_cache.go:152-257 | an unbounded file cache and the Badger cache answer every operation sequence alike |
| `FileCaching.FileCache.constructor` | internal/cache/cache.go:67-90 | a memory cache starts empty; a persisted one holds what some listing of its directory loads |
| `FileCaching.FileCache.LoadFile` | internal/cache/cache.go:100-135 | one directory entry: loaded to the front, deleted when expired, or skipped |
| `FileCaching.FileCache.Get` | internal/cache/cache.go:142-186 | map, list and files take the get step and the answer is the model's |
| `FileCaching.FileCache.Set` | internal/cache/cache.go:189-241 | map, list and files take the set step, eviction included |
| `FileCaching.FileCache.EvictLru` | internal/cache/cache.go:245-264 | the last element leaves the list, the map and the directory |
| `FileCaching.FileCache.Delete` | internal/cache/cache.go:267-288 | the key leaves the list, the map and the directory |
| `FileCaching.FileCache.Clear` | internal/cache/cache.go:291-318 | nothing is left in memory and no `.json` file on disk; other files stay |
| `FileCaching.BadgerCache.Get` | internal/cache/badger_cache.go:152-202 | a miss or an expired item is deleted and not found; a hit changes nothing |
| `FileCaching.BadgerCache.Set` | internal/cache/badger_cache.go:205-236 | the item is stored under its key with the truncated time to live |
| `EnrichPipeline.StepKeepsOrder` | pkg/api/vm_enrich.go:36-95 | no step sends on or closes a closed channel or takes the wait group below zero, and both channels stay within capacity |
| `EnrichPipeline.StepConserves` | pkg/api/vm_enrich.go:53-72 | every queued machine is in the channel, with one worker or handled, and every failure in the channel, with one worker or collected, each in one place once |
| `EnrichPipeline.StepKeepsValues` | pkg/api/vm_enrich.go:54-68 | a handled machine shows the disk figures of its own report, where a zero gives way to the known positive figure; the others are untouched |
| `EnrichPipeline.StepDecreases` | pkg/api/vm_enrich.go:36-95 | every step lowers a measure |
| `EnrichPipeline.NeverStuck` | pkg/api/vm_enrich.go:36-95 | until the function returns, some goroutine can move |
| `EnrichPipeline.RunsAreSafe` | pkg/api/vm_enrich.go:11-73 | no interleaving panics, every run is finite with a stated bound, there are five workers, and the channels never hold more than a hundred |
| `EnrichPipeline.RunsReturn` | pkg/api/vm_enrich.go:92-95 | a run that can go no further has returned |
| `EnrichPipeline.ReturnedMeansDone` | pkg/api/vm_enrich.go:54-101 | at return every queued machine was handled exactly once and shows its report, and the collected errors are exactly the failures |
| `EnrichPipeline.RunningHandledOnce` | pkg/api/vm_enrich.go:76-87 | the machines handled are exactly the running ones on online nodes, once for each listing |
| `CommandTemplate.ParseTemplate` | internal/plugins/command-runner/config.go:216-234 | the scan computes the parameters of the specification function |
| `CommandTemplate.ParamsAreNames` | internal/plugins/command-runner/config.go:216-234 | on a well-formed template the parameters are its holes' names, in order |
| `CommandTemplate.ParamsAreInnermost` | internal/plugins/command-runner/config.go:216-234 | on any text the parameters are the brace-free texts that stand between an opening and a closing brace |
| `CommandTemplate.SplitTemplate` | internal/plugins/command-runner/validator.go:101-125 | the scan computes the static parts of the specification function |
| `CommandTemplate.PartsAreLiterals` | internal/plugins/command-runner/validator.go:101-125 | on a well-formed template the static parts are its non-empty literals, in order |
| `CommandTemplate.StaticPartsAreShown` | internal/plugins/command-runner/validator.go:101-125 | on any text the static parts are what stands outside the braces, cut at the opening ones |
| `CommandTemplate.ContainsShellMetachars` | internal/plugins/command-runner/config.go:260-268 | true exactly when some character is one of the eleven refused ones |
| `CommandTemplate.RefusedCharacters` | internal/plugins/command-runner/config.go:261 | which eleven characters these are |
| `CommandTemplate.FillTemplate` | internal/plugins/command-runner/config.go:238-257 | the loop fills parameter by parameter, or reports the first that is missing or refused |
| `CommandTemplate.FillFails` | internal/plugins/command-runner/config.go:241-250 | filling succeeds exactly when every value is there and harmless; otherwise the error names the first parameter for which that fails |
| `CommandTemplate.ReplaceFillsHoles` | internal/plugins/command-runner/config.go:252-253 | replacing a placeholder fills exactly the holes of that name |
| `CommandTemplate.FillIsInstance` | internal/plugins/command-runner/config.go:241-254 | for values without an opening brace, replacing one parameter after the other is filling all at once |
| `CommandTemplate.FilledAtOnceIff` | internal/plugins/command-runner/config.go:241-254 | a harmless value is filled faithfully in every well-formed template if and only if it holds no opening brace |
| `CommandTemplate.GreedyStep` | internal/plugins/command-runner/validator.go:89-93 | taking the leftmost occurrence never loses an embedding |
| `CommandTemplate.EmbedsIffInOrder` | internal/plugins/command-runner/validator.go:83-94 | embedding means that positions exist at which the parts stand in order without overlap |
| `CommandTemplate.MatchesTemplateStructure` | internal/plugins/command-runner/validator.go:74-97 | accepts exactly when the command begins with the first static part and all parts embed; panics exactly when there is no part |
| `CommandTemplate.MatchesPattern` | internal/plugins/command-runner/validator.go:56-71 | a pattern without braces accepts itself only; a well-formed one with holes accepts itself and what begins with its first literal and holds all its literals in order, and panics when it has none |
| `CommandTemplate.ValidateCommand` | internal/plugins/command-runner/validator.go:44-51 | rejected exactly when every pattern rejects, otherwise the verdict of the first that does not; a whitelist of patterns without braces accepts exactly its members |
| `FilledTemplates.FilledVerdict` | internal/plugins/command-runner/executor.go:211-225 | the exact verdict on a template filled with values that close their braces: accepted when the command is the template itself, else a panic without literals, else accepted exactly when it begins with the first literal |
| `FilledTemplates.FilledIsAccepted` | internal/plugins/command-runner/executor.go:211-225 | a filling, with such values, of a well-formed template that begins with a literal is accepted by that template |
| `FilledTemplates.ReplaceInPieces` | internal/plugins/command-runner/config.go:252-253 | a replacement acts on what fills each hole apart and leaves the literals between them alone |
| `FilledTemplates.SwallowingNames` | internal/plugins/command-runner/config.go:252-253 | a brace left open, and everything behind it up to a closing one, vanishes under suitable parameters with empty values |
| `FilledTemplates.AlwaysAcceptedIff` | internal/plugins/command-runner/executor.go:211-225 | a harmless value is accepted in every well-formed template that begins with a literal if and only if it closes its opening braces |
| `ShellQuote.QuoteParts` | internal/plugins/command-runner/ssh_client.go:361-365 | the loop quotes every argument in place |
| `ShellQuote.QuotedArgs` | internal/plugins/command-runner/ssh_client.go:397-399 | tokenizing the joined quoted arguments gives them back, or nothing when one holds a NUL |
| `ShellQuote.RoundTrip` | internal/plugins/command-runner/ssh_client.go:361-366 | the round trip holds if and only if no argument holds a NUL, empty arguments and quotes included |
| `ShellQuote.ContainerCommand` | internal/plugins/command-runner/ssh_client.go:361-369 | the command line built, which the shell reads as the intended argument list |
| `ShellQuote.RootIs` | internal/plugins/command-runner/ssh_client.go:367 | the user counts as root exactly when the name in small letters is `root` |
| `ShellQuote.ContainerArgv` | internal/plugins/command-runner/ssh_client.go:361-369 | the shell reads that line as `pct exec <id> --` with exactly the given arguments, under `sudo` unless the user is root in any letter case |
| `ShellQuote.BuildSshArgs` | internal/ssh/client.go:354-385 | the target alone without a jump host; the proxy command or the jump specification before it otherwise, each reading back as what was configured |
| `ShellQuote.JumpSpecReadsBack` | internal/ssh/client.go:372-379 | ssh reads the jump specification back as the user, address and port |
| `ShellQuote.ProxyArgvRoundTrip` | internal/ssh/client.go:358-370 | the shell reads the proxy command as the argument list it is meant to be, for any key file, user and address without NUL |
| `Inventory.FilterHostVars` | internal/plugins/ansible/inventory.go:324-337 | a host's trimmed non-blank variables without those the shared ones already say |
| `Inventory.ComputeSharedVars` | internal/plugins/ansible/inventory.go:339-363 | the deletions leave the variables on which every host agrees |
| `Inventory.SharedIsMaximal` | internal/plugins/ansible/inventory.go:339-371 | a variable is shared with a value exactly when it is shareable and every host sets that non-blank value |
| `Inventory.SharedKeys` | internal/plugins/ansible/inventory.go:365-371 | hoisted are the variables named `ansible_...`, `ansible_host` excepted, that all hosts set alike and not blank |
| `Inventory.SharedNotRepeated` | internal/plugins/ansible/inventory.go:324-337 | no host repeats a hoisted variable |
| `Inventory.CompactKeepsMeaning` | internal/plugins/ansible/inventory.go:202-221 | shared variables overlaid with a host's rest are exactly that host's variables, and so is the expanded style |
| `Inventory.EffectiveVariables` | internal/plugins/ansible/inventory.go:324-337 | variable by variable: what a host reads is its own non-blank text without the white space around it |
| `Inventory.SomeCandidateFree` | internal/plugins/ansible/inventory.go:448-461 | pigeonhole: not all of the first `len(existing)+1` candidates are taken |
| `Inventory.UniqueAlias` | internal/plugins/ansible/inventory.go:448-461 | the first free candidate, found within `len(existing)+1` probes |
| `Inventory.SecondAlias` | internal/plugins/ansible/inventory.go:453-458 | the base if it is free, and else the base with `_2` if that is |
| `Inventory.SanitizeIdentifier` | internal/plugins/ansible/inventory.go:418-446 | the runs of letters and digits of the lower-case name joined by single underscores, `unknown` when there are none |
| `Inventory.WordsCut` | internal/plugins/ansible/inventory.go:426-438 | words end at every character that is no letter or digit |
| `Inventory.NamelessIsUnknown` | internal/plugins/ansible/inventory.go:441-443 | a name without letters and digits becomes `unknown` |
| `Inventory.SanitizedIsIdentifier` | internal/plugins/ansible/inventory.go:440-445 | the result is always an identifier, and a name that is one already stays as it is |
| `InventoryBuild.MergeInventoryVars` | internal/plugins/ansible/inventory.go:382-390 | exactly the keys that an extra variable names after trimming take one of its trimmed values; blank keys are skipped and the rest stays |
| `InventoryBuild.PushHost` | internal/plugins/ansible/inventory.go:57-62 | the host joins the list and each of its groups, and aliases stay distinct |
| `InventoryBuild.BuildHosts` | internal/plugins/ansible/inventory.go:64-168 | one host per node and per non-template guest with a target, in order, each with its target, groups, variables and the first free alias of its seed; groups hold exactly their members |
| `InventoryBuild.IncludedGuestsAre` | internal/plugins/ansible/inventory.go:108-119 | every guest that is no template and has a name or an address is included as often as it is listed |
| `InventoryBuild.IncludedNodesAre` | internal/plugins/ansible/inventory.go:64-72 | every node with a name or an address is included as often as it is listed |
| `InventoryBuild.TargetIs` | internal/plugins/ansible/inventory.go:407-416 | the target is the address without the white space around it, or the name when the address is blank |
| `InventoryBuild.NodeHostSays` | internal/plugins/ansible/inventory.go:75-91 | what a node's host says, variable by variable, where no inventory variable says otherwise |
| `InventoryBuild.GuestHostSays` | internal/plugins/ansible/inventory.go:124-147 | what a guest's host says, variable by variable, where no inventory variable says otherwise |
| `InventoryBuild.NodeMember` | internal/plugins/ansible/inventory.go:93-98 | which groups a node is in |
| `InventoryBuild.GuestMember` | internal/plugins/ansible/inventory.go:149-160 | which groups a guest is in |
| `InventoryBuild.AliasesBegin` | internal/plugins/ansible/inventory.go:74-122 | an alias begins with the kind of host and its sanitized name, and for a guest its number |
| `InventoryBuild.RenderGroup` | internal/plugins/ansible/inventory.go:276-290 | one row per member of the group, none overwritten |
| `InventoryBuild.BuildInventory` | internal/plugins/ansible/inventory.go:50-176 | in either style the document holds each of those hosts in each of its groups, at least one, with exactly its own variables, and no other host |
| `DiskSize.RewriteSize` | pkg/mockpve/state.go:1452-1464 | the loop replaces every part that starts with `size=`, or one is appended |
| `DiskSize.ParseConfigSizeBytes` | pkg/api/vm_config.go:241-277 | only the first part that names a size is read, with its unit, GiB by default |
| `DiskUnits.ClientReadsBytes` | pkg/api/vm_config.go:254-276 | the client reads a number and a unit as that many bytes, units being powers of 1024 in either letter case, and GiB without one |
| `DiskSize.WholeGibBounds` | pkg/mockpve/state.go:1453-1454 | the printed size is the size rounded toward zero to GiB, and equal to it exactly when whole |
| `DiskSize.TokenReadsBack` | pkg/mockpve/state.go:1453-1454 | a printed size parses to the size rounded to GiB |
| `DiskSize.ReplacedSizeReadsBack` | pkg/mockpve/state.go:1452-1464 | for any configuration text, exactly when the client reads a rewritten size back |
| `DiskSize.VolumeReadsBack` | pkg/mockpve/state.go:1370-1373 | what the client reads from an allocated volume's configuration, whatever its identifier |
| `DiskSize.AllocatedReadsBack` | pkg/mockpve/state.go:1322-1387 | the client reads an allocated volume's size exactly when its identifier does not itself name a size |
| `DiskSize.ResizeKeepsShape` | pkg/mockpve/state.go:1452-1464 | a resize rewrites the size in the configuration and nothing else, unless the identifier starts with `size=` and is overwritten too |
| `DiskSize.ResizeKeepsVolume` | pkg/mockpve/state.go:740-763 | after a resize the server still finds the volume exactly when its identifier does not start with `size=` |
| `DiskSize.SizeRoundTrip` | pkg/mockpve/state.go:740-763 | for any allocation, the size reads back rounded to GiB after every sequence of resizes if and only if the identifier holds no comma and does not name a size |
| `DiskUnits.GrowsOrReplaces` | pkg/mockpve/state.go:1407-1450 | a size text with a plus sign adds that many bytes to the current size, and one without replaces it |
| `DiskUnits.PaddingIgnored` | pkg/mockpve/state.go:1407-1436 | white space around a size text, or between the plus sign and the number, makes no difference |
| `DiskUnits.GrowthsAddUp` | pkg/mockpve/state.go:740-763 | over the life of a volume, growths add up |
| `DiskUnits.AllocatesRequested` | pkg/mockpve/state.go:1322-1387 | a request for so much on a storage allocates that much there, under the name of the guest and the disk |
| `DiskUnits.AllocatesImported` | pkg/mockpve/state.go:1358-1367 | an import takes the size of the volume it names, and fails without it |
| `DiskUnits.LastSettingCounts` | pkg/mockpve/state.go:1348-1356 | of several settings of one name the last one counts, and the others do not matter |
| `DiskUnits.KeepsExisting` | pkg/mockpve/state.go:1323-1331 | a value that already names a volume is kept |
| `MockTasks.StepKeepsAccounts` | pkg/mockpve/state.go:1035-1048 | whenever the lock is free each storage's usage is the sum of its volumes' sizes |
| `MockTasks.AddedUsage` | pkg/mockpve/state.go:952-958 | adding a volume changes the usage of its own storage by its size less that of the one it replaces, and no other |
| `MockTasks.DeletedUsage` | pkg/mockpve/state.go:973-983 | deleting a volume takes its size from the storage where it was found, and from no other |
| `MockTasks.GuestVolumesLeave` | pkg/mockpve/state.go:985-997 | deleting a guest's volumes leaves exactly the others, unchanged, and no empty storage |
| `MockTasks.GuestUsageLeaves` | pkg/mockpve/state.go:985-997 | each storage's usage falls by the sizes of that guest's volumes there |
| `MockTasks.AddedVolumes` | pkg/mockpve/state.go:952-958 | added volumes are stored where they go, the last one of each name, and all others stay as they were |
| `MockTasks.ForcedRestoreReplaces` | pkg/mockpve/state.go:700-709 | after a forced restore the new volumes are stored, the guest has no others, and those of other guests stay as they were unless a new one took their name |
| `MockTasks.StatusChanges` | pkg/mockpve/state.go:457-482 | what starting and stopping do to the status and uptime of a guest, and to nothing else |
| `MockTasks.RequestsActAlone` | pkg/mockpve/state.go:488-517 | deleting and putting a guest, or dropping a backup, touches that one and nothing else |
| `MockTasks.StoredAndDeleted` | pkg/mockpve/state.go:872-925 | a finished download or backup is stored, and deleted content is not found again where it was |
| `MockTasks.CounterMoves` | pkg/mockpve/state.go:698-713 | the number counter passes every created number and never falls |
| `MockTasks.StepKeepsInv` | pkg/mockpve/state.go:406-449 | accounts, one place per task, and completions once each survive every step |
| `MockTasks.RunsKeepInv` | pkg/mockpve/state.go:406-449 | so they hold in every state of every interleaving |
| `MockTasks.HistoryGrows` | pkg/mockpve/state.go:433-449 | an exit status is final, and nothing that ran is forgotten |
| `MockTasks.CompletionRunsExactlyWhenDue` | pkg/mockpve/state.go:433-449 | a completion runs once if its task's first exit status was OK, never otherwise, and never for an overwritten task |
| `MockTasks.OverwrittenRun` | pkg/mockpve/state.go:410-431 | a run in which the second of two tasks under one identifier runs its completion and the first one never does |
| `MockDisks.ResizeAgrees` | pkg/mockpve/state.go:731-765 | a resize changes the volume, the recorded size and the configuration of its disk together |
| `MockDisks.ResizeGrows` | pkg/mockpve/state.go:731-765 | a resize by `+n` and a unit makes the volume that much larger, and one by `n` and a unit that large |
| `MockDisks.StepKeepsAgreement` | pkg/mockpve/state.go:433-449 | every step that does not reach for a disk keeps its volume, recorded size and configuration in agreement |
| `MockDisks.CreationAgrees` | pkg/mockpve/state.go:698-713 | creating a guest puts a disk with a new volume in agreement |
| `MockDisks.RunKeepsAgreement` | pkg/mockpve/state.go:698-765 | over any run in which nothing else reaches for the disk, its size stays in agreement and reads back at the client |
| `MockServer.MockState.StartTask` | pkg/mockpve/state.go:406-431 | the task is recorded under its identifier, overwriting one of the same identifier |
| `MockServer.MockState.MarkStopped` | pkg/mockpve/state.go:433-449 | the completion is handed out exactly when a running task ends with OK |
| `MockServer.MockState.Perform` | pkg/mockpve/state.go:698-949 | each completion's whole effect on guests, volumes, backups and usage |
| `MockServer.MockState.PerformCreate` | pkg/mockpve/state.go:698-713 | the guest and its volumes appear and the next number moves past it; after a forced restore the guest has no other volumes |
| `MockServer.MockState.PerformResize` | pkg/mockpve/state.go:731-765 | volume, configuration and disk size change together, or nothing does |
| `MockServer.MockState.DeleteVolume` | pkg/mockpve/state.go:973-983 | that volume leaves the storage that holds it and nothing else does, and a storage emptied by it leaves the map |
| `MockServer.MockState.DeleteGuestVolumes` | pkg/mockpve/state.go:985-997 | exactly the guest's volumes leave, the others stay as they were, and no storage is left empty |
| `MockServer.MockState.Recalculate` | pkg/mockpve/state.go:1035-1048 | every storage's usage becomes the sum over its volumes |
| `MockServer.IdsBounded` | pkg/mockpve/state.go:519-537 | pigeonhole: consecutive taken numbers are no more than there are guests |
| `MockServer.MockState.GetNextId` | pkg/mockpve/state.go:519-537 | a requested number if it is free; else the least free number from the counter on, within one probe per guest |
| `ClusterFailover.ProbesVisitAll` | pkg/api/cluster_client.go:166-168 | attempts 1 to n visit every candidate exactly once, also from index -1, and the active one last |
| `ClusterFailover.ClusterClient.Initialize` | pkg/api/cluster_client.go:71-109 | connects to the first reachable profile, or leaves the client unconnected; no profile changes nothing |
| `ClusterFailover.ClusterClient.Failover` | pkg/api/cluster_client.go:159-202 | connects to the first reachable candidate in cyclic order; when none is, nothing changes |
| `ClusterFailover.ClusterClient.Close` | pkg/api/cluster_client.go:299-309 | the connection is dropped and the index reset |
| `ClusterFailover.FailoverIsDetermined` | pkg/api/cluster_client.go:159-202 | the outcome is determined, and failover succeeds exactly when some candidate is reachable |
| `ClusterFailover.InitializeIsDetermined` | pkg/api/cluster_client.go:71-109 | the outcome of initializing is determined: the first profile that can be reached, or none |
| `ClusterFailover.RunsStayConsistent` | pkg/api/cluster_client.go:71-309 | over every run a connection names the candidate it belongs to, and without one nothing is named |
| `GroupMerge.DeduplicateNodes` | pkg/api/grouped-cluster.go:11-53 | the loop computes one node per key in order of first appearance: every report is there as itself or as another of the same name and address, and none twice |
| `GroupMerge.NodeKeyIdentifies` | pkg/api/grouped-cluster.go:21-33 | which nodes share a key: placeholders of one identifier, nodes of one name and address, and nodes with neither of one identifier and profile |
| `GroupMerge.BlankVmKeyIdentifies` | pkg/api/grouped-cluster.go:65-67 | guests without kind, number and node share a key exactly when name and profile agree |
| `GroupMerge.DeduplicateVms` | pkg/api/grouped-cluster.go:55-80 | the loop computes the first guest of each key in order of first appearance |
| `GroupMerge.FirstAppearance` | pkg/api/grouped-cluster.go:35-40 | before any copy of a later key stands a copy of each earlier key |
| `GroupMerge.OnlineIfAnyCopyIs` | pkg/api/grouped-cluster.go:42-45 | a merged node is online exactly when some copy is |
| `GroupMerge.TimingIndependent` | pkg/api/grouped-cluster.go:105-110 | for every order of arrival the same keys and the same online flag per key |
| `GroupMerge.GuestsTimingIndependent` | pkg/api/grouped-cluster.go:59-73 | for every order of arrival the same keys of guests; which guest is kept for a key is the next row |
| `GroupMerge.GuestTiming` | pkg/api/grouped-cluster.go:69-72 | what is kept of a guest is independent of arrival exactly when all its copies look alike in it |
| `GroupMerge.NodeTiming` | pkg/api/grouped-cluster.go:35-45 | what is kept of a node is independent of arrival exactly when its online copies, or all of them if none is, look alike in it |
| `GroupMerge.PlaceholderTiming` | pkg/api/grouped-cluster.go:20-28 | a placeholder's online flag is independent of arrival exactly when its copies agree |
| `GroupMerge.MergedKeys` | pkg/api/grouped-cluster.go:48-52 | the merge has each key of its input once, in the same order |
| `GroupMerge.MergeIdempotent` | pkg/api/grouped-cluster.go:11-53 | merging nodes twice changes nothing |
| `GroupMerge.GuestMergeIdempotent` | pkg/api/grouped-cluster.go:55-80 | merging guests twice changes nothing, and each key stays once, in order |
| `GroupMerge.VmKeyIdentifies` | pkg/api/grouped-cluster.go:64-67 | for kinds without a bar, a guest's key determines its kind, number and node, and is determined by them |
| `GroupMerge.FindVmById` | pkg/api/grouped-cluster.go:397-412 | not found, unique or ambiguous, by the number of matches |
| `GroupMerge.SearchIsExact` | pkg/api/grouped-cluster.go:387-412 | in terms of the profiles' reports: nothing exactly when none holds the number, ambiguous exactly when two reports of it differ in key |
| `GroupMerge.PlainReports` | pkg/api/grouped-cluster.go:64-67 | for kinds without a bar, two reports of a number differ in key exactly when they differ in kind or node |

## Left out

- FilledTemplates.FilledIsAccepted: one way, for a given template and given values. `AlwaysAcceptedIff` is exact for a value over all templates.
- FilledTemplates.FilledVerdict: for values that close their braces, likewise.
- DiskSize.AllocatedReadsBack: for identifiers without a comma; with one, the configuration's own separator cuts the identifier, and `SizeRoundTrip` counts that as a failure.
- GroupMerge.VmKeyIdentifies: for kinds without a bar. The client lists only the kinds qemu and lxc (pkg/api/cluster.go:416); other kinds could make keys collide.
- GroupMerge.SearchIsExact: for reports whose keys determine the number, which `PlainReports` shows for those kinds.
- MockDisks.StepKeepsAgreement: the steps it excludes may still happen to leave the disk in agreement, such as an added volume of the same name and size.
- GroupMerge.OnlineIfAnyCopyIs: not for placeholders, which `PlaceholderTiming` treats.
- TaskManagement.TaskManager.CancelTask: the lock-held part only; the stop request to the server and its errors are remote calls.
- Task manager: timestamps, progress, callbacks, update notifications and the read-only listings; fairness across keys, which the code does not promise since it prefers the key that just finished.
- Cache: failing file operations and JSON errors, keys with path separators, subdirectories, overflow of the clock difference, rounding of very long times to live, empty keys of Badger. The linked list is a sequence of element references. A Badger get is one step, although its read and its delete are separate transactions.
- Pipeline: the early return when no guest is listed, which does what zero jobs do; a guest pointer listed twice, whose two requests would race; the parsers of guest configurations.
- Quoting: double quotes, expansions and comments of the shell (the tokenizer gives up on them), what ssh substitutes in the proxy command, and how a shell is found.
- Text: strings are sequences of characters, so bytes that are not valid UTF-8 and letter case beyond ASCII are not modelled.
- Inventory: the INI and YAML texts with their quoting, and the sorting of hosts for output. The document is the map that the text spells.
- Mock server: reading the requests and building guests and volumes from them (a completion carries arbitrary ones), its validation errors, configuration values that are not strings, backups beyond their identifiers, wrap-around of usage totals, and volumes shared by pointer, which are values here.
- Cluster client: the health check's timer and callbacks. A check in flight may fail over after `Close`, so nothing is claimed about a closed client staying closed.
- GroupMerge.NodeKeyIdentifies: for names without a bar, and identifiers without one of nodes that have no name and address; Proxmox node names hold none.
- Group merge: the requests to the profiles and the sorting after the merge.
- Screens, command line, configuration files and their encryption, VNC proxying and the HTTP client: no invariant deep enough to be worth a proof here.
