# OAR's scheduler, its control loops and its accounting, in Dafny

OAR is a resource and job management system for clusters. Its scheduler Kamelot keeps the free
resources of the platform over time in a *slot set*: a linked list of slots, each with a begin, an
end and the set of resources free all through it. A job asks for resources level by level ("2 racks,
in each 3 nodes, in each 4 cores") for a walltime, possibly in several *moldable* variants. For each
job in turn the scheduler slides a window over the slots to the first place where a variant fits,
keeps the variant that finishes first, and cuts the slots there to take the resources out. Answers of
earlier searches are cached, quotas may turn a place down, and a job may be a *container* that opens a
slot set of its own for the jobs inside it.

This project models that scheduler, and beside it the command automaton of the server, the loop that
starts processes for jobs, and the accounting of used resources, and proves what they promise.

| file | models |
|---|---|
| `options.dfy` | an optional value, the larger and the smaller of two numbers, a member of a set |
| `hierarchy.dfy`, `greedy.dfy`, `requests.dfy` | choosing resources in a hierarchy: the greedy search and its loops, which choice it makes |
| `quotas.dfy` | quota keys, counters, rules; the `Quotas` object |
| `sharing.dfy` | the tables of time-shared and placeholder resources in a slot |
| `gantt.dfy` | a slot set as a value (a *chart*): cutting slots for a job, what is free at an instant |
| `search.dfy`, `earliest.dfy` | the first-fit search as a function of the chart, its cache, its optimality |
| `window.dfy` | the check of quotas over all slots of a place, exactly |
| `assign.dfy` | starting from the cache or after dependencies, the choice among moldable variants |
| `sweep.dfy`, `turns.dfy`, `overlap.dfy` | putting many placed jobs into the slots in one sweep, and when that goes right: for jobs in turn, and for two that overlap |
| `temporal.dfy`, `slicing.dfy` | slicing a slot, and all slots of a new slot set, where the quota rules change |
| `slots.dfy` | `Slot` and `SlotSet`: the linked list changed in place |
| `finding.dfy` | the search loops over the linked list |
| `schedule.dfy` | a scheduling pass over many jobs, with containers, as a function |
| `scheduler.dfy` | placing one job, and a pass, in place: `JobRecord`, `Pass` |
| `waiting.dfy` | when a job that has to wait gets the earliest start from its required start on |
| `runs.dfy`, `records.dfy`, `optimality.dfy`, `marks.dfy`, `quotaruns.dfy` | what holds after every pass: resources, records and dependencies, earliest finish, quotas |
| `almighty.dfy`, `commands.dfy` | the command automaton: `Server`; what commands, results and timeouts cause over whole runs |
| `bipbip.dfy` | the dispatch loop: `BipbipCommander` |
| `accounting.dfy` | the windows of the accounting table: `AccountingTable` |

How it is built: what the program does to objects in place is modelled by classes and methods with
loops. Each of them is tied to a function of values (`Split`, `First`, `Search`, `Assign`, `Step`,
`Run`, `SweepJobs`, `Slice`, `SliceFrom`, `Turn`, `Updated`), and the theorems are about these functions, so that they hold for the
methods. A set of resources is a `set<int>`; a level of the hierarchy is a sequence of such sets. The
slot objects are reached from slot 1 by `next`; a ghost `chart` lists them in time order. Slots without
any instant (`b == e + 1`) are allowed everywhere. Where the program raises an exception (a missing
key, an empty tuple to unpack) the model says that it fails.

Inputs of the model: the clock, messages, results of other modules, whether a process is alive, the
quota calendar, and the hierarchy and jobs read from the database.

## Model

| member | source | states |
|---|---|---|
| Hierarchies.KeepNoEmptyScatBks | oar/lib/hierarchy.py:31-54 | the loop keeps exactly the blocks that share a resource with the free ones, in order |
| Hierarchies.ExtractNScatteredBlockItv | oar/lib/hierarchy.py:56-107 | the loop takes the first entirely free blocks until the count is reached, or nothing |
| Hierarchies.FindResourceNH | oar/lib/hierarchy.py:152-226 | the recursive loop with its accumulators equals the greedy search by levels |
| Hierarchies.FindInBlock | oar/lib/hierarchy.py:188-216 | what one chosen block can offer to the levels below |
| Hierarchies.ScatteredExact | oar/lib/hierarchy.py:110-226 | greedy is sound and complete: the search succeeds exactly when all counts are positive and there is a choice that takes, at every level, as many different blocks as asked for, each of them a block of that level inside the one taken above and, at the lowest level, with its part inside that one not empty and all free; its result is such a choice |
| Hierarchies.KeepsExactly | oar/lib/hierarchy.py:31-54 | the blocks kept are, in order and each once, those that share a resource with the free ones |
| Hierarchies.ChildrenExactly | oar/lib/hierarchy.py:210-216 | the children of a block are, in order and each once, the blocks of the next level inside it, itself included |
| Hierarchies.SubBlocksExactly | oar/lib/hierarchy.py:188-192 | at the lowest level but one, a block offers, in order and each once, its parts in the blocks below that are not empty |
| Greedy.ScatteredIsFirst | oar/lib/hierarchy.py:88-226 | of all valid choices the search takes, at the top and inside each block taken, the first blocks that can serve: none that can is passed over, none is taken beyond what is needed |
| Hierarchies.ScatteredMonotone | oar/lib/hierarchy.py:110-226 | a request that can be served with some free resources can be served with more |
| Hierarchies.ScatteredInside | oar/lib/hierarchy.py:110-226 | only free resources are taken |
| Hierarchies.ScatteredSize | oar/lib/hierarchy.py:88-107 | with disjoint blocks at each level and single resources at the bottom, a success has exactly the product of the counts many resources |
| Requests.FindResourceHierarchiesScattered | oar/lib/hierarchy.py:110-150 | the dispatch between one level and many |
| Requests.FindResourceHierarchiesJob | oar/kao/scheduling.py:80-100 | the loop over sub-requests gives the union of their results, or nothing if one fails |
| Requests.FindExact | oar/kao/scheduling.py:80-100 | a variant is served exactly when it has sub-requests and each can be served from the free resources its constraint allows: for each pair of level and count in turn, that many different blocks of that level inside each block taken for the pair before, at the last pair with their parts all free; the result is one such choice for each sub-request and nothing else |
| Requests.FindMonotone | oar/kao/scheduling.py:80-100 | a variant that fits in some free resources fits in more |
| Requests.FindInside | oar/kao/scheduling.py:80-100 | only resources offered are used |
| QuotaRules.Quotas.DeepcopyFrom | oar/kao/quotas.py:536-537 | a copy with the same counters |
| QuotaRules.Quotas.UpdateType | oar/kao/quotas.py:563-591 | counts a job under the eight keys of one of its job types |
| QuotaRules.Quotas.Update | oar/kao/quotas.py:544-591 | counts a job under all its keys: resources, jobs, resource-seconds |
| QuotaRules.Quotas.Combine | oar/kao/quotas.py:593-599 | the larger of resources and of jobs, the sum of resource-seconds, key by key |
| QuotaRules.Quotas.Check | oar/kao/quotas.py:601-661 | finds a violated rule exactly when some counter exceeds a rule that applies to the job, and the one found is violated |
| QuotaRules.ChargedOnce | oar/kao/quotas.py:563-591 | a job is counted once under each key that matches it and under no other |
| QuotaRules.UpdatedCounts | oar/kao/quotas.py:544-591 | an update adds the job once to each counter it matches and leaves the others alone |
| QuotaRules.CombinedDominates | oar/kao/quotas.py:593-599 | the combined counters are at least those of either side |
| WindowQuotas.CommonExactly | oar/kao/quotas.py:593-599 | over the slots of a place, each combined counter has the most resources and the most jobs that one of the slots counts, or zero, and the sum of their resource-seconds |
| WindowQuotas.CheckedExactly | oar/kao/quotas.py:601-684 | the check of a place passes if and only if all its slots are under the same rules and no rule is exceeded, for a counter the program looks at, by the most resources, the most jobs or the summed resource-seconds of the slots with the job added where it is counted |
| WindowQuotas.AllowedExactly | oar/kao/scheduling.py:247-270 | quotas let a variant have a place if and only if they are off, or the job ignores them, or that check passes with those of its resources that count and its walltime |
| WindowQuotas.TurnedDownForAnother | oar/kao/quotas.py:601-661 | an instance: a job of one user is turned down because of the jobs of another, though each slot of the place is within the rules |
| QuotaRules.CheckedUpdateIsSafe | oar/kao/quotas.py:601-661 | a check passed on combined counters keeps every rule and key of each slot below, also those the check does not look at for this job |
| Gantt.PiecesTile | oar/kao/slot.py:353-426 | the parts A, B, C of a cut slot cover its time in order, the first keeps its id, and only the part during the job changes |
| Sharing.EnteredChanges | oar/kao/slot.py:290-328 | a job changes only the table entries about itself, and these exactly so: taken out, a time-sharing job enters its resources where there is no entry, the owner of a placeholder leaves its own, a user takes its own from what is held; given back, the first two add theirs. A time-sharing job taken out finds its resources in its entry if and only if there was none or they were in it already |
| Gantt.CutAtContent | oar/kao/slot.py:258-351 | cutting one slot changes what is free, counted and shared only while the job runs inside that slot |
| Gantt.PlaceIsPointwise | oar/kao/slot.py:353-426 | `split_slots` is the pointwise update: resources are taken (or given) at exactly the instants the job covers; the list stays contiguous, headed by slot 1, over the same span, and every old id keeps its begin |
| Gantt.PlacedFree | oar/kao/slot.py:286-330 | at the instants of the job what is free loses the resources of a job taken out; it gains those of a job given back only if the job neither shares them nor has to do with placeholders; counters of a job given back and the rules stay; at other instants nothing changes |
| Gantt.PlacedTables | oar/kao/slot.py:290-328 | at the instants of the job the entries about it, and no others, change as its kind says |
| Gantt.SplitKeeps | oar/kao/slot.py:263-278 | every id handed out before still names a slot with the same begin |
| Gantt.SplitSolid | oar/kao/slot.py:353-426 | cutting slots that the job really reaches into makes no empty slot |
| Gantt.RoundTrip | oar/kao/slot.py:286-329 | taking a plain job out and giving it back restores what is free everywhere exactly when its resources were all free while it runs |
| FirstFit.FirstIsLeast | oar/kao/scheduling.py:152-272 | the answer is at the first slot where the variant fits and quotas allow it; no answer means there is no such slot |
| FirstFit.FitsAtRight | oar/kao/scheduling.py:208-222 | only the shortest long enough stretch of slots has to be tried |
| FirstFit.CachedSearchAgrees | oar/kao/scheduling.py:131-138 | a search from the cached slot gives the same slots and resources as one from slot 1 |
| FirstFit.SplitKeepsCache | oar/kao/slot.py:258-351 | taking jobs out of the slots keeps every cached answer right although slots are cut and ids given anew |
| Earliest.FirstFitIsOptimal | oar/kao/scheduling.py:152-272 | the start found by a search from any slot is the least instant from its begin on, slot begin or not, from which the request can be served for the whole walltime; failure means there is none |
| Earliest.PlaceKeepsHarmless | oar/kao/slot.py:353-426 | empty slots that cutting leaves behind never spoil that optimality |
| Assignment.CacheIsTransparent | oar/kao/scheduling.py:131-145 | for any start time, quotas and applicant the cache changes neither failure nor answer of a search, and is right afterwards |
| Assignment.SearchStart | oar/kao/scheduling.py:129-138 | without a required start a search begins at the cached slot, or at slot 1, and the variant fits in no slot before it |
| Assignment.SearchCaches | oar/kao/scheduling.py:129-145 | the slot of an answer is cached if and only if the job has keys, no start is required and the variant fits in no earlier slot; nothing else is changed in the cache |
| Assignment.SearchAfter | oar/kao/scheduling.py:141-145 | with a minimum start the answer begins no earlier, the cache is left alone, and the search fails exactly when every slot begins too early |
| Assignment.SearchIsEarliest | oar/kao/scheduling.py:118-280 | with a minimum start or without, from the cache or not, a search that no quotas concern answers with the least admitting instant from the first slot on that begins late enough |
| Waiting.EarliestFromExactly | oar/kao/scheduling.py:141-272 | a search with a required start finds the earliest start from that instant on, or rightly none, if and only if a slot begins at that instant, or one begins later and the variant cannot start at that instant |
| Waiting.OptimalFromExactly | oar/kao/scheduling.py:283-332 | over all variants: the finish is the earliest from the required start on if and only if a slot begins there, or no variant that could start there would finish before the job does |
| Waiting.StartsTooLate | oar/kao/scheduling.py:141-145 | an instance: a job that could start at 10 and is started at 50 |
| Assignment.AssignExactly | oar/kao/scheduling.py:283-332 | for any slots, quotas and required start: the variant placed is one that finishes first of all that find a place, and the first such in the list; nothing is placed if and only if none finds a place; the program fails if and only if every slot begins before the required start, or places are found and all of them finish at the sentinel 2^32 - 1 or later |
| Assignment.AssignIsEarliestFinish | oar/kao/scheduling.py:285-313 | in slots that end by 2^31 the sentinel hides no variant |
| Assignment.AssignIsOptimal | oar/kao/scheduling.py:283-332 | a job that no quotas concern is placed exactly when some variant could start at some instant from the first slot on that begins late enough, and no variant started at any such instant could finish earlier |
| Assignment.PlacedTask | oar/kao/scheduling.py:322-330 | a job is placed where its resources are free for its whole walltime, inside the slot set |
| Sweep.SweepIsOneByOne | oar/kao/slot.py:428-457 | for jobs in turn, none over before the slot set begins: one sweep with a single cursor does exactly what one restart from slot 1 per job does, fails with a missing key if and only if some job takes up the last instant of the slot set or goes on, and otherwise changes at each instant only what the job running there takes or gives |
| Sweep.SweepTakes | oar/kao/slot.py:428-457 | when the instant after each job is one of the slot set, such a sweep takes at each instant exactly the resources of the job that runs then, empty slots included |
| Turns.InTurnExact | oar/kao/slot.py:428-457 | for any jobs in turn: the sweep leaves an ordered list with exactly the jobs' resources taken if and only if the instant after each job is an instant of the slot set |
| Turns.LastInstantFails | oar/kao/slot.py:453-455 | an instance: a job that ends with the last instant of the slot set, all its resources free, makes the program fail |
| Overlap.TwoJobsExact | oar/kao/slot.py:428-457 | for any two jobs in time order, the second with resources free for it: the sweep leaves an ordered list with exactly both jobs' resources taken if and only if the instant after each is one of the slot set and the jobs are untangled, a test on their times and the slot the first begins in |
| Overlap.OverlapBreaksSweep | oar/kao/slot.py:434-457 | an instance: two jobs that overlap in one free slot, for which the sweep goes wrong |
| Temporal.SliceParts | oar/kao/slot.py:459-500 | slicing ends; the parts cover the slot in order with its resources, each under one rule that lasts to its end, except a last one when the calendar ends |
| Temporal.SliceKeepsFree | oar/kao/slot.py:459-500 | slicing changes what is free or shared at no instant |
| Temporal.SliceKeepsCounters | oar/kao/slot.py:470-485 | the counters are kept at every instant exactly when there were none or the slot was not cut |
| Slicing.SlicedExactly | oar/kao/slot.py:231-241 | after the slots of a new slot set were sliced, each has the rules in force all through it, or none where none are, if and only if no period ends with a slot behind which there are slots and rules; always for one slot |
| Slicing.SecondSlotIsMissed | oar/kao/slot.py:231-241 | an instance: two slots, the first of which ends with a period, and the second gets no rules |
| Slots.Slot.constructor | oar/kao/slot.py:23-72 | a new slot with empty counters and no rules |
| Slots.Slot.Sub | oar/kao/slot.py:286-307 | narrows the slot to the job, takes its resources, enters it in the sharing tables, counts it unless it is a container |
| Slots.Slot.Add | oar/kao/slot.py:309-330 | narrows the slot to the job, gives its resources back if it is a plain one, enters it in the sharing tables |
| Slots.ListsReplaced | oar/kao/slot.py:258-351 | relinking new slots in place of one keeps the list and replaces the slot in the chart |
| Slots.SlotSet.constructor | oar/kao/slot.py:221-231 | a slot set of one slot with an empty cache |
| Slots.SlotSet.SlotBeforeJob | oar/kao/slot.py:258-284 | the part before the job takes over the id, the old object gets a new id and stays in the list after it |
| Slots.SlotSet.SlotAfterJob | oar/kao/slot.py:332-351 | the part after the job is linked in behind |
| Slots.SlotSet.SubSlotDuringJob | oar/kao/slot.py:286-307 | one slot object changes, the links stay |
| Slots.SlotSet.AddSlotDuringJob | oar/kao/slot.py:309-330 | one slot object changes, the links stay |
| Slots.SlotSet.CutSlot | oar/kao/slot.py:377-423 | cutting a slot in the linked list is cutting it in the chart |
| Slots.SlotSet.SplitSlots | oar/kao/slot.py:353-426 | the loop over linked slots ends and is the split of the chart; a slot object that is cut goes on as the part during the job |
| Slots.SlotSet.SeekLeftSlot | oar/kao/slot.py:443-449 | the loop to the first slot that begins after the job or holds its start, with the left end it leaves behind |
| Slots.SlotSet.SeekRightSlot | oar/kao/slot.py:451-455 | the loop to the first slot that lasts beyond the job |
| Slots.SlotSet.SplitSlotsJobs | oar/kao/slot.py:428-457 | the sweep over the linked list, with its stale left end and its missing key, equals the sweep over the chart for any jobs |
| Slots.SlotSet.CutOff | oar/kao/slot.py:467-487 | ends a slot when its rules end and links a new one in |
| Slots.SlotSet.TemporalQuotasSplitSlot | oar/kao/slot.py:459-500 | the slicing loop ends and equals the slicing of the chart, for any calendar |
| Slots.SlotSet.SliceAll | oar/kao/slot.py:231-241 | the loop over the slots of a new slot set ends and equals the slicing of the whole chart |
| Finding.IntersecItvsSlots | oar/kao/slot.py:104-132 | the resources free in all slots from left to right |
| Finding.CombineSlots | oar/kao/quotas.py:664-682 | the combined counters of the window, or that its slots are under different rules |
| Finding.CheckSlotsQuotas | oar/kao/quotas.py:664-684 | whether the window passes the rules with the candidate counted in |
| Finding.StartSlot | oar/kao/scheduling.py:129-145 | where the search starts: cached slot, slot 1, or the first slot that begins late enough |
| Finding.WidenRight | oar/kao/scheduling.py:208-222 | the right pointer stops at the first slot that makes the window long enough |
| Finding.SearchFrom | oar/kao/scheduling.py:147-272 | the two-pointer loop ends and finds the first suitable window, though both pointers only move forward |
| Finding.FindFirstSuitableContiguousSlots | oar/kao/scheduling.py:118-280 | result, slot ids, failure and new cache are those of the search on the chart |
| Schedule.OpenedContent | oar/kao/scheduling.py:412-439 | the slot set of a container offers its resources from its start to its start plus walltime less the security time, and nothing at other instants |
| Schedule.StepEffect | oar/kao/scheduling.py:344-439 | one job of a pass takes its resources only where they are free and changes nothing else |
| Scheduler.AssignResources | oar/kao/scheduling.py:283-332 | the loop over variants with its `prev_` variables, the fields of the job, the slots and the cache end up as the choice on the chart says |
| Scheduler.Pass.constructor | oar/kao/scheduling.py:335-339 | a pass over jobs with one slot set to begin with |
| Scheduler.Pass.ReadDependencies | oar/kao/scheduling.py:344-381 | the minimum start that dependencies require, or that one of them keeps the job back or, never having been placed, has no walltime and makes the program fail |
| Scheduler.Pass.Open | oar/kao/scheduling.py:428-439 | a container that has a walltime opens a slot set of its own |
| Scheduler.Pass.PlaceJob | oar/kao/scheduling.py:395-410 | placing a job changes its own slot set and its own record, and no other |
| Scheduler.Pass.ScheduleJob | oar/kao/scheduling.py:341-439 | one turn of the pass in place is one step of the pass on values, failures included |
| Scheduler.Pass.ScheduleIdJobs | oar/kao/scheduling.py:335-439 | a whole pass in place is the pass on values, and fails where it does |
| Scheduler.CrashStays | oar/kao/scheduling.py:335-439 | a pass that breaks off stays broken off |
| Runs.NoDoubleBooking | oar/kao/scheduling.py:335-439 | after every pass with a security time of at least 1, no two jobs that open no slot set, wherever they were placed, ever hold a resource at the same instant, and no resource is free in two slot sets |
| Runs.SharingIsNesting | oar/kao/scheduling.py:335-439 | after every such pass two jobs, containers included, hold a resource at the same instant exactly if the earlier is a container that the later is in at some depth |
| Runs.OpenedStaysInside | oar/kao/scheduling.py:428-437 | a container's slot set stays inside the container exactly when the security time is at least 1, or the container is empty or shorter than it |
| Runs.NothingLost | oar/kao/scheduling.py:335-439 | after every pass, each slot set has free at each instant exactly what it offered less what its jobs hold; each inner job stays inside the time and resources of its container |
| Runs.MinStartBounds | oar/kao/scheduling.py:344-381 | the first dependency that blocks or has no walltime decides; without any the minimum start is the latest stop of the jobs waited for, or none |
| Runs.DependenciesRespected | oar/kao/scheduling.py:344-381 | one job is placed only if no dependency keeps it back, and after the jobs it waits for |
| Runs.CrashesExactly | oar/kao/scheduling.py:335-439 | a pass breaks off at a job exactly when the first dependency that decides is a job without a walltime, or no dependency keeps it back and its slot set is missing, no slot begins late enough, or it is a container without walltime that finds no place |
| Records.RecordFollows | oar/kao/scheduling.py:308-332 | a step writes only into the record of its own job: start, walltime, resources and variant it was placed with, or that it was not placed; a job kept back by dependencies keeps its resources and variant of before, one that finds no place has none |
| Records.RecordsMatchLog | oar/kao/scheduling.py:335-410 | after a pass over different jobs, placements and records go one to one by job id: each placement is in the record of its job, no job has two, a job without one is marked as not placed; other records are as before |
| Records.RecordsApart | oar/kao/scheduling.py:335-439 | after every pass over different jobs, with a security time of at least 1: no two records of jobs that are no containers have a resource at the same instant |
| Records.DependenciesInPass | oar/kao/scheduling.py:335-410 | in every pass, nothing a placed job depends on keeps it back; each job it waits for was placed earlier in the pass and stops before, or came with a walltime and is over by then as its record said |
| Optimality.PassKeepsHarmless | oar/kao/scheduling.py:335-439 | after any pass no slot set, opened ones included, has an empty slot that hides free time, and none goes beyond the time limit |
| Optimality.SolidStart | oar/kao/scheduling.py:335-339 | slot sets without empty slots, as a pass begins with them, hide no free time |
| Optimality.EveryJobIsOptimal | oar/kao/scheduling.py:335-439 | in every pass each job that no quotas concern gets the earliest finish that any of its variants can have at any instant in its slot set as it then is, from the first slot on that begins late enough for its dependencies; it is left out only if there is no such instant |
| Optimality.OptimalFromStopExactly | oar/kao/scheduling.py:335-439 | such a job gets the earliest finish from its required start on if and only if a slot begins there, or no variant that could start there would finish before the job does |
| Marks.StopsAreMarked | oar/kao/slot.py:353-426 | after every pass, wherever a job stops, a slot of its slot set begins, or the slot set ends |
| Marks.EarliestAfterItsOwn | oar/kao/scheduling.py:335-439 | in every pass, a job that waits only for jobs of its own slot set gets the earliest finish over all instants from their last stop on |
| QuotaRuns.CommonDominates | oar/kao/quotas.py:664-680 | the counters combined over a window bound those of each of its slots |
| QuotaRuns.QuotasKept | oar/kao/scheduling.py:247-270 | a pass that starts within the rules ends with every slot within every rule |
| QuotaRuns.CountersAreRecounts | oar/kao/slot.py:280-306 | each counter equals the sum of resources, number and resource-seconds over the jobs of the pass that match it and run there, although parts before and after a job are only copies |
| QuotaRuns.LimitsHold | oar/kao/quotas.py:601-684 | at every instant the jobs that run there and match a key have together at most the resources, the number and the resource-seconds that each rule for it allows, where it sets a limit |
| Almighty.Server.AddCommand | oar/modules/almighty.py:285-298 | adds a command unless the queue has it |
| Almighty.Server.ReadCommands | oar/modules/almighty.py:300-317 | adds as many messages as may be read in a row |
| Almighty.Server.UpdateTime | oar/modules/almighty.py:234-258 | adds the commands whose time has come |
| Almighty.Server.TakeCommand | oar/modules/almighty.py:349-389 | the command taken, passing over Time, and the state it leads to |
| Almighty.Server.Schedule | oar/modules/almighty.py:391-438 | the turn in which the meta-scheduler may be run |
| Almighty.Server.Iterate | oar/modules/almighty.py:319-494 | one turn of the loop in every state; the daemon ends when the energy module is found dead |
| Almighty.ReadingOnMatters | oar/modules/almighty.py:300-317 | reading on after the answer that nothing waits changes the queue exactly when a later message is not in it yet; with one message a turn it never does |
| Almighty.Server.Run | oar/modules/almighty.py:319-495 | the loop until the daemon stops |
| Almighty.NoRequestIsLost | oar/modules/almighty.py:343-435 | in every run a request for scheduling stays pending (wanted, state Scheduler, or in the queue) until the meta-scheduler runs or the daemon is about to stop |
| Almighty.RunsAreSpaced | oar/modules/almighty.py:391-418 | with a clock that never goes back, any two runs of the meta-scheduler are at least the configured time apart |
| Almighty.QueueStaysDistinct | oar/modules/almighty.py:285-298 | no command is ever twice in the queue |
| Almighty.CommandsAreServed | oar/modules/almighty.py:349-361 | a command with k others before it is taken by the time k + 1 commands have been taken, whatever comes in |
| Commands.NewStandsBehind | oar/modules/almighty.py:285-317 | a message that is new stands behind the whole queue and what was read before it, and before what is read after it |
| Commands.TakesNext | oar/modules/almighty.py:343-389 | which command a turn takes, what it leaves in the queue, and to which state each command leads, each direction |
| Commands.ComesFrom | oar/modules/almighty.py:391-494 | which results of which modules bring the daemon to each state, and which make it stay |
| Commands.LeavesBehind | oar/modules/almighty.py:391-494 | what a turn leaves besides its state: the times of the last run and checks, the wish for a run that came too early, the request that follows ended jobs, and which results end the daemon |
| Commands.StopChangesNothing | oar/modules/almighty.py:319-342 | a daemon that is told to stop, has got an unknown result or finds the energy module dead stops and changes nothing else |
| Commands.TimeoutsAdd | oar/modules/almighty.py:234-258 | the commands that timeouts add, exactly when they are due and not queued yet, and in which order |
| Commands.LatestIsNoted | oar/modules/almighty.py:391-470 | in every run each timeout counts from the end of the latest run of the meta-scheduler, or the latest check, of that kind |
| Commands.RequestWaits | oar/modules/almighty.py:367-377 | in every run, from the receipt of Qdel until Leon is run or the daemon is about to stop, it is in the queue or the state is Leon; likewise ChState and the change of node states, Villains and Finaud and their checks |
| Commands.FollowUpIsNotLost | oar/modules/almighty.py:396-494 | in every run, when Leon or the change of node states reports ended jobs, scheduling is requested from then on until the meta-scheduler runs or the daemon is about to stop |
| Commands.CommandsAreHandled | oar/modules/almighty.py:349-389 | in every run, a command with k others before it has brought the daemon to the state of its module by the time k + 1 commands have been taken, whatever comes in |
| Commands.DueIsTakenUp | oar/modules/almighty.py:234-258 | a run of the meta-scheduler that is due as timeouts are checked has brought the daemon to its state by the time one more command has been taken than were queued; a due check for villains by two more, as that run may stand before it, a due check of the nodes by three more |
| Bipbip.BipbipCommander.LaunchNext | oar/modules/bipbip_commander.py:145-170 | starts a process for the first command or puts it back while one runs for its job |
| Bipbip.BipbipCommander.RemoveFinished | oar/modules/bipbip_commander.py:176-183 | drops the executors that have ended |
| Bipbip.BipbipCommander.Iterate | oar/modules/bipbip_commander.py:122-190 | one turn of the loop; the inner loop ends; it waits without limit only when nothing is queued |
| Bipbip.DispatchKeeps | oar/modules/bipbip_commander.py:140-170 | the inner loop keeps every command, starts no second process for a job, and stops with nothing to run or a full table |
| Bipbip.DispatchOneExact | oar/modules/bipbip_commander.py:145-170 | a command is put back if and only if one of all processes ever started for its job still runs; otherwise it is launched |
| Bipbip.CleanedDropsEnded | oar/modules/bipbip_commander.py:176-183 | no executor that had ended before the clean-up is left in the table |
| Bipbip.RunIsSafe | oar/modules/bipbip_commander.py:122-190 | in every run, whenever processes end: each command received is queued once or was launched once, every running process is the one in the table for its job, the table has at most one entry above the maximum |
| Bipbip.NoTwoExecutors | oar/modules/bipbip_commander.py:150-170 | two processes of one job never run at the same time |
| Bipbip.DispatchByFate | oar/modules/bipbip_commander.py:140-170 | a pass over the queue launches, puts back and leaves commands by their fates, each in order, and leaves only what comes last |
| Bipbip.TurnByFate | oar/modules/bipbip_commander.py:122-190 | over a whole turn: a command received stands behind the queue; afterwards the queue holds what the pass left, then what it put back |
| Bipbip.OrderIsKept | oar/modules/bipbip_commander.py:140-174 | any two commands keep their order in what is launched, left and put back exactly unless the first is put back in a pass that launches or leaves the second |
| Bipbip.SteadyKeepsOrder | oar/modules/bipbip_commander.py:150-174 | when no process ends during a pass that reaches the whole queue, commands of one job keep their order |
| Bipbip.OrderMayChange | oar/modules/bipbip_commander.py:122-190 | a run from the start in which three commands of one job are launched first, third, second |
| Accounting.AccountingTable.AddAccountingRow | oar/lib/accounting.py:117-193 | inserts a row or adds to it |
| Accounting.AccountingTable.UpdateAccounting | oar/lib/accounting.py:90-114 | the loop over windows ends and equals the recursive account |
| Accounting.UpdateIsExact | oar/lib/accounting.py:90-114 | an update adds to each row the resources times the number of instants of the usage in its window, for all rows, if and only if the usage is empty, begins at no negative time or on a window border |
| Accounting.RowsAreSums | oar/lib/accounting.py:90-193 | after any updates each row is the sum, over all usages, of the resources times the number of instants in its window |
| Accounting.UpdateConserves | oar/lib/accounting.py:90-114 | an update adds the resources times the duration to the sum of all rows |

## Left out

What the program does and the model does not:

- Timesharing and placeholder resources in the search (`intersec_ts_ph_itvs_slots` starts over when the intersection gets empty, so it is not an intersection). The jobs of a pass in the model are plain ones; the slots themselves keep the tables of the others (`Sharing`).
- The `prev` links: neither the part before nor the part after a job repairs the `prev` of the slot behind it, so nothing is claimed about them.
- The quota calendar in the search and the rules it would select; `temporal.dfy` and `slicing.dfy` take the calendar as an oracle, and the quota theorems are about one fixed set of rules. `Calendar.periodical_rules_at` does not select the period that contains the instant.
- Custom `find` and `assign` functions of jobs.
- Cache keys are strings made from walltime and request; the model takes the walltime and the request themselves as the key. A key that is the same for different requests is outside the theorem.
- Container names used by several containers: the program then adds to the existing slot set, which keeps cached answers that are no longer right. A pass is modelled for new names (`OpensFresh`); adding resources as such is in `SplitSlotsJobs`.
- `set_slots_with_prev_scheduled_jobs` and besteffort or advance reservation paths around the pass. The sweep they use is modelled for any jobs; of those that overlap, two are decided exactly (`Overlap.TwoJobsExact`), more are not.
- `get_encompassing_slots`, karma and multifactor priorities, the basic scheduler.
- Command names of the server are an enumeration with one case for unknown ones; the program compares by regular expression, which is equality for these names. A message without a command field is not modelled.
- A candidate that already carries `res_set` and `walltime` when quotas are checked: `update` would count the old values (oar/kao/quotas.py:551-561). The model counts the candidate's own values.
- The window of an accounting update is found by a floating-point division; the model divides exactly.
- Errors in database, sockets and processes; SQL, the REST API, energy saving beyond "it died".

Contracts stated with a condition that is not in the program:

- Runs.NoDoubleBooking: needs a security time of at least 1 and slot sets that start apart, as do the other theorems about sharing; `Runs.OpenedStaysInside` shows what happens otherwise.
- Runs.CrashesExactly: is about one job of a pass whose container name is new and whose slot set ends by the time limit 2^31.
- QuotaRuns.QuotasKept: jobs that ignore quotas must be containers, since others would be counted without having been checked.
- QuotaRuns.CountersAreRecounts: job types are distinct and no queue, project or user is called `*`, `/` being a rule only; with such names a job would be counted twice under one key.
- Runs.DependenciesRespected: a job placed before the beginning of time is not covered; `Records.DependenciesInPass` needs slot sets that offer nothing there.
- Records.RecordsMatchLog: the jobs of a pass are different, as the keys of a dictionary are.
- WindowQuotas.CheckedExactly: job types are distinct and no queue, project or user is called `*`, as for the recounts; so is WindowQuotas.AllowedExactly.
- Earliest.FirstFitIsOptimal: is for searches without quotas, on charts whose empty slots are harmless, which splits keep.
- Optimality.EveryJobIsOptimal: slot sets hide no free time at the start and end by the time limit 2^31, the security time is at least 1, and a container that came with a walltime came with one below that limit.
- Sweep.SweepIsOneByOne: no job is over before the slot set begins; such a job leaves slots out of order (`Turns.InTurnExact`).
- Overlap.TwoJobsExact: is about two jobs that last and the second of which has resources, all free for it.
- Slicing.SlicedExactly: is for slots that are not empty, and no rules are called -1, which stands for none.
- Marks.EarliestAfterItsOwn: the jobs waited for came without a walltime and were placed in the job's own slot set.
- Accounting.RowsAreSums: is for usages that begin at no negative time, as the caller ensures (start time above 1).
- Almighty.RunsAreSpaced: needs a clock that never goes back.

What was found on the way, with the code taken as it is:

- A minimum start later than the begin of every slot ends in a missing key for slot 0 instead of "not schedulable" (oar/kao/scheduling.py:141-142), and an inner job without its slot set does too, since the bare `next` there does nothing (oar/kao/scheduling.py:395).
- With a security time of 0 a container's slot set offers one instant after the container has ended.
- A waiting dependency on a job of the pass that was not placed before, and a container that finds no place, end in a missing attribute `walltime` (oar/kao/scheduling.py:365, 436).
- A job whose dependencies require a start inside a slot is not tried in the rest of that slot, only from the next begin of a slot on (`Waiting.StartsTooLate`); `Waiting.EarliestFromExactly` says exactly when it loses by it, and `Marks.EarliestAfterItsOwn` that it does not when it waits for jobs of its own slot set.
- `split_slots_jobs` looks for a slot that lasts beyond the job, so a job that ends with the last instant of the slot set ends in a missing key for slot 0 (`Turns.LastInstantFails`), although the search may place it there.
- When a slot of a new slot set ends just when a quota period does, the slots behind it get no rules (`Slicing.SecondSlotIsMissed`).
- `read_commands` is documented to stop when no message is pending, but compares a message object with the string `Time`, so it reads on. As the program is set up, with one message a turn, nothing comes of it; `Almighty.ReadingOnMatters` says when something would.
- When the energy module is found dead, the call that is to start it again has an argument too many (oar/modules/almighty.py:341), and the daemon ends.
- A rule for each user (`/`) separately is also checked against the counters of other users, and resource-seconds are added up over the slots of a place, also those of one job that runs through several of them. So a job may be turned down because of others, though every slot is within the rules (`WindowQuotas.TurnedDownForAnother`).
- Two time-sharing jobs of one user and name in one slot: only the resources of the first are entered (`Sharing.EnteredChanges`).
- The slots that slicing makes start with empty counters (`Temporal.SliceKeepsCounters`).
- The accounting window is rounded towards zero, so usages at negative times would go to the window after (`Accounting.UpdateIsExact`).
