# desolate: its protocols, allocators and scanners, proved

`release/vscode-image` runs each project's devcontainer beside the others and keeps
them apart. What decides whether it does so is small and full of state: a bundle
protocol between three repositories, a lock-free registry of ports, names that must
not collide, a supervisor with two budgets, a copier that must not be led out of a
directory, a few hand-written scanners, and a saved word that says which daemon a
project is on. This project models those, step by step where the code goes step by
step, and proves what they promise of every input and every run.

| file | what it models |
|---|---|
| `Git.dfy` | commits, history, bundles and their prerequisites |
| `Transfer.dfy` | pull and push between remote, editor cache and project sandbox |
| `Registry.dfy`, `Progress.dfy` | the port files as a state machine: any number of starts, one file access a step; what is kept, and what each start comes to |
| `Ingress.dfy` | the same claims as each start's own code makes them, others interfering between accesses |
| `Ports.dfy` | the port allocator and the move of one port |
| `Names.dfy`, `Projects.dfy`, `Volumes.dfy` | the name encoding, what is listed, and which target owns a volume |
| `Capacity.dfy`, `History.dfy`, `Supervisor.dfy` | admission and eviction, what counts as being busy, and the serial queue over them |
| `Daemons.dfy`, `DaemonRuns.dfy`, `DaemonHost.dfy` | which daemon a target runs on: start, stop, purge and both migrations, each docker question one that may go unanswered |
| `Proposals.dfy` | what a project proposes to each dependency nested in it |
| `Snapshot.dfy` | the dereferencing copy |
| `Jsonc.dfy`, `JsoncTokens.dfy` | comment and comma stripping, and what it keeps |
| `Args.dfy`, `Words.dfy`, `Broker.dfy`, `Parser.dfy`, `Requests.dfy` | the command line one process prints and another parses |
| `QuotedPath.dfy` | git's path quoting, undone |
| `Text.dfy`, `Collections.dfy`, `Wrappers.dfy` | strings, sequences, sets and options |

`dafny verify dfyconfig.toml` checks all of it.

## Where the code and what is said of it differ

The model follows the code. Where a promise fails, one lemma shows an input and
another says exactly when it holds.

- `projects.ts:14-16` has `__` and `--wt--` reserved so that no two targets share a
  namespace. Two can: worktree `wt--W` of `P`, and worktree `W` of `P--wt`, are both
  `P--wt--wt--W`, because the separator overlaps itself
  (`Names.TwoTargetsOneNamespace`). Those are the only ones
  (`Names.NamespacesCollideExactly`).
- `policy.ts:211-213` has the longest claim keep a worktree out of its project's volumes.
  It does when either is listed. What stands inside a directory with a spec of its own
  is not listed but may be started, and then a project and its worktree share a volume
  (`Volumes.HiddenWorktreeShares`). Who shares one is `Volumes.ShareExactly`; in a
  workspace, `Volumes.OnlyHiddenTargetsShare`.
- `capacity.ts:106-108` says a daemon that was ensured within its grace is never evicted.
  Only an `ensure` or `reset` that ends with the daemon healthy counts: one asked for a
  moment ago and given up on may be evicted or reaped at once
  (`Supervisor.Supervisor.ReapedThoughAskedFor`). An asking spares a daemon exactly if
  it comes up (`History.AskingSparesIff`), and the recent askings of one that was
  stopped all failed (`History.IdleIsQuiet`).
- `snapshot.ts:126-133` says a refused link is a symlink cycle. Every directory a link
  led to is remembered, so two links to one directory are refused too, with no cycle
  anywhere (`Snapshot.NotOnlyCyclesAreRefused`). `Snapshot.SnapshotDirectory` succeeds
  exactly on `Copyable`.
- `--transfer` and the values of `--bundle` and `--pull` are kept in one variable
  (`args.ts`), so with two different ones the later stands
  (`Broker.TwoBundlesInTwoOrders`); nothing else depends on order
  (`Requests.LineOrderMattersExactly`).
- `unquoteGitPath` walks UTF-16 units and the scripts set `core.quotePath=false`
  (`docker.ts:417`), so a quoted path with a character outside the Basic Multilingual
  Plane comes back as replacement characters (`QuotedPath.FaceBesideATabIsLost`); exactly
  which paths survive is `QuotedPath.PathIsReadBackIff`.
- `allocatePorts` fed its own result is a fixpoint exactly when no container port is
  asked for twice (`Ports.TwiceClaimedMoves`, `Ports.RestartIsStableIff`); its caller
  removes repetitions first (`desolate.ts:669-673`).
- `reset` starts a stopped daemon without asking for room (`supervisor.ts:422-436`), so
  the ceiling over runs is stated for resets of running daemons
  (`Supervisor.Supervisor.Reset` says what the other kind does).
- A docker question that fails reads as "there is none" (`utils.ts:107-113`), on a daemon
  that is down or one that is up. A start may therefore leave two containers of one
  target running (`DaemonRuns.UnheardStartsASecond`), a stop may stop nothing, a purge
  may forget what runs, and a container may be started with more than its spec asks
  (`DaemonRuns.UnreadLabelStartsPrivileged`). Which answers keep each from happening,
  whatever else goes on, is `DaemonRuns.StartKeepsSoundExactly`,
  `DaemonRuns.StopStopsExactly`, `DaemonRuns.PurgeKeepsSoundExactly` and
  `DaemonRuns.StartedIsWithinExactly`. The last is for daemons that stay up: one that
  goes down and comes back during a start defeats that check though every question put
  to it while it is up is answered (`DaemonRuns.OutagesDefeatTheCheckExactly`).

## Model

| member | source | states |
|---|---|---|
| Git.PrerequisitesAreExcludedHistory | release/vscode-image/transfer.ts:511-526 | what a bundle needs of its taker is history of what was excluded, so a taker that has the excluded commits, and is closed, has it |
| Git.AnyCutIsTheFullOne | release/vscode-image/transfer.ts:511-526 | a closed store that has a bundle's prerequisites ends, whatever was excluded, with exactly what the full bundle would have left it |
| Git.TakingABundleKeepsClosed | release/vscode-image/docker.ts:352-353 | taking any bundle whose prerequisites are present keeps a store closed under parents |
| Git.HistoryIsClosed | release/vscode-image/transfer.ts:305-309 | what is reachable from a set of tips is closed under parents and has the tips |
| Transfer.Cache.Refresh | release/vscode-image/transfer.ts:305-309 | reached, the cache's branches become the remote's, with all their history; not reached, nothing changes |
| Transfer.Cache.BranchesOf | release/vscode-image/transfer.ts:356-361 | the listing names every branch with its commit and nothing else, the newest first |
| Transfer.Cache.Receive | release/vscode-image/transfer.ts:445-455 | the answer is taken exactly when what it says holds of its bundle and the cache, and an honest one always is; each fault says what did not hold |
| Transfer.Project.BundleScript | release/vscode-image/docker.ts:323-336 | the sandbox answers with its checked-out branch and the bundle cut against the haves it has, or with nothing to send exactly when those cover it: always honest; no answer only without a branch, or when the bundle is not written |
| Transfer.Project.PullScript | release/vscode-image/docker.ts:346-366 | either the state is the full pull's and the answer its verdict, or refs are untouched; needs-full exactly when the bundle does not verify or a tip is in neither bundle nor store, and never after a full bundle |
| Transfer.HandOver | release/vscode-image/transfer.ts:511-533 | what is sent is the cut less what is known and in the cache, or the whole; one handover ends as the pull or with refs untouched, also when the answer is lost |
| Transfer.Pull | release/vscode-image/transfer.ts:490-547 | whatever was remembered as known: at most two handovers, a second exactly when the guess falls, and never needs-full; a done pull ends in the one state fixed by project and remote alone, and remembers the tips; each refusal exactly when its step failed, "no branches" only of a remote without any |
| Transfer.PullBringsTheRemote | release/vscode-image/docker.ts:338-345 | that state has every ancestor of every remote branch, origin/* is exactly the remote's branches and the HEAD there was, and it is sound |
| Transfer.PullOnlyFastForwards | release/vscode-image/docker.ts:359-365 | no branch moves but the one checked out, that only to a descendant of itself, and only when the outcome says so |
| Transfer.AdvancesExactly | release/vscode-image/docker.ts:359-365 | the branch checked out is fast-forwarded exactly if it is a strict ancestor of its tracking branch and nothing is in the way; blocked, current, diverged and untracked, each if and only if |
| Transfer.PullFromHalfway | release/vscode-image/transfer.ts:536-537 | a pull after an interrupted or refused one ends where a fresh one does |
| Transfer.PullIsIdempotent | release/vscode-image/docker.ts:359-365 | pulling again changes nothing and reports the branch as current |
| Transfer.TipsAreRemembered | release/vscode-image/transfer.ts:538-538 | after a pull the remote's tips are remembered before what was known, each once, five hundred at most |
| Transfer.CutsEndAlike | release/vscode-image/transfer.ts:511-526 | after any cut a store with every tip is the old one and the tips' history, no more |
| Transfer.HonestIsReceivable | release/vscode-image/transfer.ts:436-455 | a sandbox that runs its script never sends what a cache with the haves cannot take |
| Transfer.BranchNamesExactly | release/vscode-image/transfer.ts:201-210 | a branch name holds nothing git would read as an option, refspec, pattern, range or reflog, and every other one is left to git's own word |
| Transfer.Send | release/vscode-image/transfer.ts:436-469 | of any answer at all: pushed means exactly that branch moved to exactly that commit, forward, allowed and reviewed; else no branch moved, and the refusal says which of these failed; an honest answer is never a sandbox fault |
| Transfer.PushBranch | release/vscode-image/transfer.ts:405-469 | against a remote others push to meanwhile: the reported commit is the project's branch, the old tip its ancestor, no other branch moved, and "sent nothing" never happens |
| Transfer.Push | release/vscode-image/transfer.ts:392-403 | a push that went through is never reported as one that did not, and tracking branches follow without moving what is checked out |
| Registry.AdvanceIsOwn | release/vscode-image/ingress-files.ts:68-92 | one file access of a start touches no file of another owner |
| Registry.StepKeepsInv | release/vscode-image/ingress-files.ts:68-101 | any step of any process keeps what every process believes of its own files true |
| Registry.NoStepTouchesAnothersFile | release/vscode-image/ingress-files.ts:87-92 | over every interleaving, crashes included, no step makes, removes or rewrites another owner's file |
| Registry.EveryRunIsSafe | release/vscode-image/desolate.ts:475-487 | at every state, moves of a port included: what a target was given is held, also while it drops old ports and publishes, publishing loses none of it, a read is right about the reader's own files, and a failed attempt is left with just what it had |
| Registry.MapsAreDisjoint | release/vscode-image/desolate.ts:475-487 | what two targets were given shares no port, in any interleaving, whether allocated, being published or moved to |
| Progress.EveryRequestEnds | release/vscode-image/desolate.ts:471-487 | no request waits for another: whatever the others have made of the directory by each of its steps, a process is at rest after finitely many of its own |
| Progress.EveryStepGetsOn | release/vscode-image/ingress-files.ts:68-105 | since every access brings it nearer that, by attempts left, then phase, then accesses |
| Progress.AFreeAttemptGetsAll | release/vscode-image/desolate.ts:475-487 | with nobody else about, an attempt none of whose ports is another's ends with all of them, each file written |
| Progress.AContestedAttemptGetsNone | release/vscode-image/desolate.ts:475-487 | one of whose ports is another's gives back what it took, and is followed by the next, five in all |
| Progress.GivenBackIsWhatItHeld | release/vscode-image/desolate.ts:484-484 | what that leaves is the files there were: the target's own its own, all others untouched |
| Progress.PublishingComesTo | release/vscode-image/ingress-files.ts:97-101 | publishing alone gives up exactly what of the old ports is the target's and writes exactly what of the new is not another's |
| Progress.MovingComesTo | release/vscode-image/ingress-files.ts:68-85 | a move claims its port exactly if that is not another's, and only then goes on to publish |
| Ingress.IngressDirectory.Claim | release/vscode-image/ingress-files.ts:68-85 | with others running between any two accesses: the port becomes the claimer's exactly when it had no file or the claimer's; otherwise it named another and nothing of the claimer's changed |
| Ingress.IngressDirectory.Release | release/vscode-image/ingress-files.ts:90-92 | exactly that port of the owner's goes |
| Ingress.IngressDirectory.Read | release/vscode-image/ingress-files.ts:37-52 | a listing read file by file while others run is exact about the reader's own files, has every file that stayed, and makes none up |
| Ingress.IngressDirectory.Publish | release/vscode-image/ingress-files.ts:97-101 | what is no longer used is released, the rest held, and what is lost named another and was never the owner's |
| Ingress.IngressDirectory.Withdraw | release/vscode-image/ingress-files.ts:103-105 | exactly the named ports of the owner's go |
| Ingress.IngressDirectory.World | release/vscode-image/desolate.ts:459-470 | two readings under interference tell the target's own forwards exactly; published is what docker, the editor and the files that stayed publish, and nothing no file ever named |
| Ingress.IngressDirectory.Allocate | release/vscode-image/desolate.ts:475-487 | a start that returns holds its whole, injective map of due ports besides what it held; one that fails holds what it held, and met another's port five times over or fewer free ports than labels |
| Ports.AllocatePorts | release/vscode-image/ports.ts:99-129 | every port given is in range and none is another's; each label keeps the port it had if that can be had, and otherwise no lower one could; it fails exactly when there are more labels than free ports, and then none is left |
| Ports.ClaimsAreDistinctAndFree | release/vscode-image/ports.ts:105-109 | ports claimed are distinct and in range, and a published one is the target's own |
| Ports.AllocationIsUnique | release/vscode-image/ports.ts:99-129 | what is due leaves no choice: two allocations of one world agree |
| Ports.FailsOnlyWhenFull | release/vscode-image/ports.ts:79-97 | no port is due a label exactly when the claims before it used all free ports |
| Ports.AllocatedPortsAreOwn | release/vscode-image/ports.ts:99-129 | the map has a port of the range for each label, distinct for distinct labels |
| Ports.SameClaimsAgain | release/vscode-image/ports.ts:111-116 | with all ports remembered and own, the same claims are made again |
| Ports.TwiceClaimedMoves | release/vscode-image/ports.ts:125-128 | a container port asked for twice gets another host port the next time |
| Ports.RestartIsStableIff | release/vscode-image/ports.ts:99-129 | the result fed back as previous is a fixpoint exactly when no container port repeats |
| Ports.MovePort | release/vscode-image/ports.ts:136-148 | exactly when it is allowed one label moves, the others stay, and the map stays injective; each refusal says why |
| Names.NamespacesCollideExactly | release/vscode-image/projects.ts:58-74 | two valid targets share a namespace exactly when they are one target or the one pair of readings of a doubled separator |
| Names.TwoTargetsOneNamespace | release/vscode-image/projects.ts:14-16 | such a pair exists, against the comment |
| Names.ProjectsAreToldApart | release/vscode-image/projects.ts:58-74 | plain and owner-scoped projects never share one, also where a name ends in an underscore |
| Names.SeparatorOverlap | release/vscode-image/projects.ts:27-35 | where two separators overlap in one string they do so by four characters and no other way |
| Names.ProjectNeverHoldsSeparator | release/vscode-image/projects.ts:268-270 | an encoded project never holds the worktree separator, so it is never a worktree's namespace |
| Names.NamespaceIsAName | release/vscode-image/ingress-files.ts:30-34 | every namespace is a name docker takes and that may own a forward |
| Volumes.OwnerIsLongestClaimant | release/vscode-image/policy.ts:204-218 | the owner is a claimant with no longer claim beside it, and there is one whenever anyone claims |
| Volumes.OwnerIgnoresOrder | release/vscode-image/policy.ts:214-218 | the owner's namespace does not depend on the order targets are listed in |
| Projects.List | release/vscode-image/projects.ts:184-220 | what is listed is exactly every encodable top-level directory, what is in those without a spec, and the worktrees of both |
| Projects.UnlistedExactly | release/vscode-image/projects.ts:210-217 | what may be started but contests no name is exactly what stands inside a directory with a spec |
| Volumes.AcceptedExactly | release/vscode-image/policy.ts:547-581 | a volume is accepted for any claimant, listed or not, exactly when nobody listed claims it or the longest listed claim has the claimant's name |
| Volumes.AllowedExactly | release/vscode-image/policy.ts:547-581 | of every mount: allowed are the certificate's bind, the daemon's socket for a feature on its own daemon, and a volume the claimant claims, listed or unclaimed by any listed, that nobody listed claims longer; each other mount gets the refusal it deserves |
| Volumes.NewcomerTakesItsOwn | release/vscode-image/policy.ts:204-218 | one more target listed takes from any other exactly the volumes it claims that were nobody's or that it has the longer claim to, and gives it none |
| Volumes.ShareExactly | release/vscode-image/policy.ts:547-581 | two claimants may both mount some volume exactly when they have one listed name, or the name of one is claimed by the other and by nobody listed |
| Volumes.NoVolumeIsShared | release/vscode-image/policy.ts:547-581 | two valid targets of which one is listed share a volume exactly when they are one, or the pair the encoding confuses |
| Volumes.OnlyHiddenTargetsShare | release/vscode-image/policy.ts:547-581 | of what may be started in a workspace, besides that pair only two targets inside directories with a spec share one, and exactly when nothing listed claims the longer name |
| Volumes.ProjectSharesWithItsWorktreeExactly | release/vscode-image/policy.ts:211-213 | a project and its worktree share a volume exactly when nothing listed claims the worktree's name, and then neither is listed |
| Volumes.HiddenWorktreeShares | release/vscode-image/policy.ts:211-213 | such a pair, in a workspace where both may be started |
| Capacity.Admit | release/vscode-image/capacity.ts:112-137 | the loop comes to the first prefix, longest idle first, that meets both limits, or to none; a refusal names the limit and who is in the way |
| Capacity.ChoiceIsLeast | release/vscode-image/capacity.ts:112-137 | that prefix meets both limits and no shorter one does; with none, no number of candidates would do |
| Capacity.CandidatesAreEvictable | release/vscode-image/capacity.ts:64-73 | candidates are exactly the daemons running, not in use, and last busy before their grace, in order of idleness |
| Capacity.TiesKeepTheirOrder | release/vscode-image/capacity.ts:112-116 | those busy last at one moment keep the order they were listed in |
| Capacity.FreedExactly | release/vscode-image/capacity.ts:124-129 | stopping daemons frees what they are known to hold, and the newcomer's estimate for each of which nothing is known |
| Capacity.EvictsLongestIdle | release/vscode-image/capacity.ts:112-137 | no evicted daemon was busy more recently than a spared one |
| Capacity.RefusedMeansNothingWouldDo | release/vscode-image/capacity.ts:112-137 | after a refusal no set of evictable daemons, prefix or not, would meet both limits |
| Capacity.InTheWayExactly | release/vscode-image/capacity.ts:132-136 | a refusal names exactly the daemons that run and are in use or within their grace |
| Supervisor.Supervisor.Observe | release/vscode-image/supervisor.ts:243-267 | every daemon described once, as it is, with the memory it uses; those in use or first seen are busy now, the others keep their time |
| Supervisor.Supervisor.Ensure | release/vscode-image/supervisor.ts:347-420 | a newcomer has no room only when nothing that may be stopped would make it; otherwise the fewest, longest idle, were stopped, none in use or busy within its grace, and it starts unless docker refuses, with no more than the ceiling running |
| Supervisor.Supervisor.Reset | release/vscode-image/supervisor.ts:422-436 | it adds that one daemon to those running, asking nobody, exactly if it exists and docker restarts it |
| Supervisor.Supervisor.Reap | release/vscode-image/supervisor.ts:484-490 | it stops exactly the daemons nobody is in that were last busy the idle period ago; in the history nobody was seen in them since, and every asking for one since was given up on |
| Supervisor.Supervisor.ReapedThoughAskedFor | release/vscode-image/supervisor.ts:422-436 | a daemon asked for this moment and given up on is reaped in the same moment |
| Supervisor.Supervisor.IdleMeansQuiet | release/vscode-image/supervisor.ts:237-240 | the same of any daemons found idle, so of those evicted |
| History.IdleExactly | release/vscode-image/supervisor.ts:256-261 | the time remembered of a daemon is at most t exactly when it was known by then and neither seen in use nor brought up since; none is remembered exactly when it is unknown or forgotten |
| History.IdleIsQuiet | release/vscode-image/supervisor.ts:418-435 | of a daemon idle since t, every later ensure or reset ended in its being given up on |
| History.AskingSparesIff | release/vscode-image/capacity.ts:104-111 | an ensure or reset spares an idle daemon exactly if the daemon comes up |
| Supervisor.Supervisor.Run | release/vscode-image/supervisor.ts:503-507 | over every run of the queue, waits and status requests interleaved, no more than the ceiling run at any point, and each operation comes to what is said of it |
| Supervisor.EvictionsAreIdleAndRunning | release/vscode-image/supervisor.ts:347-420 | what admission names is running, unused and idle, each once |
| Supervisor.AdmittedLeavesRoom | release/vscode-image/supervisor.ts:347-420 | what is left after the evictions leaves room for one more |
| DaemonHost.Host.RunTarget | release/vscode-image/desolate.ts:2048-2148 | step by step, a start keeps one container at most running on the saved daemon unless docker hides one that must move; a refusal starts nothing and keeps the saved daemon; one that is ready runs on the daemon it declares |
| DaemonHost.Host.StopTarget | release/vscode-image/desolate.ts:1546-1568 | what docker tells of is stopped wherever it runs, and kept |
| DaemonHost.Host.PurgeTarget | release/vscode-image/desolate.ts:1979-2002 | it is refused exactly when docker tells that it runs, a worktree does, or its daemon is not to be had; what is forgotten does not run, and a stopped container docker tells of is gone |
| DaemonRuns.OffSharedMoves | release/vscode-image/desolate.ts:277-303 | gone on to its own daemon, nothing of the target runs on the shared one, if docker tells of it |
| DaemonRuns.OffOwnMoves | release/vscode-image/desolate.ts:310-326 | and the other way; a daemon that does not answer is taken to run nothing |
| DaemonRuns.StartKeepsSoundExactly | release/vscode-image/desolate.ts:2048-2113 | whatever happens meanwhile, one container at most runs after a start, on the saved daemon, exactly unless it passes and the question that would find one elsewhere goes unanswered |
| DaemonRuns.EasyStartExactly | release/vscode-image/desolate.ts:2048-2148 | with every question answered and nothing failing: what a start comes to, and with what the container then runs |
| DaemonRuns.UnheardStartsASecond | release/vscode-image/desolate.ts:277-279 | one unanswered question, two containers |
| DaemonRuns.StopStopsExactly | release/vscode-image/desolate.ts:1546-1568 | nothing of the target runs after a stop exactly unless it runs and docker does not say so |
| DaemonRuns.PurgeRefusesExactly | release/vscode-image/desolate.ts:1979-1985 | what runs is refused exactly when docker says it runs, or a worktree does |
| DaemonRuns.PurgeKeepsSoundExactly | release/vscode-image/desolate.ts:1979-2002 | what a purge forgets does not run, exactly unless two questions about it go unanswered |
| DaemonRuns.StartedIsWithinExactly | release/vscode-image/desolate.ts:2115-2122 | while daemons stay up, what is started was built with no more than is asked, exactly unless the questions about an existing container go unanswered |
| DaemonRuns.UnreadLabelStartsPrivileged | release/vscode-image/policy.ts:96-98 | an unread label, and a privileged container started behind a spec that does not ask for it |
| DaemonRuns.OutagesDefeatTheCheckExactly | release/vscode-image/desolate.ts:2115-2148 | with daemons that go down and come back, a container built beyond its spec is held back only when it is refused at once, or the policy refuses |
| DaemonRuns.EveryRunIsSound | release/vscode-image/desolate.ts:2288-2317 | over any run of starts, stops and purges told what they need, one container at most runs at any point, on the daemon a stop would drive |
| Proposals.ProposalTree | release/vscode-image/docker.ts:532-542 | in any order and with any overlap, the loop leaves the pin at and under the reserved paths and the folder elsewhere |
| Proposals.TakePinned | release/vscode-image/docker.ts:538-539 | one path is replaced by the pin's entries, although an added entry takes out what cannot stand beside it |
| Proposals.NothingIsDisplaced | release/vscode-image/docker.ts:536-540 | no entry the pin brings is above or below one that is to stay |
| Proposals.Nested | release/vscode-image/docker.ts:544-554 | exactly the subrepos below a folder |
| Proposals.Propose | release/vscode-image/docker.ts:532-555 | the whole of a dependency's proposal, path by path, and that it is a tree |
| Proposals.SameExactly | release/vscode-image/docker.ts:568-568 | the tree is the pin's exactly when folder and pin agree on every path that is the project's to propose |
| Proposals.AcceptedLeavesNothing | release/vscode-image/docker.ts:492-498 | once a proposal is pinned upstream, nothing is left to propose |
| Proposals.ProposedOnce | release/vscode-image/docker.ts:492-498 | a path is proposed to one repository at most, the innermost |
| Proposals.Report | release/vscode-image/docker.ts:547-571 | every dependency and no other folder, each with its state |
| Snapshot.Copier.CopyTree | release/vscode-image/snapshot.ts:106-156 | on any tree it returns; what it wrote is the unfolding, or the refusal names a path that justifies it |
| Snapshot.SnapshotDirectory | release/vscode-image/snapshot.ts:167-171 | a copy exactly when the tree is copyable: every path is there that leads somewhere and no other, a file with its bytes and the low nine bits of its mode, a directory as one, all from within the root |
| Snapshot.FollowedStaysWithin | release/vscode-image/snapshot.ts:49-70 | whatever path is followed in a copyable tree ends within the root |
| Snapshot.CyclesAreRefused | release/vscode-image/snapshot.ts:121-133 | a link back above itself, through any number of links, is refused |
| Snapshot.SharedDirectoryIsRefused | release/vscode-image/snapshot.ts:127-134 | so are two links to one directory |
| Snapshot.NotOnlyCyclesAreRefused | release/vscode-image/snapshot.ts:127-132 | with a tree in which no link leads to itself |
| Jsonc.Uncomment | release/vscode-image/jsonc.ts:4-49 | the first scanner computes the text without comments, as defined on what is left of it |
| Jsonc.RemoveTrailingCommas | release/vscode-image/jsonc.ts:55-91 | the second, the text without commas before a closing bracket |
| JsoncTokens.StripKeepsTheTokens | release/vscode-image/jsonc.ts:1-49 | JSON decorated with space, comments and trailing commas lexes to the JSON's own tokens, each string as written |
| JsoncTokens.ADecoratedText | release/vscode-image/jsonc.ts:1-91 | a text with an escaped quote, a trailing comma and both kinds of comment is one such decoration |
| JsoncTokens.JsonIsReturnedAsItIs | release/vscode-image/jsonc.ts:1-91 | JSON without decoration comes back unchanged |
| JsoncTokens.NoCommentSurvives | release/vscode-image/jsonc.ts:1-91 | of any text at all, nothing outside a string begins a comment afterwards |
| JsoncTokens.CommentsAreSeen | release/vscode-image/jsonc.ts:1-49 | no comment outside a string is overlooked, and none is seen inside one |
| JsoncTokens.TokensAreReadBack | release/vscode-image/jsonc.ts:97-97 | tokens with space between them are lexed back as themselves |
| JsoncTokens.WhatIsReadIsProper | release/vscode-image/jsonc.ts:97-97 | whatever is read of a text is made of proper tokens |
| Parser.ParseArgs | release/vscode-image/args.ts:221-434 | however a line is spelled as options, their values and a command after `--`, a last value missing or not, it is taken to mean what those say in turn; and every line is spelled somehow |
| Parser.OptionsSayTheirLast | release/vscode-image/args.ts:221-371 | options are taken exactly when none is refused by itself; then each thing is what was last said of it, a switch is on if it was thrown at all, and the words stand in order |
| Args.ProjectIsNamedAlike | release/vscode-image/args.ts:194-198 | a project named by its path, or with slashes after it, is the project named bare |
| Words.PathsWithinExactly | release/vscode-image/args.ts:185-192 | a path is taken exactly when it is relative, has no segment that goes up, and ends neither a line nor a field |
| Words.PortWordsExactly | release/vscode-image/args.ts:354-354 | a port's word is exactly how a number from 1 to 99999 is written |
| Words.ProjectNamesExactly | release/vscode-image/projects.ts:251-270 | a project's name is one segment or two, each of sixty-four letters, digits and three marks at most, without a reserved sequence |
| Broker.OptionsAreReadBack | release/vscode-image/broker.ts:278-283 | printed options are read back one by one, none taken for another's value |
| Broker.OrderDoesNotMatter | release/vscode-image/args.ts:221-434 | options that do not contradict one another may come in any order |
| Broker.OrderMattersExactly | release/vscode-image/args.ts:221-434 | one command and no option twice: what options say depends on their order exactly when two bundles are named and differ |
| Broker.TwoBundlesInTwoOrders | release/vscode-image/args.ts:221-434 | of two bundles named, the one named last is taken |
| Requests.RequestsArriveAsMeant | release/vscode-image/broker.ts:285-375 | every accepted request becomes a line the runner parses to the same command, project, worktree and values |
| Requests.ReorderedLinesParseAlike | release/vscode-image/args.ts:221-434 | whole printed lines that name one bundle at most parse alike in every order |
| Requests.LineOrderMattersExactly | release/vscode-image/args.ts:221-434 | a coherent line may be reordered exactly when it does not name two bundles that differ |
| Requests.PortsHaveFiveDigits | release/vscode-image/broker.ts:146-157 | every port a request may hold prints as digits the runner's grammar takes |
| QuotedPath.UnquoteGitPath | release/vscode-image/review.ts:85-108 | the loop computes the unquoted path as defined on what is left of it, bytes that are no UTF-8 replaced |
| QuotedPath.QuotedIsReread | release/vscode-image/review.ts:85-108 | a quoted path comes back with each unescaped character outside the first plane as two replacement characters, all else as it was |
| QuotedPath.PathIsReadBackIff | release/vscode-image/review.ts:80-108 | a path git printed comes back as itself exactly when it was not quoted, was octal-escaped, or has no such character |
| QuotedPath.FaceBesideATabIsLost | release/vscode-image/review.ts:92-95 | a path with a tab and a character outside the first plane does not come back |
| QuotedPath.Utf8IsReadBack | release/vscode-image/review.ts:107-107 | the bytes collected decode to the scalars they spell |
| QuotedPath.BytesAreReadAsText | release/vscode-image/review.ts:107-107 | whatever the bytes, they are read as text, which spells them again exactly when they spelled text |
| QuotedPath.DecodingExactly | release/vscode-image/review.ts:107-107 | bytes that begin with a scalar's are read as that scalar and what follows; others give one replacement and what follows those given up on |
| QuotedPath.HopelessExactly | release/vscode-image/review.ts:107-107 | what is given up on is as many bytes as some scalar's might have begun with, no more and no fewer, and one at least |
| QuotedPath.Utf8Exactly | release/vscode-image/review.ts:92-93 | a scalar's bytes are the fewest that hold its bits, each in its range |
| QuotedPath.OctalIsReadExactly | release/vscode-image/review.ts:97-99 | an escape of three digits is read exactly if all are octal, and wraps at a byte |

## Left out

- locks.ts: taking over a dead holder's file is not atomic. One running process per
  target is assumed, in the registry and in `Daemons.dfy`; the cache has one user.
- git beyond bundles, ancestry and refs: refs are flat names (no directory against
  file), there are no shallow clones, a working tree is clean or in the way, and
  `origin/HEAD` is kept as it is. `git check-ref-format` is an input.
- A file system step is atomic; staged file names, and the text of a port file, a port
  map or a `.known` file, are not modelled.
- The length of a name counts characters where the code counts UTF-16 units, and the
  workspaces path, which `args.ts:198` makes a regular expression of, is plain text.
- JSON.parse, JSON.stringify and realpath are taken at their contracts: a theme
  decodes to what was encoded, a link's target is known or broken.
- Changes under the copier while it runs (`snapshot.ts:81-104` guards one file at a time).
- A docker command to a daemon that is up has its effect: that docker refuses is modelled
  for creating and starting, and for every question, not for stopping and removing. No
  container starts because its daemon did.
- DaemonHost.Host.PurgeTarget: the volumes, ports and token it deletes are not modelled.
- DaemonHost.Host.RunTarget: relays, forwards, the editor and the policy's own rules are
  not modelled; whether policy passes is an input, and what a container was built with
  is a set of names.
- Projects.List: a directory that cannot be read, which lists as empty, and what else
  `validate` asks of a real path.
- Proposals.Report: tags, patch ids and `build`'s commit are not modelled, nor paths
  that git would print quoted; a tree's id stands for the tree, and the FAILED of a git
  command that does not do its work is left out.
- Volumes: `mount.parse` and `allowedPairs`, which read a mount out of a string.
- `memoryPlan` and the resizing of a running daemon, and the texts of errors and status.
- `parseReview`, `keepReview` and the review script; deliveries and upstream pushes
  (`transfer.ts:575-660`), which go through the same bundles.
- The editor's start scripts, certificates, hints and panels: texts and field checks.
