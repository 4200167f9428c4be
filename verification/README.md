# Pumba's undo protocols, cgroup paths and compensation, in Dafny

Pumba injects faults into containers and takes them back: it installs packet-queue or firewall rules
in a container's network namespace and removes them, pauses and unpauses, stops and starts, and runs
helper containers ("sidecars") that it has to clean up. This project models those protocols and proves
what they guarantee, on every interleaving, for every answer of the container runtime and for every
fault, and where a guarantee fails, the exact condition under which it holds.

`dafny verify dfyconfig.toml` checks everything.

## How the model is organised

**The network of a container.** `TrafficControl` is an abstract interface: an optional root qdisc, its
classes, child qdiscs and u32 filters, and `tc` commands that are read from the words of the command line
and then either change the tree or are refused (tc(8), tc-netem(8)). `Firewall` is an INPUT chain: `-I`
inserts at the head and `-D` removes the first rule that is equal (iptables(8)); how the kernel spells a
rule is an arbitrary function, so two different command lines may name the same rule.
`NetemPrograms` and `Firewall` give the command lists as functions of the request and the state each list
goes through; `ContainerdCommands` and `DockerCommands` are the two independent builders as they are
written, with their loops, each proved to produce exactly those lists, so both adapters send the same
commands. `RuleTexts` reads the words of a firewall rule option by option (iptables-extensions(8)).

**Any number of runs.** `Protocol` makes every netem and packet-loss run a program with two counters.
Runs on any containers and interfaces interleave command by command, and each command may also be lost
or take effect without being reported, which is also how a cancellation in the middle of a call, a
sidecar that cannot be created and a sidecar that cannot be removed show up: `SidecarRuns` proves, for a
run by itself, that whatever becomes of the sidecars that carry its lists, it ends as a run with the faults
they amount to, and says exactly when it leaves nothing. `Accounts` says what a
namespace owes to whom: the front of the chain holds exactly the live rules, and an interface's tree is
either the original one or the one its single holder's counters describe. `Concurrency` draws the main
theorems from that invariant: the front part and the untouched original chain, every deletion finding
its own rule, the root qdisc acting as a lock, and the whole system being restored. `LoneRun` is the code
of one run in its own form, a class whose methods send commands and stop at the first error, proved to
follow the state machine of `Protocol`; `FaultOutcomes` says exactly what such a run leaves behind for a
fault at any command, and for which faults it leaves nothing. `ExactChains` gives the chain of such a run
as a list: the rules it inserted, the last one first, less those it deleted, one by one.

**cgroup paths.** `GoStrings` holds the string functions of Go that the parsers use and their inverse
laws. `PodmanCgroup` selects the line (the one-pass scan refines a declarative rule), `PodmanLocation`
truncates, names the driver, splits parent and leaf and places the stress sidecar, `ContainerdCgroup` is
the other parser, with its early exit. The format of the lines is the one of cgroups(7).

**Targets, compensation and sidecars.** `Targets` lists, filters, shuffles, cuts and dispatches. `Ticks` is
a world of containers, the log of the calls one tick of a pause or stop command makes, and exactly what a
tick leaves of every container; `Cancellation` says which undo calls a cancellation loses; `Compensation` is
the commands and the interval loop as the code writes them. `Sidecars` (Docker's network sidecars),
`StressSidecars` (the stress sidecars of Docker and podman) and `ContainerdSidecars` (all sidecars of
containerd) log every call and state what the log amounts to: the last one as a protocol that each call has
to obey. `ContainerdStop` and `DockerStop` are the two ways to stop a container and to escalate to SIGKILL.
Every remote call may give every answer. `Channels` is the one-slot channel on which Docker and podman send
a stress verdict.

## What is false, and when exactly it holds

- *Parent and leaf rejoin to the path.* False for paths like `//b`, which the podman parser accepts
  (`DoubleSlashAccepted`). `ParentLeafRejoinIff`: it holds exactly for paths that contain a slash and are not
  two slashes followed by a name without one.
- *An accepted path names a cgroup.* A line `0:://` is accepted as the empty path (`SlashesAccepted`);
  `EmptyPathAcceptedIff` says that exactly paths of two or more slashes and nothing else do this.
- *Inserting a line that cannot be picked never changes podman's answer.* It changes exactly the answer
  "malformed", when the inserted line has three fields (`InsertedLineIgnored`), as in `InsertedLineChangesAnswer`.
- *Containerd's scan finds the first v2 path, else the first memory path.* A v2 line without a path ends
  the scan and hides what follows, as in `PathlessV2HidesMemory`. `ScanMeetsRuleIff` says exactly when the
  rule holds: unless the scan ends at such a line and what lies behind it would have mattered. Absolute
  paths suffice (`ScanIsIntended`).
- *The unfiltered stop commands of the two adapters are interchangeable.* Only on a bare tree or one whose root is a
  netem qdisc (`UnfilteredStopsAgreeIff`), which covers every tree the install can leave.
- *A paused or stopped container is resumed before the tick returns.* Not if the action took effect and
  was reported as failed (`UnreportedActionStays`), or the undo was lost. `TickOutcome` says exactly what a tick
  leaves of every container, and `RunOutcome` what a whole run does.
- *A cancellation does not lose the compensation.* It loses none when the wait sees it and takes it, unless
  the duration then runs out. But after the timer the undo calls run under the cancellable context, so a
  cancellation loses every undo from that moment on, and all of them if it was ready together with the timer and
  the timer was taken (`CancelledUndoStays`). `UndoLostIff` and `CancellationOutcome` are exact.
- *A stop or restart without an error has seen the exit.* Containerd's stop takes any event on the wait
  channel for the exit, without looking at the status it carries. `ExitIsRealIff`: that the task is dead follows
  exactly if the event carried an exit code; in `BlindRestartSucceeds` a living task is deleted and started again.
- *A failed run leaves nothing behind.* A failed install sends no undo at all, and a failed undo is only logged:
  the run returns no error. `InstallFaultOutcome` and `UndoFaultOutcome` say exactly what is left, and
  `RestoredIff` when that is nothing, for all faults: none at all, the very first command lost, or only
  the report of the very last one lost; or the interface was missing or taken from the start.

One smaller thing the code does and the model keeps: a Docker stop whose wait time is zero or negative can
never succeed, since a timer that is due at once and seen at once leaves no inspection
(`DockerStop.StopOutcome`).

## Model

| member | source | states |
|---|---|---|
| ContainerdCommands.BuildNetemCommands | pkg/runtime/containerd/commands.go:17-58 | the list built in loops is one root command without filters, else the three bands, the emulation on the third, and one filter per listed network and port in order |
| ContainerdCommands.BuildStopNetemCommands | pkg/runtime/containerd/commands.go:62-72 | the undo list that matches what the request's filters installed |
| ContainerdCommands.BuildIPTablesCommands | pkg/runtime/containerd/commands.go:76-117 | one command per listed address and port in order, or one that nothing narrows if none is listed |
| ContainerdCommands.NetemContainer | pkg/runtime/containerd/netem.go:12-22 | sends exactly the install list, and nothing in a dry run |
| ContainerdCommands.StopNetemContainer | pkg/runtime/containerd/netem.go:25-36 | sends exactly containerd's undo list |
| ContainerdCommands.IPTablesContainer | pkg/runtime/containerd/iptables.go:14-39 | install and undo send exactly the list of their request |
| DockerCommands.NetemContainer | pkg/runtime/docker/netem.go:13-30 | Docker sends the very list containerd sends, for every request |
| DockerCommands.StartNetemContainer | pkg/runtime/docker/netem.go:48-69 | the same, without filters |
| DockerCommands.StartNetemContainerIPFilter | pkg/runtime/docker/netem.go:113-190 | the same, with filters, from an independently written builder |
| DockerCommands.StopNetemContainer | pkg/runtime/docker/netem.go:71-111 | containerd's list with filters; without, a list that names the kind as well |
| DockerCommands.IPTablesContainer | pkg/runtime/docker/iptables.go:55-73 | Docker sends the very list containerd sends, for install and undo alike |
| DockerCommands.IPTablesContainerWithIPFilter | pkg/runtime/docker/iptables.go:75-135 | the same, with filters |
| NetemPrograms.InstallReads | pkg/runtime/containerd/commands.go:17-58 | each install command line, read as `tc` reads it, asks for the operation that belongs at its place |
| NetemPrograms.StopReads | pkg/runtime/docker/netem.go:71-111 | each undo command line, of either adapter, asks for the deletion that belongs at its place |
| NetemPrograms.InstallStep | pkg/runtime/containerd/commands.go:26-57 | every install command is legal at its turn: its parent class exists and the slot is free |
| NetemPrograms.StopStep | pkg/runtime/containerd/commands.go:62-72 | every undo command finds what it deletes, children before the root, and the last leaves the interface bare |
| NetemPrograms.FirstCommandLockedOut | pkg/runtime/containerd/commands.go:17-31 | on an interface with a root qdisc the first command of any install is refused |
| NetemPrograms.FiltersRouteExactly | pkg/runtime/containerd/commands.go:40-56 | a request that lists any network or port ends in a tree of three bands, the third with the emulation, and a packet goes to 1:3 exactly if its destination lies in a listed network or one of its ports is listed |
| NetemPrograms.UnfilteredAtRoot | pkg/runtime/containerd/commands.go:17-24 | a request that lists none ends, after one command, in a root qdisc with the emulation |
| NetemPrograms.IssuesUnlessDry | pkg/runtime/containerd/netem.go:12-36 | install and undo send commands exactly if the run is not dry |
| NetemPrograms.ListedIffSelected | pkg/runtime/containerd/commands.go:40-56 | a packet is listed by the request if and only if some generated filter selects it |
| NetemPrograms.UnfilteredStopsAgreeIff | pkg/runtime/docker/netem.go:71-111 | the adapters' unfiltered stops act alike exactly on a bare tree or one with a netem root |
| NetemPrograms.StopsAgreeAfterInstall | pkg/runtime/containerd/commands.go:62-72 | they act alike on every tree the matching install can leave, complete or cut short |
| Firewall.RemoveFirstInFront | pkg/runtime/containerd/commands.go:76-117 | a rule that occurs in the front of a chain is deleted there, and the rest of the chain is untouched even if it holds an equal rule |
| Firewall.CommandsPair | pkg/chaos/iptables/loss.go:92-121 | command by command, install and undo name the same rule, one inserting and the other deleting it |
| RuleTexts.LinesAskForLoss | pkg/chaos/iptables/loss.go:92-121 | every install and undo line, read option by option, asks for exactly the interface, protocol, mode with each of its values, the one listed value under its own option, and DROP |
| RuleTexts.IssuesUnlessDry | pkg/runtime/containerd/iptables.go:14-39 | lines are issued exactly if the run is not dry |
| LoneRun.BuildIPTablesCmd | pkg/chaos/iptables/loss.go:106-121 | the two prefixes differ in the verb alone, and share interface, protocol and suffix |
| LoneRun.LossRequests | pkg/chaos/iptables/loss.go:92-98 | the undo request is the install request with the other prefix |
| LoneRun.ErrorHidesEffectIff | pkg/runtime/containerd/task.go:166-202 | every accepted command shows in the namespace, so after an error it differs exactly if the command was accepted and only its report was lost |
| LoneRun.Netns.RunCommands | pkg/runtime/containerd/netem.go:38-45 | commands go out in order, the first error ends the list, and the namespace is the one the state machine reaches |
| LoneRun.RunNetem | pkg/chaos/netem/netem.go:24-66 | the code's run ends as the state machine does, with the same namespace and the same verdict, for all faults |
| LoneRun.RunIPTables | pkg/chaos/iptables/iptables.go:33-77 | the same for a packet-loss run |
| LoneRun.RunInstallAndUndo | pkg/chaos/netem/netem.go:38-65 | no undo after a failed install; a failed undo is no error |
| LoneRun.SoloIsRunStep | pkg/chaos/netem/netem.go:38-65 | a step of a run alone is the step it takes in the system |
| Accounts.ChainShrinks | pkg/runtime/containerd/iptables.go:41-49 | deleting any live rule keeps the chain a front of exactly the live rules before the original |
| Accounts.ChainRestored | pkg/chaos/iptables/iptables.go:33-77 | a chain with no live rule left is the original as a list |
| Accounts.TreeMoves | pkg/chaos/netem/netem.go:38-64 | the holder of an interface may change its tree without disturbing what anyone else answers for |
| Accounts.RestoredIffNothingHeld | pkg/chaos/netem/netem.go:24-66 | a namespace equals its starting value if and only if nobody answers for anything in it |
| Protocol.NextOp | pkg/chaos/netem/netem.go:38-64 | the next command of a netem run moves the tree its counters describe to the one they describe next |
| Protocol.LossEffect | pkg/chaos/iptables/iptables.go:49-74 | a loss command always succeeds and changes the front of the chain by exactly the run's own rule |
| Protocol.CommandEffect | pkg/chaos/runner.go:92-96 | a command can only be refused before its run has had any effect, and one that is not keeps all accounts |
| Protocol.RunStepKeeps | pkg/chaos/netem/netem.go:38-64 | every step of every run, with every fault, keeps the account of all namespaces |
| Protocol.ReachableInv | pkg/chaos/runner.go:92-96 | the accounts explain every namespace in every reachable state |
| Concurrency.ChainIsFrontAndOriginal | pkg/chaos/iptables/iptables.go:49-75 | in every reachable state the INPUT chain is a front part, as a multiset the rules installed and not yet deleted, before the untouched original |
| Concurrency.DeleteFindsItsRule | pkg/chaos/iptables/loss.go:92-98 | every deletion succeeds, removes a rule of that front part and leaves the original chain alone, even among equal rules |
| Concurrency.TraceIffActive | pkg/chaos/netem/netem.go:38-64 | a run answers for something exactly between its first effect and its last undo |
| Concurrency.RootIsLock | pkg/chaos/netem/netem.go:38-64 | at most one run holds an interface, its tree was bare before and now is exactly what the holder's counters say |
| Concurrency.OthersAreLockedOut | pkg/chaos/netem/netem.go:38-40 | while an interface is held, any other run's next command on it changes nothing and ends that run with an error |
| Concurrency.UnchangedIffNoneActive | pkg/chaos/runner.go:92-96 | in every reachable state, faults or not, a container's network is its starting value if and only if no run on it is active |
| Concurrency.AllUndone | pkg/chaos/netem/netem.go:24-66 | once all runs have returned without a fault, every chain and every tree of every container is its starting value |
| Concurrency.RootedInterfaceUntouched | pkg/chaos/netem/netem.go:38-40 | a tree that had a root qdisc at the start never changes |
| Concurrency.RunsOnRootedFail | pkg/chaos/netem/netem.go:38-40 | every netem run on such an interface fails without effect |
| Concurrency.OnlyFaultsLeaveTraces | pkg/chaos/iptables/iptables.go:49-74 | a run that returned and still answers for something met a fault |
| Concurrency.RunsReturn | pkg/chaos/iptables/iptables.go:33-77 | a run scheduled often enough has returned, whatever the others do and whatever fails |
| FaultOutcomes.NextSucceeds | pkg/runtime/containerd/netem.go:38-45 | without a fault no command of a lone run is refused |
| FaultOutcomes.InstallFaultOutcome | pkg/chaos/netem/netem.go:38-40 | a fault at install command k leaves exactly the effect of the commands that happened, for packet loss as an exact list, sends no undo and is an error; nothing is left exactly if the very first command was lost |
| FaultOutcomes.UndoFaultOutcome | pkg/chaos/netem/netem.go:49-65 | a fault at undo command j leaves exactly the installation minus the undo commands that happened, for packet loss as an exact list, and is no error; nothing is left exactly if only the very last report was lost |
| FaultOutcomes.RestoredIff | pkg/chaos/iptables/iptables.go:49-74 | for all namespaces, requests and faults: when a lone run restores the namespace, and when it returns an error, both exactly |
| ExactChains.NextWithout | pkg/chaos/iptables/iptables.go:61-75 | deleting in the order of insertion finds every rule, among equal ones too |
| ExactChains.FrontIsLive | pkg/chaos/iptables/iptables.go:49-75 | the exact list holds exactly the rules installed and not yet deleted |
| ExactChains.CommandKeepsExactChain | pkg/runtime/containerd/iptables.go:41-49 | every command of a lone packet-loss run succeeds and moves its exact list one step, before the untouched original |
| ExactChains.RestStacked | pkg/chaos/iptables/iptables.go:61-75 | without equal rules an interrupted cleanup leaves the remaining rules as an installation of them would |
| FaultOutcomes.CleanOutcome | pkg/chaos/iptables/iptables.go:33-77 | without a fault a lone run returns no error and leaves the namespace as it was |
| GoStrings.SplitJoin | pkg/runtime/podman/cgroup.go:184-193 | splitting at a separator undoes joining |
| GoStrings.JoinSplit | pkg/runtime/podman/cgroup.go:184-193 | joining undoes splitting |
| PodmanCgroup.HasSubsystem | pkg/runtime/podman/cgroup.go:163-170 | found exactly if the name is one of the comma-separated controllers |
| PodmanCgroup.LineOfFields | pkg/runtime/podman/cgroup.go:123-159 | a line with any space around it reads as its three fields say: v2, the systemd hierarchy, or another controller; the path keeps its colons |
| PodmanCgroup.SelectCgroupPath | pkg/runtime/podman/cgroup.go:123-159 | the one-pass scan finds the first v2 line with a path, else the first name=systemd line with one |
| PodmanCgroup.SelectedIsFirst | pkg/runtime/podman/cgroup.go:123-159 | where the answer stands in the file and that nothing of a higher priority stands before or anywhere |
| PodmanCgroup.MalformedIff | pkg/runtime/podman/cgroup.go:123-159 | the malformed error occurs exactly if no line has three fields |
| PodmanCgroup.InsertedLineIgnored | pkg/runtime/podman/cgroup.go:123-159 | inserting a line that cannot be picked changes the answer exactly if it was malformed and the line has three fields |
| PodmanCgroup.InsertedLineChangesAnswer | pkg/runtime/podman/cgroup.go:104-159 | contents in which it does |
| PodmanCgroup.ExchangedLinesIgnored | pkg/runtime/podman/cgroup.go:123-159 | exchanging neighbouring lines never changes the answer, unless both have a path that the same rule picks |
| PodmanCgroup.PrintedLineParses | pkg/runtime/podman/cgroup.go:123-159 | printing a path as a v2 line and parsing it gives the path back, colons included |
| PodmanCgroup.PrintedSystemdParses | pkg/runtime/podman/cgroup.go:123-159 | the same for a path printed as a name=systemd line |
| PodmanCgroup.RawCgroupPath | pkg/runtime/podman/cgroup.go:104-118 | the trimmed contents' selected path without trailing slashes, or the error for an empty file, a malformed one, no line, or a private view |
| PodmanCgroup.SurroundingSpaceIgnored | pkg/runtime/podman/cgroup.go:104-118 | space around the contents changes nothing, and the empty-file error occurs exactly for contents of nothing but space |
| PodmanCgroup.PrintedRawPath | pkg/runtime/podman/cgroup.go:104-118 | a printed path is accepted as it is, but for trailing slashes, unless it is a private view |
| PodmanCgroup.EmptyPathAcceptedIff | pkg/runtime/podman/cgroup.go:104-118 | the empty path is accepted exactly for a selected path of two or more slashes alone |
| PodmanCgroup.SlashesAccepted | pkg/runtime/podman/cgroup.go:104-118 | contents that are accepted as the empty path |
| PodmanLocation.LastIndexEndingIn | pkg/runtime/podman/cgroup.go:198-211 | the last segment that ends in the suffix and is not empty nor, where it is to be skipped, init.scope; -1 only if there is none |
| PodmanLocation.TruncateToContainerScope | pkg/runtime/podman/cgroup.go:184-193 | the code cuts where the rule for scopes and slices says |
| PodmanLocation.TruncateKeeps | pkg/runtime/podman/cgroup.go:184-193 | the result is a prefix of the path that ends on a segment boundary |
| PodmanLocation.TruncateEndsInScope | pkg/runtime/podman/cgroup.go:184-211 | if some segment ends in .scope and is not init.scope, the last kept one is such a segment and no cut one is; else the same for .slice; else nothing is cut |
| PodmanLocation.BelowScopeIsCut | pkg/runtime/podman/cgroup.go:184-211 | a segment below a container scope, init.scope included, is cut off, unless it is a scope of its own |
| PodmanLocation.InitScopeIsCut | pkg/runtime/podman/cgroup_test.go:56-57 | the path of a container scope followed by init.scope truncates to the scope |
| PodmanLocation.TruncateIdempotent | pkg/runtime/podman/cgroup.go:184-193 | truncating twice is truncating once |
| PodmanLocation.DriverIff | pkg/runtime/podman/cgroup.go:215-220 | the driver is systemd exactly if .slice or .scope occurs somewhere in the path, and cgroupfs otherwise |
| PodmanLocation.CgroupfsMeansUntruncated | pkg/runtime/podman/cgroup.go:215-220 | the cgroupfs driver is only named for a path that was not truncated |
| PodmanLocation.LeafHasNoSlash | pkg/runtime/podman/cgroup.go:225-234 | the leaf is one segment |
| PodmanLocation.ParentLeafRejoinIff | pkg/runtime/podman/cgroup.go:225-234 | parent and leaf rejoin to the path exactly if it has a slash and is not two slashes before a single name |
| PodmanLocation.DoubleSlashAccepted | pkg/runtime/podman/cgroup.go:77-97 | a contents that is accepted and whose parent and leaf do not rejoin |
| PodmanLocation.ParseProc1Cgroup | pkg/runtime/podman/cgroup.go:77-97 | accepts exactly what the raw parser accepts, with the same errors, and locates the raw path |
| PodmanLocation.ResolveCgroup | pkg/runtime/podman/stress.go:131-180 | the second parse never fails, each error has exactly its cause, and procsPath is fullPath or below it whatever the probe says |
| PodmanLocation.SidecarSharesAncestors | pkg/runtime/podman/stress.go:200-239 | an injected sidecar joins the procs path; otherwise its cgroup parent is the root, an ancestor of the target's cgroup or that cgroup: with cgroupfs exactly the cgroup itself, with systemd the one in which the target's own lies, so that the two are siblings |
| ContainerdCgroup.ResolveCgroupPath | pkg/runtime/containerd/cgroup.go:38-71 | the pass with its break and fallback finds the scan's path and cuts its parent; unreadable or pathless is an error |
| ContainerdCgroup.EntryOfFields | pkg/runtime/containerd/cgroup.go:43-62 | what the scan sees in any line of three fields: root path, v2, memory somewhere among the controllers, or another |
| ContainerdCgroup.ShortEntry | pkg/runtime/containerd/cgroup.go:45-48 | a line with fewer than three fields is skipped |
| ContainerdCgroup.ScanIsIntended | pkg/runtime/containerd/cgroup.go:43-65 | for absolute paths the early exit still finds the first non-root v2 path, else the first non-root memory path |
| ContainerdCgroup.ScanOnAnyInput | pkg/runtime/containerd/cgroup.go:43-65 | on any input: the rule, cut off at a v2 line without a path |
| ContainerdCgroup.ScanMeetsRuleIff | pkg/runtime/containerd/cgroup.go:43-65 | exactly when the scan meets the rule, on any input |
| ContainerdCgroup.PathlessV2HidesMemory | pkg/runtime/containerd/cgroup.go:43-65 | contents in which the scan finds nothing although a memory path follows |
| ContainerdCgroup.ParentsAgree | pkg/runtime/containerd/cgroup.go:66-69 | on every path the parent is the one the podman parser splits off |
| ContainerdCgroup.ParsersAgree | pkg/runtime/containerd/cgroup.go:38-71 | both parsers read the same path from a printed v2 line |
| Targets.MatchNames | pkg/container/filter.go:10-21 | found exactly if some name is the container's id, its name, or its name after a leading slash |
| Targets.KeptExactly | pkg/container/filter.go:38-50 | the filter keeps every accepted container as often as it is listed, and no other |
| Targets.KeptIff | pkg/container/filter.go:24-50 | a container is kept exactly if it is listed, neither label is "true", and some given name is its id, name or name after the slash, or, if no names are given, the pattern matches its name or its name after the slash |
| Targets.Shuffle | pkg/container/util.go:52-65 | a permutation, for any draws |
| Targets.ListNContainersAll | pkg/container/util.go:52-65 | `limit` of the kept containers if the limit is positive and smaller than their number, and otherwise all of them in order |
| Targets.ChosenWereAccepted | pkg/container/filter.go:38-50 | nothing chosen carries a true pumba or skip label, and nothing is chosen more often than it was listed |
| Targets.RunSerially | pkg/chaos/runner.go:84-91 | calls exactly the prefix through the first error, and fails exactly if that call did |
| Targets.RunInParallel | pkg/chaos/runner.go:92-96 | overlapping in any way, the action on each target begins once and ends once, all have ended at the end, and it fails exactly if some call did |
| Targets.RunOnContainers | pkg/chaos/runner.go:63-97 | how many targets are called, out of which, and when the dispatch fails, for every mode |
| Compensation.Act | pkg/chaos/lifecycle/pause.go:56-72 | the containers recorded as acted on are exactly the prefix of the targets whose call succeeded |
| Compensation.Compensate | pkg/chaos/lifecycle/pause.go:91-101 | each recorded container gets exactly one undo attempt, in order, whatever fails |
| Compensation.RunTick | pkg/chaos/lifecycle/stop.go:57-100 | actions up to the first failure, then for a pause or a stop with restart one undo each, every call under the context of its branch of the wait; an error exactly if a call or the listing failed |
| Compensation.RunChaosCommand | pkg/chaos/command.go:100-137 | the whole log is one tick per round with its contexts, the loop ends exactly on an error not skipped, a cancellation or a zero interval, every container is then exactly what the ticks that do not spare it made of it, and the promise of the command is kept |
| Ticks.EventOn | pkg/chaos/lifecycle/pause.go:56-88 | what one call does to the state of its container, and when it is reported as a success |
| Ticks.ActedOnce | pkg/chaos/lifecycle/pause.go:56-66 | no container is acted on twice in one tick, even if it is listed twice |
| Ticks.TickOutcome | pkg/chaos/lifecycle/pause.go:56-88 | what a tick leaves of any container, exactly: a running one is left paused or stopped if and only if it was reached, its action was not lost, and its undo did not take effect or was not called |
| Ticks.GoodTickRestores | pkg/chaos/lifecycle/stop.go:74-100 | if every call of a tick of a pause or a stop with restart succeeds, every container is as it was |
| Ticks.StopTickStays | pkg/chaos/lifecycle/stop.go:57-80 | a tick of a stop without restart only stops, and what it stopped was running and is exited |
| Cancellation.UndoLostIff | pkg/chaos/lifecycle/pause.go:74-84 | exactly which undo calls find their context done, on the timer and on the cancel branch |
| Cancellation.CancellationOutcome | pkg/chaos/lifecycle/stop.go:86-96 | if nothing but the cancellation goes wrong, exactly the containers whose undo it loses are left paused or stopped |
| Cancellation.CancelledUndoStays | pkg/chaos/lifecycle/pause.go:81-84 | a run in which the cancellation is ready with the timer and the unpause is never sent |
| Cancellation.ReadyCancellation | pkg/chaos/lifecycle/pause.go:74-84 | a cancellation that is ready when the wait ends loses all undo calls or none, by which branch is taken |
| Ticks.UnreportedActionStays | pkg/chaos/lifecycle/pause.go:56-88 | a call that fails after taking effect is never compensated |
| Compensation.RunOutcome | pkg/chaos/command.go:118-136 | over any number of ticks, failures, selections and cancellations: a container that was running is left paused or stopped exactly if some tick does not spare it, and every other one is as it was |
| Compensation.RunPromiseKept | pkg/chaos/lifecycle/stop.go:57-100 | over a whole run: a pause, or a stop with restart, whose calls all succeed leaves every container as it was; a stop without restart never starts anything and every container it stopped stays exited |
| Sidecars.Daemon.RemoveSidecar | pkg/runtime/docker/sidecar.go:33-43 | one removal attempt, looked into at most once, and no error exactly if the sidecar is gone or going |
| Sidecars.Daemon.SidecarRemovalComplete | pkg/runtime/docker/sidecar.go:45-66 | a failed removal counts only if the sidecar was gone, or timed out and is seen leaving |
| Sidecars.Daemon.RunSidecarExec | pkg/runtime/docker/sidecar.go:158-180 | the command is created, run and read, in this order, to its end or the first call that fails; success exactly if its exit code was read and is 0 |
| Sidecars.Daemon.RunCommands | pkg/runtime/docker/sidecar.go:121-126 | the commands begun are a prefix, all but a failing last one succeeded, and every result that was read belongs to a command that was created and run just before |
| Sidecars.Daemon.RunSidecar | pkg/runtime/docker/sidecar.go:71-132 | commands begin only after creation and start; no error only if every command ran once, in order, with exit code 0, and the removal completed |
| Sidecars.SucceededWereRun | pkg/runtime/docker/sidecar.go:158-180 | every command counted as succeeded was created, run and read with exit code 0, in three calls that follow each other |
| Sidecars.EveryCommandWasRun | pkg/runtime/docker/sidecar.go:71-132 | after a run without an error each command of the list stands in the log as created, run and read with code 0, after the start of the sidecar |
| Sidecars.RemovedAsOftenAsCreated | pkg/runtime/docker/sidecar.go:111-131 | on every path as many removal attempts as sidecars created |
| StressSidecars.LaunchOnDocker | pkg/runtime/docker/stress.go:81-161 | a started sidecar was attached before its start and is not removed; a created one that was not attached or not started is removed exactly once |
| StressSidecars.LaunchOnPodman | pkg/runtime/podman/stress.go:87-111 | the same with a single attempt whose answer is ignored |
| StressSidecars.LaunchConserves | pkg/runtime/docker/stress.go:103-160 | creations minus removals is one exactly if the sidecar runs |
| StressSidecars.DrainStressOutput | pkg/runtime/podman/stress.go:278-298 | exactly one message, then both channels closed; output exactly if it was read to the end and the exit code is 0 or no state is shown, and otherwise an error that names the cause |
| ContainerdSidecars.Session.ExecTask | pkg/runtime/containerd/task.go:166-202 | a process that was created is deleted once, however its command ended, and only exit code 0 is success |
| ContainerdSidecars.Session.CleanupSidecar | pkg/runtime/containerd/sidecar.go:134-156 | a task that is found is killed and deleted once, and the container is deleted once whatever fails |
| ContainerdSidecars.Session.RunSidecarCommands | pkg/runtime/containerd/sidecar.go:80-94 | no error exactly if the task was started and all commands succeeded in order |
| ContainerdSidecars.Session.SidecarExec | pkg/runtime/containerd/sidecar.go:29-95 | on every path one removal per sidecar, after the kill and delete of its task if that is found; a failed cleanup is no error, any failed command is |
| ContainerdSidecars.Session.StartSidecarTask | pkg/runtime/containerd/stress_sidecar.go:121-139 | the wait is registered before the start; a task that could not be started is deleted |
| ContainerdSidecars.Session.CreateStressSidecar | pkg/runtime/containerd/stress_sidecar.go:56-118 | a stress sidecar that does not run is removed once, after its task |
| ContainerdSidecars.Session.AwaitTask | pkg/runtime/containerd/stress_sidecar.go:154-170 | what the select yields: an exit, or none after a kill and a second wait; the task is killed exactly after a cancellation |
| ContainerdSidecars.Session.WaitStressSidecar | pkg/runtime/containerd/stress_sidecar.go:142-198 | exactly one message in total, on the output channel exactly for exit code 0, task and container deleted, both channels closed, every one of these calls allowed at its turn |
| ContainerdSidecars.Session.Deliver | pkg/runtime/containerd/stress_sidecar.go:151-197 | the one message goes into an empty open channel, after the cleanup, names the way the wait ended, and the closes follow |
| ContainerdSidecars.Session.StressSidecar | pkg/runtime/containerd/stress.go:63-84 | over the whole life as many deletes as creations, of task and container, and one verdict exactly if it was started |
| ContainerdSidecars.OrderlyIsConsistent | pkg/runtime/containerd/sidecar.go:53-94 | no list of calls that obeys the protocol removes twice or removes what was not created |
| ContainerdSidecars.MessageAfterCleanup | pkg/runtime/containerd/stress_sidecar.go:172-197 | task delete, container delete, message, in this order, and after the message nothing but the closes |
| ContainerdSidecars.ClosedAfterMessage | pkg/runtime/containerd/stress_sidecar.go:151-198 | no channel is closed before the message |
| SidecarRuns.DockerAttempt | pkg/runtime/docker/sidecar.go:71-132 | how far any Docker sidecar gets with its list, and with which verdict |
| SidecarRuns.ContainerdAttempt | pkg/runtime/containerd/sidecar.go:29-95 | the same for a containerd sidecar |
| SidecarRuns.AttemptIsFaultyList | pkg/runtime/docker/sidecar.go:121-131 | whatever becomes of a sidecar, its list has the effect and the verdict of a list sent with some faults |
| SidecarRuns.SidecarRunIsFaultyRun | pkg/chaos/netem/netem.go:38-65 | a lone run through two sidecars ends as the run with the faults their attempts amount to |
| SidecarRuns.AttemptsLeaveNothingIff | pkg/chaos/netem/netem.go:38-65 | those faults leave nothing exactly if no install command took effect, or all undo commands did |
| SidecarRuns.SidecarRunRestoredIff | pkg/chaos/netem/netem.go:38-65 | exactly when a lone run through sidecars restores the namespace, by how far each sidecar got |
| SidecarRuns.DockerRunRestoredIff | pkg/runtime/docker/sidecar.go:71-132 | the same read off two Docker sidecars' logs; both without an error suffices |
| SidecarRuns.ContainerdRunRestoredIff | pkg/runtime/containerd/sidecar.go:29-95 | the same for two containerd sidecars |
| ContainerdStop.Session.StopTask | pkg/runtime/containerd/task.go:72-113 | no error exactly if the wait channel delivered anything; with an exit code the task is dead; the task is deleted once in those runs and never otherwise; SIGKILL follows the stop signal whenever the grace timer fires; an error after the signal means a refused signal, a cancellation, or both timers over after both signals |
| ContainerdStop.Session.Select | pkg/runtime/containerd/task.go:88-111 | what one select can yield, and that a code comes only after the task died |
| ContainerdStop.Session.AwaitExit | pkg/runtime/containerd/task.go:86-112 | the two selects: SIGKILL exactly on the grace timer's branch, and an error only after a refused SIGKILL, a cancellation or the second timer |
| ContainerdStop.Session.FindOrMakeTask | pkg/runtime/containerd/task.go:135-144 | no error exactly if there is a task to start: the one that was found, or a new one where there was none |
| ContainerdStop.Session.BringUp | pkg/runtime/containerd/task.go:130-146 | at most one start, and no error exactly if it succeeded |
| ContainerdStop.Session.RestartContainer | pkg/runtime/containerd/client.go:148-159 | no error exactly if the wait was answered and the start succeeded; no start without an answer, which means the exit only if it carried a code |
| ContainerdStop.StartsAfterAnswer | pkg/runtime/containerd/client.go:148-159 | before any start: the wait registered, then the signal, then an answer on the wait channel, then the task's deletion |
| ContainerdStop.CodeMeansDead | pkg/runtime/containerd/task.go:88-90 | in every orderly list of calls an answer with a code comes from a dead task |
| ContainerdStop.ExitIsRealIff | pkg/runtime/containerd/task.go:88-106 | an answer proves the task dead exactly if it carries a code |
| ContainerdStop.BlindRestartSucceeds | pkg/runtime/containerd/client.go:148-159 | a restart without an error whose task never died, for every answer without a code |
| ContainerdStop.EscalatesAfterGrace | pkg/runtime/containerd/task.go:94-100 | of two signals the first is the stop signal, the second is SIGKILL, and the grace timer fired between them |
| ContainerdStop.BothTimersOver | pkg/runtime/containerd/task.go:94-112 | the last timer ends a stop only after the stop signal, the grace timer and SIGKILL, in this order |
| DockerStop.Engine.WaitForStop | pkg/runtime/docker/lifecycle.go:194-219 | ends, with at most ten inspections a second; succeeds exactly if the last saw the container stopped; if time ran out, the whole wait time has passed |
| DockerStop.Engine.StopContainer | pkg/runtime/docker/lifecycle.go:56-98 | SIGTERM unless another signal is given; the escalation comes only after a failed first wait and decides by the second; each wait that ran out of time took its whole time |
| DockerStop.StopOutcome | pkg/runtime/docker/lifecycle.go:56-98 | no error exactly if some inspection saw the container stopped; an error means a refused signal, or both signals accepted and a second wait that failed; SIGKILL follows the stop signal at most once; at most 20 inspections a second of wait time |

## Left out

- Real time: durations are a timer that fires or does not; only the Docker polling counts milliseconds, with a timer that is seen as soon as it is due. The 30-second limits around cleanups are faults of the calls inside them.
- Docker, containerd and podman client calls, HTTP, image pulls, JSON streams, logging, flags: every remote call gives any answer.
- Which of two ready branches a Go select takes is left open everywhere; so is whether the interval loop runs one more tick when a cancellation and a tick are both ready.
- How numbers are printed (probabilities, packet counts) and how addresses and ports are read: they are texts, and the routing theorem holds for every reading of them.
- What the kernel does with `--mode nth` and `random` counters, with IPv6, and with malformed parameters: a command line that is not understood is refused.
- The prio qdisc's default priority map: only what the installed filters do is stated, not which band other traffic takes.
- Qdisc trees deeper than one level below the root: no list the code builds makes one.
- Matching of container names by a regular expression is a parameter; container name resolution, label lists and `re2:` patterns are not modelled.
- The label of sidecars: containerd's network sidecars carry no skip label, so nothing is stated about their exclusion from later targeting.
- The consumer of a stress verdict: its select can read a closed channel, so only the producer's side is stated.
- Compensation.RunChaosCommand: the loop is followed for any given number of rounds instead of without end; each round's listing and the way its waits end are inputs, and the moment of the cancellation is counted in calls.
- SidecarRuns.SidecarRunIsFaultyRun: stated for a run by itself; in the system of `Protocol` the same faults may surround every command, but sidecars are not taken apart there.
- Ticks.EventOn: stopping a paused container is refused in the model of the runtime, and starting a running one changes nothing.
- StressSidecars.DrainStressOutput: on Docker an inspection without a state would be a nil dereference; only podman's code tests for it.
- StressSidecars.LaunchOnDocker: the reader goroutine that Docker starts before the container is started is modelled separately.
- DockerStop.Engine.WaitForStop: an inspection that answers without a state is not modelled.
- LoneRun.Netns.ExecInContainer: the exec calls behind one direct command are folded into one outcome; they are taken apart in `ContainerdSidecars` and `Sidecars`.
- SidecarRuns.AttemptIsFaultyList: a sidecar that never ran a command counts as its first command lost, so the two models agree on effect and verdict, not on how many commands are counted as sent.
- LoneRun.RunNetem: names of runs, sidecar images and durations do not influence the namespace and are absent.
- containerd's direct stress exec, its cgroup child path, removal of target containers, and the docker cgroup driver lookup would add only members that one reading settles.
- Invalid UTF-8: texts are sequences of characters.
