# anck: participation protocol and stream bookkeeping

anck keeps, for every EdgeFarm network, track of the nodes and pods that take part in it. Three kinds of step edit one
shared `Network` object: a pod was created, a pod is being deleted, and a reconciliation pass over all nodes that
creates streams, moves pods between four maps and edits finalizers. This project models that protocol and the
algorithms it rests on.

* `Participation.dfy` says on values what each step does; `LocalView.dfy` gives the closed form of a whole pass for one
  node, in any visiting order. `PassTheorems.dfy`, `Quiescence.dfy`, `Settling.dfy`, `Runs.dfy`, `Refinement.dfy`
  and `Batches.dfy` prove the properties of passes and of runs.
* `Provisioning.dfy` adds the streams of all domains and the retries, `Store.dfy` any number of controllers that write
  copies back to a store that rejects stale versions, with the aggregates of the main domain beside it.
* `NetworkObject.dfy` is the imperative form: a class with the mutable maps of lists, whose methods carry out the steps
  with the loops of the source and are proved against those values. `PodEvents.dfy` delivers one pod event to all
  networks named by the pod's labels.
* `Slices.dfy`, `JetstreamConfig.dfy`, `Durations.dfy`, `Aggregates.dfy`, `Creds.dfy`, `Participants.dfy` and
  `Remotes.dfy` cover the supporting algorithms; `Text.dfy`, `Options.dfy` and `NetworkSpec.dfy` are shared.

The pod lists are duplicate-free (an invariant of the class), and every branch asks only for emptiness, membership or
same elements, so the values hold sets. Absent keys and keys with an empty list stay different. Of the library function
`Unique` only "the same elements, each once" is used. Go's map ranges become an arbitrary order of the keys. What the
stream server answers, which controller runs next and which updates fail without a conflict are arbitrary inputs; apart
from that the store accepts an update iff the copy it was made on is current.

Where the code does something other than one would expect, the code is followed and the difference is stated:

* A pod that is created and deleted before the first pass that finds its streams stays for good, with its mark
  (`StillbornPodSticks`); `MarksRemain` says exactly which marks stay. What holds instead: passes alone come to rest, `Resting` says exactly at
  what (`ComesToRest`, `RestingIffUnchanged`), and `Outcome` where they leave each node.
* A node whose only pod is replaced between two passes keeps running the new pod without being active, so the
  aggregates lose it (`ReplacedPod`; exact condition in `ActiveAtRest`).
* A pass takes the finalizer of a node also when it drops only some of its pods (`ActiveKeepsFinalizer`).
* Pods of nodes without the edge role are booked under `main` when they start and under their node when they stop, so
  they never stop for the maps (`CloudPodNeverStops`, exact condition in `StopIsHonoured`).
* The result of a pass can depend on the visiting order, because one visit may drain the creating pods of every node;
  `OrderIndependence` gives the exact condition under which it does not.
* A creds file is not always read back as written; `RoundTrip` gives the exact condition.
* Two participants can share a name when an app has a dot, and then removing one removes the other; `RunRepresents`
  and `NamesCollide` give the exact condition.
* An aggregate can be booked as created while its sources are out of date, because one error is swallowed
  (`SwallowedErrorDiverges`; exact condition in `CreatedIsConverged`).
* In a domain called `local` the subject `>` cannot be told from the local-only one (`PrefixingIsInjective`).
* A removal from a configuration that has no list of remotes reports success and removes nothing.

## Model

| member | source | states |
|---|---|---|
| LocalView.WalkClosedForm | controllers/network/network_controller.go:426-517 | the entries of one node after a pass, and whether it is added to or removed from the finalizers, from its entries before, its own visit and whether a node with both creating and running pods is visited before it or at all; any order |
| PassTheorems.Conservation | controllers/network/network_controller.go:468-515 | a pass never invents a pod; a node keeps all its pods or loses exactly those marked terminating, and exactly when |
| PassTheorems.SafeForgetting | controllers/network/network_controller.go:387-401 | a node leaves Nodes iff it was terminating, its marked pods were all its running and creating pods, and no creating pod was left when the pass came to it |
| PassTheorems.OrderIndependence | controllers/network/network_controller.go:426-524 | all visiting orders give the same four maps and finalizers iff every node with creating pods that meets another mixed node is steady and not about to be activated |
| PassTheorems.UnmixedIsOrderFree | controllers/network/network_controller.go:426-524 | order independence when no node has both creating and running pods |
| PassTheorems.OrderMatters | controllers/network/network_controller.go:476-484 | otherwise two orders with different results exist |
| Quiescence.VisitUsesUp | controllers/network/network_controller.go:426-517 | a visit changes nothing or lowers the number of waiting pods |
| Quiescence.PassUsesUp | controllers/network/network_controller.go:403-555 | a pass that changes maps or finalizers strictly lowers the number of pods waiting in PodsCreating and PodsTerminating, whatever fails |
| Quiescence.Quiescent | controllers/network/network_controller.go:426-517 | without pod events no more passes change anything than pods wait at the start |
| Quiescence.ChangingSnoc | controllers/network/network_controller.go:557-567 | what is counted: the passes that change the network, one by one |
| Quiescence.FinalizerChangeShowsInInfo | controllers/network/network_controller.go:519-567 | a pass that changes the finalizers changes Info, so the guard of the update drops no finalizer change |
| Quiescence.RestingIffUnchanged | controllers/network/network_controller.go:387-517 | a pass changes nothing iff every node rests: its creating pods lack their streams, or its marks cover its pods while it is not terminating |
| Quiescence.ComesToRest | controllers/network/network_controller.go:426-517 | among one more passes in a row than pods wait, one finds every node at rest |
| Settling.MarksRemain | controllers/network/network_controller.go:391-399 | in any network, the marks of a node without creating pods survive passes, and then all for good, iff they cover its pods and it is not terminating (or it does not participate) |
| Settling.StillbornPodSticks | controllers/network/network_controller.go:394-398 | a pod created and deleted before the first pass that finds the node's streams stays booked and marked after all further passes, whatever other nodes there are |
| Settling.TwoPassesSettle | controllers/network/network_controller.go:426-517 | two passes that find a node's streams settle it for good, in a closed form of its start entries |
| Settling.Outcome | controllers/network/network_controller.go:387-517 | where passes leave a node: its pods are united, marked pods go with their marks, unless they are all its pods; then it is forgotten if terminating and stuck otherwise; or its creating pods wait for good |
| Settling.ActiveAtRest | controllers/network/network_controller.go:428-476 | a node left with running pods is active iff it was, or was pending with creating pods only and visited before any drain |
| Settling.ReplacedPod | controllers/network/pod_controller.go:129-186 | replacing the only pod of an active node between two passes leaves it running but pending, or terminating if the creation came first |
| Runs.DeleteMarks | controllers/network/pod_controller.go:177-186 | a deletion marks the pod under the plain node name, touches no pod, and makes the node terminating exactly if the marks are then its running pods and the pod is not creating |
| Runs.CreateBooks | controllers/network/pod_controller.go:117-136 | a creation books a pod that does not run yet, under main unless the node has the edge role, and makes a node that is not active pending |
| Runs.RegisterStays | controllers/network/network_controller.go:107-116 | registering adds the network's finalizer and nothing else, and it stays over every run in which no node has its name |
| Runs.StepsArePossible | controllers/network/network_controller.go:426 | pod events are possible in every network, and passes in some order |
| Runs.StepKeepsInv | controllers/network/pod_controller.go:127-186 | every step keeps the bookkeeping and finalizer invariant and moves a node only along the allowed edges |
| Runs.Lifecycle | controllers/network/network_controller.go:465-495 | never active to pending, active to absent, pending to absent, absent to active or absent to terminating in one step |
| Runs.Reachable | controllers/network/network_controller.go:403-555 | after every run from a fresh network running and creating pods are disjoint, nodes with pods are known, no empty lists are left, and every finalizer but the network's own is a node |
| Runs.PassFinalizers | controllers/network/network_controller.go:519-587 | after a pass every finalizer but the network's own is a key of Nodes, and the network's own stays |
| Runs.ReachableOrder | controllers/network/network_controller.go:426-524 | in every reachable state the visiting order of the next pass is irrelevant iff OrderFree holds |
| Runs.RunConserves | controllers/network/network_controller.go:468-515 | over every run a pod leaves a key only if it was deleted under that key (or marked from the start), and only pods created under the key are there |
| Runs.CloudPodNeverStops | controllers/network/pod_controller.go:117-167 | as long as no node is called main, every pod of a node without the edge role stays booked over every run, whatever is deleted |
| Runs.ActiveKeepsFinalizer | controllers/network/network_controller.go:498-516 | while a node stays active, it keeps its finalizer iff no pass drops a pod of it |
| Runs.EventsAreIdempotent | controllers/network/pod_controller.go:127-136 | a pod event that arrives twice is the same as once |
| Refinement.RoundRefines | controllers/network/pod_controller.go:121-200 | an event and the pass after it agree with the map from nodes to live pods iff the node participates or gets its streams |
| Refinement.EventRefines | controllers/network/pod_controller.go:117-186 | the same for pods of any node, booked under the key of creation and marked under the node's name: as wanted iff Honoured |
| Refinement.StopIsHonoured | controllers/network/pod_controller.go:117-167 | the stop of a live pod is honoured iff its node has the edge role or is called main |
| Refinement.StepIsBooked | controllers/network/pod_controller.go:117-186 | the step of a pod event in a run is the event as it is booked |
| Refinement.RunRefines | controllers/network/network_controller.go:426-517 | over runs of the protocol of any length: after every event and pass Nodes has exactly the keys with live pods, all active, Pods the live pods and nothing is pending, iff every event is honoured |
| Batches.EntriesAfter | controllers/network/pod_controller.go:121-186 | the entries of a node after any batch of pod events on a represented state: running, started and marked pods, and the state |
| Batches.BatchRefines | controllers/network/network_controller.go:426-517 | a batch of pod events followed by two or more passes with all streams gives the representation of what was wanted iff every node fits |
| Batches.BatchRunRefines | controllers/network/network_controller.go:426-517 | the same as a run of the protocol: the events as they arrive, then the passes |
| Batches.FitsOnEdge | controllers/network/network_controller.go:387-517 | on edge nodes: iff no pod that stops is wanted in the end, and a node with wanted pods is active or gets active, and one without had pods and is terminating |
| Provisioning.RetriedGrows | controllers/network/network_controller.go:434-458 | retries only add streams; a node whose first attempt passes has every node-located stream under its own or its created name |
| Provisioning.AttemptCreates | controllers/network/network_controller.go:435-457 | an attempt creates nothing but node-located streams whose bare name is missing, under the network's prefix |
| Provisioning.RetriedCreates | controllers/network/network_controller.go:434-458 | so do all attempts together |
| Provisioning.PassCreates | controllers/network/network_controller.go:428-458 | a pass creates streams in the domains of pending nodes only, and nothing but their missing node-located streams |
| Provisioning.ElsewhereIsIrrelevant | controllers/network/network_controller.go:436 | streams located elsewhere make no difference to an attempt, nor what the server would say about them |
| Provisioning.AttemptSucceedsIff | controllers/network/network_controller.go:435-457 | an attempt succeeds iff no Exists call on a node-located stream fails and no missing one fails to be created, and has then created the missing ones (when no stream is called like another one's created name) |
| Provisioning.AttemptStopsAt | controllers/network/network_controller.go:438-452 | a failing attempt stops at the first such stream; what it created stays |
| Provisioning.OneOfFive | controllers/network/network_controller.go:434-458 | the first successful one of five attempts ends the retries with all streams provided; if all five fail, what they created stays |
| Provisioning.CreatedNamesDiffer | pkg/jetstreams/jetstreams.go:247 | different streams of a network get different names, with the network in front |
| Provisioning.ActivatedIsProvided | controllers/network/network_controller.go:430-475 | a pass activates only pending nodes whose first attempt succeeds on all streams, and then the streams are there |
| Provisioning.ActivatedIff | controllers/network/network_controller.go:430-475 | a pending node becomes active iff its creating pods are its only ones when the pass comes to it and the first attempt succeeds |
| Provisioning.WorldRunKeeps | controllers/network/network_controller.go:430-475 | over all runs every active node has its node-located streams |
| Store.NoLostUpdate | pkg/resources/network.go:16-41 | an update, of any number of edits, is stored and recorded once iff the copy is current, the store does not fail and the last edit is an event, a registration, an addition, a removal or the account, or changed the copy; any other update leaves the object alone |
| Store.EditsTakeEffect | controllers/network/network_controller.go:403-567 | an edit acts on the controller's own copy and on nothing stored; reading gives the stored object |
| Store.PassTakesEffect | controllers/network/network_controller.go:403-555 | a pass works on the copy's network and on the streams as they are |
| Store.MainTakesEffect | controllers/network/main_jetstreams.go:138-163 | the aggregate loop works on the copy's nodes and on the stored sources |
| Store.Undisturbed | controllers/network/pod_controller.go:122-137 | a controller that is left alone gets its edit stored |
| Store.SecondIsRejected | controllers/network/participants_controller.go:86-98 | of two controllers with edits of the same version, the second does not overwrite the first |
| Store.InterleavingsAreSequential | controllers/network/participants_controller.go:86-98 | any interleaving of any number of controllers stores the sequential run of the accepted updates: pod events, passes, participants, main domain bookings, the account name and the finalizer's registration, one or several edits to an update |
| Store.PartsOfRun | controllers/network/participants_controller.go:82-143 | the protocol state and Components (with the participant that the network controller enrolls) are each the run of their own edits |
| Store.LastBookingCounts | controllers/network/main_jetstreams.go:128-163 | what is booked under a name is what the last booking under it says |
| Store.LastAccountCounts | pkg/resources/network.go:71-88 | the account is the one set last |
| Store.EveryInterleaving | controllers/network/pod_controller.go:122-137 | so the invariants of runs and "active means provisioned" hold of every stored object |
| Store.AggregatesFollow | controllers/network/main_jetstreams.go:138-146 | in every interleaving the sources of a written aggregate are those of the nodes active in the copy of its last writer, and those of the stored object iff these are the same nodes |
| Store.SourceNamesStream | pkg/jetstreams/jetstreams.go:268-283 | a source names the stream that a pass creates on the node, through the node's own API |
| Store.SourcesHaveStreams | pkg/jetstreams/jetstreams.go:247-283 | in every interleaving each source of a written aggregate whose linked stream is node-located reads a stream that is present in the domain of its node |
| Store.WritesAreRecorded | pkg/jetstreams/jetstreams.go:293-320 | whatever changes an aggregate is recorded as its last writer |
| Store.BookingsAreCurrent | controllers/network/main_jetstreams.go:147-167 | every stored booking names the nodes that were active in the stored object when it was accepted |
| NetworkObject.StreamServer.Exists | pkg/jetstreams/jetstreams.go:74-97 | whether the bare name is among the streams of the domain, or an error |
| NetworkObject.StreamServer.Create | pkg/jetstreams/jetstreams.go:230-255 | adds the network-prefixed name to the domain; a failing call may have stored it |
| NetworkObject.Participating.ReconcileCreatePod | controllers/network/pod_controller.go:117-136 | the map edits of a pod creation are the create step |
| NetworkObject.Participating.ReconcileDeletePod | controllers/network/pod_controller.go:177-186 | the map edits of a pod deletion are the delete step |
| NetworkObject.Participating.NetworkNodeState | controllers/network/network_controller.go:387-401 | the class of a node, with the list comparison on lists |
| NetworkObject.Participating.ProvideStreams | controllers/network/network_controller.go:434-458 | the retry loop: the streams it leaves, and that its error flag is set iff the first attempt fails |
| NetworkObject.Participating.AttemptStreams | controllers/network/network_controller.go:435-457 | one attempt over the node-located streams, on this domain only |
| NetworkObject.Participating.DrainCreating | controllers/network/network_controller.go:480-484 | draining node by node, in any order, moves the creating pods of every node |
| NetworkObject.Participating.DropTerminating | controllers/network/network_controller.go:503-513 | removing the marked pods one at a time removes exactly them and the marks |
| NetworkObject.Participating.VisitNode | controllers/network/network_controller.go:426-517 | the switch for one node is one visit, on maps, finalizer lists and streams |
| NetworkObject.Participating.ReconcileJetstreams | controllers/network/network_controller.go:403-555 | the pass on maps, finalizers and streams, and that the update guard is set iff the maps differ as sets and protects every change |
| NetworkObject.Participating.RemoveNetworkFinalizers | controllers/network/network_controller.go:570-581 | keeps the other finalizers in order |
| NetworkObject.Participating.AddNetworkFinalizer | controllers/network/network_controller.go:584-587 | adds the finalizers, each once |
| NetworkObject.DrainOneThenAll | controllers/network/network_controller.go:480-484 | the order in which nodes are drained does not matter |
| PodEvents.ReconcilePodEvent | controllers/network/pod_controller.go:121-144 | every network of a pod's labels gets the event once, whatever repeats and in whatever order, up to the first that cannot be read or whose update is not accepted; all others keep their state |
| Slices.SliceDiff | pkg/common/slice.go:6-33 | the elements missing from the second list, then those missing from the first, in order |
| Slices.MissingInOrder | pkg/common/slice.go:13-27 | a missing element stands in the difference where it stands in the list, as often as there |
| Slices.SliceEqual | pkg/common/slice.go:36-45 | equal iff same length and same element set |
| Slices.SliceEqualIsPermutation | pkg/common/slice.go:36-45 | once one list is duplicate-free, equal means permutation |
| Slices.SliceEqualDecidesPermutation | pkg/common/slice.go:36-45 | the comparison with a list decides permutation for all other lists iff that list is duplicate-free or repeats a single element |
| Slices.MissingInSlice | controllers/network/common.go:17-32 | the hash-based difference, in order |
| Slices.SliceDiffMissingNew | controllers/network/common.go:34-38 | what is missing and what is new rebuild the second set from the first and make up SliceDiff |
| Slices.SortedUnique | vendor/github.com/ssoroka/slice/slice.go:17-31 | of a sorted list, the elements once each, strictly ascending |
| Slices.Unique | vendor/github.com/ssoroka/slice/slice.go:12-43 | the same elements, each once, strictly ascending |
| Slices.LessIff | vendor/github.com/ssoroka/slice/slice.go:34-43 | the order: at the first difference the character decides, and a proper prefix is less |
| Slices.AscendingIsCanonical | vendor/github.com/ssoroka/slice/slice.go:12-15 | so the result depends on the set of the elements only |
| JetstreamConfig.CreateJetstreamConfig | pkg/jetstreams/jetstreams.go:437-527 | every field of the configuration, or the first error in the order of the checks |
| JetstreamConfig.FirstErrorFirst | pkg/jetstreams/jetstreams.go:445-510 | the error is the first that applies: no subjects, maximal age, retention, storage, discard |
| JetstreamConfig.Policies | pkg/jetstreams/jetstreams.go:471-510 | the names of the policies |
| JetstreamConfig.SelectSubjects | pkg/jetstreams/jetstreams.go:438-448 | the subjects written for the stream, in order |
| JetstreamConfig.SelectedIff | pkg/jetstreams/jetstreams.go:440-443 | a subject is selected iff some spec lists it for the stream |
| JetstreamConfig.SelectedInOrder | pkg/jetstreams/jetstreams.go:440-443 | the selected subjects stand in the order of the specs |
| JetstreamConfig.PrefixSubjects | pkg/jetstreams/jetstreams.go:453-464 | every subject but the local-only one gets the domain in front |
| JetstreamConfig.SubjectTokens | pkg/jetstreams/jetstreams.go:453-464 | without a domain the subjects stay; a dot-free domain becomes the first token of all but the local-only one |
| JetstreamConfig.NoCrosstalk | pkg/jetstreams/jetstreams.go:449-464 | streams of two domains can receive a common subject iff the domains are equal or one is the wildcard (neither being the tail wildcard), or the local-only subject is on both lists, or on one while the other domain is called local |
| JetstreamConfig.SharedSubjects | pkg/jetstreams/jetstreams.go:449-464 | the subject lists of two domains share at most the local-only subject |
| JetstreamConfig.PrefixingIsInjective | pkg/jetstreams/jetstreams.go:453-464 | order, count and subjects survive the prefixing iff the domain is not called local |
| JetstreamConfig.SamePrefixed | pkg/jetstreams/jetstreams.go:453-464 | two subjects look the same in a domain iff they are, or the domain is called local and they are the local-only subject and > |
| Durations.ParseDurationString | pkg/jetstreams/jetstreams.go:562-617 | the duration in int64 nanoseconds, with float32 rounding, overflow and wrap-around, or an error |
| Durations.ExactIffInRange | pkg/jetstreams/jetstreams.go:573-602 | for every decimal integer and unit the duration is exact iff it is at most 2562047 hours |
| Durations.DurationsCompare | pkg/jetstreams/jetstreams.go:573-602 | in range, durations are equal or ordered as their hours are, across units |
| Durations.Weeks | pkg/jetstreams/jetstreams.go:574-580 | k weeks are k times 604800 seconds iff k is at most 15250, in either letter case |
| Durations.Days | pkg/jetstreams/jetstreams.go:582-588 | k days are k times 86400 seconds iff k is at most 106751, in either letter case |
| Durations.Months | pkg/jetstreams/jetstreams.go:589-595 | k months are k times 2592000 seconds iff k is at most 3558 |
| Durations.Years | pkg/jetstreams/jetstreams.go:596-602 | k years are k times 31536000 seconds iff k is at most 292, in either letter case |
| Durations.WeekIsSevenDays | pkg/jetstreams/jetstreams.go:574-588 | in range, a week is 7 days |
| Durations.MonthIsThirtyDays | pkg/jetstreams/jetstreams.go:582-595 | in range, a month is 30 days |
| Durations.YearIs365Days | pkg/jetstreams/jetstreams.go:582-602 | in range, a year is 365 days |
| Durations.DecimalOfDigits | pkg/jetstreams/jetstreams.go:575 | every number is read from its digits |
| Durations.TrimmedEnds | pkg/jetstreams/jetstreams.go:563 | trimming removes exactly the spaces at both ends |
| Durations.BlankIsZero | pkg/jetstreams/jetstreams.go:565-567 | a blank text is the duration 0 |
| Durations.UnitsKnown | pkg/jetstreams/jetstreams.go:573-614 | clock units go to the Go library, other letters are errors |
| Durations.OtherNumbers | pkg/jetstreams/jetstreams.go:574-602 | other number texts are scaled by the same hours |
| Durations.Nearest | pkg/jetstreams/jetstreams.go:575 | float32 rounding is to the nearest multiple of the spacing, ties to even |
| Durations.OutOfRange | pkg/jetstreams/jetstreams.go:580-602 | out of range the duration wraps around in int64, and beyond float32 it is an error |
| Aggregates.ConvertSliceOfPointers | pkg/jetstreams/jetstreams.go:194-206 | the same sources without pointers |
| Aggregates.SameSourcesSameNodes | pkg/jetstreams/jetstreams.go:171-174 | comparing sources built here is comparing node sets |
| Aggregates.ComparesEqual | pkg/jetstreams/jetstreams.go:171-174 | whoever wrote the stored sources, they compare equal to the new ones iff they are, up to order, one per active node |
| Aggregates.SucceedsIff | pkg/jetstreams/jetstreams.go:258-322 | when a call reports success, as a condition on the stored sources and the answers |
| Aggregates.FailsEarly | pkg/jetstreams/jetstreams.go:260-291 | a wrong configuration, a missing link or a failing Exists call make a call fail without any effect |
| Aggregates.ConvergesIff | pkg/jetstreams/jetstreams.go:268-320 | after a call that reports success the stored sources are, up to order, one per active node (or none and no node is active) iff there were none, or they were up to date, or they were loaded and rewritten; without the swallowed error always, and then existing ones are rewritten iff the active set changed |
| Aggregates.SwallowedErrorDiverges | pkg/jetstreams/jetstreams.go:293-298 | an input for which a call reports success and an active node is missing |
| Aggregates.OthersUntouched | pkg/jetstreams/jetstreams.go:286-320 | other streams are left alone; what is written are the sources in the order of the nodes |
| Aggregates.MainStreams.UpdateSources | pkg/jetstreams/jetstreams.go:141-183 | the reply, whether the sources are rewritten (only if they differ in length or elements), and the stored sources, for all answers |
| Aggregates.MainStreams.CreateAggregate | pkg/jetstreams/jetstreams.go:258-322 | success, the swallowed error, whether the sources are written and what is stored afterwards, for all answers; without the swallowed error success means convergence |
| Aggregates.ActiveNodes | controllers/network/main_jetstreams.go:139-144 | the active nodes, each once |
| Aggregates.SelectStreams | controllers/network/main_jetstreams.go:81-94 | the streams of the main domain without and with a link, in order |
| Aggregates.MainInOrder | controllers/network/main_jetstreams.go:81-94 | the selected streams keep their order |
| Aggregates.CreateAggregates | controllers/network/main_jetstreams.go:138-163 | the books and the stored sources after the loop; a failing aggregate does not stop the others |
| Aggregates.CreatedIsConverged | controllers/network/main_jetstreams.go:138-163 | an aggregate is booked as created iff its call succeeded, as a condition on the answers, and then is converged iff not kept back by the swallowed error; of several with one name the last counts |
| Aggregates.OtherRounds | controllers/network/main_jetstreams.go:138-163 | rounds about other streams change neither the books nor the sources of a stream |
| Creds.ParseCredsString | pkg/jetstreams/jetstreams.go:542-559 | the lines after the two markers, or an error if one is empty |
| Creds.Printed | pkg/nats/creds.go:8-27 | the file with both values in their lines, a placeholder inside the jwt being filled too |
| Creds.JwtMarkerLine | pkg/nats/creds.go:9-10 | the first marker and the jwt in its line |
| Creds.NkeyMarkerLine | pkg/nats/creds.go:17-18 | the second marker and the nkey in its line |
| Creds.RoundTrip | pkg/nats/creds.go:8-27 | parsing the printed file returns both values iff they are non-empty single lines and no marker or placeholder inside them gets in the way |
| Creds.OrdinaryValuesSurvive | pkg/jetstreams/jetstreams.go:542-559 | the round trip for values without markers and placeholders |
| Participants.SplitOfName | controllers/network/participants_controller.go:197-203 | a name built from three parts is accepted iff no part has a dot, and gives the parts back |
| Participants.AcceptedIsRebuilt | controllers/network/participants_controller.go:197-203 | every accepted name is its parts joined by dots |
| Participants.NameIsSplit | controllers/network/participants_controller.go:128-203 | the name of an app and a component, with the network in front, is taken apart into them again |
| Participants.Registry.AddParticipant | controllers/network/participants_controller.go:127-134 | adds the component unless its name is there |
| Participants.Registry.RemoveParticipant | controllers/network/participants_controller.go:137-143 | removes the component's name |
| Participants.Registry.EnrollParticipant | controllers/network/network_controller.go:221-222 | sets the type of the controller's own participant, also if the name is there |
| Participants.TypeRules | controllers/network/participants_controller.go:127-143 | the first addition decides the type until the name is removed; enrolling overrides it |
| Participants.RunRepresents | controllers/network/participants_controller.go:127-143 | for any set of (app, component) pairs: over all runs Components is the set of added and enrolled pairs, with the type first added or last enrolled, iff no two pairs of the set share their name |
| Participants.NamesCollide | controllers/network/participants_controller.go:128-138 | two pairs share their name iff they are equal or one app continues the other behind a dot that the components make up for |
| Participants.DotFreeAppsRepresent | controllers/network/participants_controller.go:127-143 | so all runs are represented when app names have no dot, whatever the components |
| Participants.DottedAppsCollide | controllers/network/participants_controller.go:127-143 | and every app name with a dot loses its component when another pair is removed |
| Remotes.Config.AddRemote | pkg/nats/config.go:252-267 | appends the remote, creating the list if needed |
| Remotes.Config.RemoveRemoteByAccountPubKey | pkg/nats/config.go:270-289 | removes the first remote of the account, fails if there is none, succeeds idly without a list |
| Remotes.Config.RemoveRemoteByCredsfile | pkg/nats/config.go:292-311 | the same for the first remote whose credentials contain the path |
| Remotes.RunConserves | pkg/nats/config.go:252-311 | per account and over any run, what is there plus what was taken is what was there plus what was added |
| Remotes.TakesByAccount | pkg/nats/config.go:270-289 | a removal by account takes one remote of that account iff it succeeds on a list |
| Remotes.RunKeepsOrder | pkg/nats/config.go:278-284 | the survivors stand in the order in which they came |
| Remotes.FailedRemovalChangesNothing | pkg/nats/config.go:270-289 | a removal by account fails iff the list lacks the account, and then changes nothing |
| Remotes.RemovesTheFirst | pkg/nats/config.go:270-311 | a removal takes out the first remote that matches the account, or whose credentials contain the path, and only that |
| Remotes.AddThenRemove | pkg/nats/config.go:252-289 | removing a freshly added unseen account restores the list |

## Left out

- Kubernetes, gRPC, NATS and jsm clients, logging, messages, timers and requeue delays: library calls, replaced by a versioned store, a map of streams and arbitrary answers.
- Nil maps in a stored object: the code would panic on writing them; the model starts from empty maps.
- Capacity and sharing of Go slices: lists are values held in fields; the in-place shifts are modelled by their result.
- The write of the pod before the write of the network in a deletion (controllers/network/pod_controller.go:187-200): a failing second write loses the mark, so nothing claims that every deletion is recorded.
- Stream calls of concurrent passes are interleaved per pass, not per call; streams are only ever added.
- Outside deletion of streams, spec changes and the deletion of a whole network, including `js.Delete`, which ignores the names it is given.
- The creation of the standard streams of the main domain and of mirrors: the same Exists/Create pattern as for nodes. What is booked about the standard streams is an input of the store's edits.
- Aggregates.MainStreams.CreateAggregate: stored sources with nil pointers are excluded, because the code panics on them.
- Secrets and dapr secrets: the count that guards the deletion of a whole secret only ever sees one network.
- Durations.ParseDurationString: number texts other than plain decimal integers, and the s, m and h units with their upper-case handling, are left to `Platform`, because the Go library parses them.
- JSON and YAML encoding, the remaining options of the NATS configuration, manifests and the server info: constants and library wrappers.
