# Verified model of the relay's analyzers, session and fleet protocols

Axona Relay keeps a peer on the mesh, gives agents a session on it, and carries a harness that judges
the fleet from its logs. The peer-to-peer kernel is vendored; the logic that belongs to the relay is in
the analyzers, the session's buffers and lock, the log reducer, and the fleet protocols. This project
models those parts in Dafny and proves what they promise. `dafny verify dfyconfig.toml` checks it.

Code that fills maps and counters in loops is a method with loop invariants, proved equal to a function
of its input; what the code promises is then proved of that function. Records and files that several
operations change are classes. Protocols between processes are step functions over a world, and their
theorems hold for every run and every interleaving.

| file | what it models |
|---|---|
| `DeliveryTree.dfy` | the delivery tree of one message, its validity, and root-to-reader paths |
| `TreeRules.dfy` | root, parents and void reason of a publish in terms of its ledger rows |
| `DeliveryLimits.dfy` | what an accepted tree does and does not guarantee |
| `Activity.dfy`, `ActivityRules.dfy` | who was subscribed as which node at each instant, rebuilt and read off the log |
| `ClockShift.dfy` | no result depends on how far a host's clock is ahead |
| `Reconcile.dfy`, `Scoring.dfy` | every required reader filed in one loss bucket; all messages accounted for |
| `ScoringRules.dfy` | each counter of a run as a number of messages, or of messages and readers |
| `Wilson.dfy`, `HopVerdict.dfy`, `HopRules.dfy` | the interval, the power threshold, the verdict, and what its counters count |
| `Transitions.dfy`, `JoinRules.dfy` | the join of two one-way logs, in code and as a relation on the rows; breadth-first depth |
| `Watch.dfy`, `WatchRules.dfy`, `WatchRuns.dfy`, `WatchMemory.dfy` | the arrival buffer, all its runs, the merge at a reconnect, and the limit of its memory |
| `SeatLock.dfy` | the lock file that gives one process an author key |
| `LogCtx.dfy`, `LogReduction.dfy`, `LogText.dfy` | the log-context renderer, its largest-first reduction, and its text read back |
| `Confirm.dfy` | read-back of publishes and the drain before a close |
| `FleetRoll.dfy` | the start-then-stop roll |
| `StopFile.dfy` | the stop-file handshake of service wrapper and relay |
| `ChurnPlan.dfy`, `PlanDraws.dfy`, `ChurnRun.dfy` | the seeded churn plan, its random draws, and the driver behind its floor guard |
| `ClockProbe.dfy` | the clock-offset estimate |
| `Prelude.dfy`, `Sorting.dfy` | optional values, duplicate-free sequences, a stable sort |

Where code and comment differ, the model follows the code:

- `harness/reconcile-delivery.mjs:303` bounds a parent walk by the number of emitting nodes, so an acyclic
  chain through silent nodes can be voided as a cycle. `SilentChainVerdict` gives the family and the exact
  point where it starts; `ReportMeans` says exactly when a walk is reported. With a single known root a
  publish that is not void has no cycle (`AcceptedIsAcyclic`). Without one, as with two declared roots, the
  walks are skipped (`harness/reconcile-delivery.mjs:298`) and a cycle goes unseen, whatever lines 38-42
  ask: `CycleUnseenWithoutRoot` gives the condition, `TwoRootsHideACycle` an accepted publish with a cycle.
- `harness/reconcile-delivery.mjs:38-42` asks that every ledger node reach the root; the code accepts an
  emitter whose upstream nobody recorded (`UnattachedEmitterAccepted`). `EmittersReachRoot` says exactly
  when all of them reach it.
- `src/mcp-session.js:678-680` says that after a reconnect `total` keeps meaning distinct messages and that
  nothing unread is lost or doubled. The second holds (`MergeTidy`, `CarriedMembers`); `total` counts all
  messages only under the condition of `MergeTotal`, and the counters balance only under that of
  `MergeBalance`; `TotalFallsShort` and `BalanceBreaks` are reconnects at which they fail. A merge can also
  leave the buffer over its cap (`MergeOverCap`), where deliveries keep it.
- `harness/analyze-deliver-hop.mjs:143-148` requires a power threshold beside the width of the interval;
  the width already implies it (`PowerTestRedundant`).
- `src/mcp-session.js:132-144` lets a process join a seat whose handle is its own. The signers of one key
  can still end up with different handles, exactly when `Clashes` says so (`HandlesAgree`).
- `roll-fleet.sh:168` reports that the fleet never dropped below EXPECT. A relay that dies in the pause
  before its own slot is replaced unnoticed; a completed roll was never short exactly when none does
  (`Roll`, `UnnoticedDip`).
- `src/stopfile.js:15-16` says that an old request cannot stop a new process. It can exactly when the
  relay's own removal of the old file fails (`UnaskedExactly`, `RemovalDecides`).
- `harness/churn.mjs:17-19` says that rolls and kills both verify the floor; the code guards kills only, and
  `harness/relay-churn.sh:167-169` takes a relay away whether or not its replacement came up.
  `ActionKeepsFloor` says exactly which action keeps the floor, `FailedRollBreachesFloor` shows one that does not.
- `harness/reconcile-delivery.mjs:216-220` lets an unsubscribe close an interval that was opened after it;
  `EmptyExactly` says when an interval is left with no instant. A later activation replaces an earlier one
  (`harness/reconcile-delivery.mjs:214`); `ReplacedActivation` says which of its instants still count.
- `harness/gen-arm-plan.mjs:57-58` offsets kills so that none lands on the minute of a roll. Some do:
  `KillsMeetRolls` says exactly when, `KillMeetsRollExample` gives a duration.
- `src/mcp-watch.js:39-44` ignores a known id that is still buffered. Past 50,000 ids a watch can forget one
  that is, since a replay does not renew its place (`DeliverTidyExactly`, `BufferedTwice`), and a merge can
  leave the memory over its cap (`MergeMemoryOverCap`).
- `src/logctx.js:124-130` drops largest-first to keep the most; that is by size and not by what a note saves.
  `FewestExactly` says when no choice drops fewer, `LargestFirstNotFewest` gives a context in which one does.

## Model

| member | source | states |
|---|---|---|
| `DeliveryTree.BuildTree` | harness/reconcile-delivery.mjs:240-314 | The rebuilt tree is the one the rows define; a node is a believed reader exactly when it delivers locally or some row lists it as a leaf; an accepted tree with a single known root is climbable |
| `DeliveryTree.ReadRows` | harness/reconcile-delivery.mjs:254-271 | One pass collects exactly the readers, nodes, declared roots, topics, parent claims and edge roles of all rows, and notices any truncated row |
| `DeliveryTree.BuildParents` | harness/reconcile-delivery.mjs:276-280 | Each claimed node gets its one known parent or none; a conflict is reported exactly when some node has two |
| `DeliveryTree.WalkReports` | harness/reconcile-delivery.mjs:299-305 | A parent walk is reported exactly when it does not end at the root or an unknown parent within the step bound |
| `DeliveryTree.CheckUnderRoot` | harness/reconcile-delivery.mjs:298-312 | Cycle and root-members rules are applied only under a known root, after all earlier rules and in that order |
| `DeliveryTree.EndsOrCyclic` | harness/reconcile-delivery.mjs:299-305 | Every parent climb of every node ends, or it is a genuine cycle: one or the other |
| `DeliveryTree.ReportMeans` | harness/reconcile-delivery.mjs:299-305 | A report means a genuine cycle or an acyclic climb longer than the bound, and conversely |
| `DeliveryTree.RecordedParent` | harness/reconcile-delivery.mjs:276-280 | Without conflicts the recorded parent of a node is p exactly when some row claims p for it |
| `DeliveryTree.ParentOrChildEmitted` | harness/reconcile-delivery.mjs:249-266 | Of a node and its recorded parent at least one emitted a row |
| `DeliveryTree.ClimbEnds` | harness/reconcile-delivery.mjs:295-306 | In an accepted tree with a single known root the climb from any node whatever, believed reader or emitter, is acyclic and ends within emitters plus three steps |
| `DeliveryTree.SilentChainVerdict` | harness/reconcile-delivery.mjs:298-306 | A chain whose emitters are joined by m silent nodes never cycles and is voided as a cycle exactly when m is at least four |
| `DeliveryTree.PathEdges` | harness/reconcile-delivery.mjs:317-331 | The path found is the recorded climb, listed from the root; none if the climb cycles, breaks off or exceeds 4096 steps |
| `DeliveryTree.PathShape` | harness/reconcile-delivery.mjs:316-331 | A path found starts at the root, ends at the reader, is contiguous, meets no node twice, and uses recorded parent edges only |
| `DeliveryTree.ReaderPath` | harness/reconcile-delivery.mjs:317-331 | In an accepted tree with a single known root and at most 4093 emitters a reader has no path exactly when its climb runs out of recorded parents |
| `TreeRules.DeclaredRoot` | harness/reconcile-delivery.mjs:260-292 | A row that declares itself root names the root, unless another node does so too: then there is none, and a divergence |
| `TreeRules.ParentMeans` | harness/reconcile-delivery.mjs:249-280 | Without clashing claims a node has parent p exactly when its own row names p or a row of p lists it |
| `TreeRules.RoleConflictMeans` | harness/reconcile-delivery.mjs:266-274 | A role conflict is two recipients, in any rows, on edges of one text, one forwarding and one not |
| `TreeRules.MembersMean` | harness/reconcile-delivery.mjs:308-312 | A root-members mismatch is a first row of the root with another number of recipients than some root-members row |
| `TreeRules.VoidMeans` | harness/reconcile-delivery.mjs:247-313 | The void reason is the first of the seven rules, in order, that the rows themselves break, or none |
| `TreeRules.PathFound` | harness/reconcile-delivery.mjs:317-331 | A reader has a path exactly when its climb comes to the root within 4096 steps over recorded parents, one edge for each |
| `DeliveryLimits.AcceptedIsAcyclic` | harness/reconcile-delivery.mjs:298-306 | A publish that is not void and has a single known root has no cycle, from any node |
| `DeliveryLimits.CycleUnseenWithoutRoot` | harness/reconcile-delivery.mjs:289-306 | Two nodes naming each other as parents are a cycle in any publish: without a single known root the void verdict does not change, and an accepted publish stays accepted exactly then |
| `DeliveryLimits.TwoRootsHideACycle` | harness/reconcile-delivery.mjs:289-298 | A concrete accepted publish with two declared roots and a cycle |
| `DeliveryLimits.EmittersReachRoot` | harness/reconcile-delivery.mjs:295-306 | In an accepted publish with a single known root all emitters reach it exactly when each, the root apart, has a recorded parent and that parent, unless it is the root, has one too |
| `DeliveryLimits.UnattachedEmitterAccepted` | harness/reconcile-delivery.mjs:281-297 | A concrete accepted publish in which an emitter does not reach the root |
| `Activity.SelfAt` | harness/reconcile-delivery.mjs:194 | The early-stopping scan finds the last identity of the peer at or before the instant, because the timeline is sorted |
| `Activity.NextSelfChangeAfter` | harness/reconcile-delivery.mjs:195 | The scan finds the first later stamp of the peer that shows another identity |
| `Activity.BuildSets` | harness/reconcile-delivery.mjs:180-236 | Sets exist exactly when the lifecycle has requirements or activations, and are the required readers, intervals and sorted timeline the events define |
| `Activity.ActivePeer` | harness/reconcile-delivery.mjs:227-234 | Active, bound node and boundary flag of a reader at an instant |
| `Activity.SteadyIdentity` | harness/reconcile-delivery.mjs:191-195 | Up to the next identity change the identity stays the one at the start |
| `Activity.IntervalsWellBound` | harness/reconcile-delivery.mjs:205-222 | Every interval, after every unsubscribe and window end, is bound to the identity at its start and closed no later than the next change |
| `Activity.InsideIsStable` | harness/reconcile-delivery.mjs:224-234 | A reader is active exactly when it is inside its interval: the identity test never turns an inside reader away |
| `Activity.ClosedByEveryEnd` | harness/reconcile-delivery.mjs:216-220 | No interval outlasts any recorded unsubscribe of its reader and topic |
| `Activity.IntervalEndExplained` | harness/reconcile-delivery.mjs:205-222 | Each upper end is an identity change, an unsubscribe or the window's end, and nothing else |
| `Activity.EmptyExactly` | harness/reconcile-delivery.mjs:205-230 | An interval contains no instant exactly when some unsubscribe of its reader and topic, wherever in the log, lies at or before its start, or when only a window end closes it and that does |
| `Activity.ReplacedActivation` | harness/reconcile-delivery.mjs:207-222 | An instant inside an activation's own interval still counts exactly when the activation last in the log for that reader and topic had begun by then and no other identity had shown since |
| `Activity.ReplacedUntilLast` | harness/reconcile-delivery.mjs:207-222 | When that last activation is also the later in time, exactly the instants before it are lost |
| `ActivityRules.IdentityMeans` | harness/reconcile-delivery.mjs:191-194 | The identity at an instant is that of the latest stamp of the peer by then, of simultaneous ones the last recorded |
| `ActivityRules.TopicMeans` | harness/reconcile-delivery.mjs:188-189 | A topic name stands for the id of the last event that maps it |
| `ActivityRules.RequiredMeans` | harness/reconcile-delivery.mjs:197-199 | A peer is required of a topic exactly when some requirement of it names a topic that stands for that id |
| `ActivityRules.WindowEndMeans` | harness/reconcile-delivery.mjs:201-203 | A peer's window ends where its last end event says |
| `ActivityRules.ActiveExactly` | harness/reconcile-delivery.mjs:205-234 | Read off the log: a reader is active exactly when its last activation has begun, no other identity has shown since, every recorded unsubscribe is still to come, and, if neither ever closes it, so is the end of its window |
| `ActivityRules.NeverActivated` | harness/reconcile-delivery.mjs:229 | A reader without an activation is never active and at no boundary |
| `ActivityRules.BoundaryMeans` | harness/reconcile-delivery.mjs:232 | Near a boundary is less than the band before or after a start or a recorded end |
| `ClockShift.SetsUnmoved` | harness/reconcile-delivery.mjs:180-236 | Moving all readings of a host and its offset by the same amount changes neither the sets nor any reader's state |
| `ClockShift.BeginsAtBasisInstant` | harness/reconcile-delivery.mjs:183-214 | An activation that a host stamps x plus its offset begins its interval at basis instant x |
| `ClockShift.RunUnmoved` | harness/reconcile-delivery.mjs:359-369 | Moving all ledger readings of a host and its offset alike changes no counter of the run |
| `Reconcile.ScanPath` | harness/reconcile-delivery.mjs:489-490 | The scan stops at the first edge whose upper node holds the message and whose lower does not, or shows that there is none |
| `Reconcile.Attribute` | harness/reconcile-delivery.mjs:485-491 | Root divergence, tree divergence and forwarding loss are assigned by the rules, in their order |
| `Reconcile.SplitOnPath` | harness/reconcile-delivery.mjs:486-491 | With a path, forwarding loss is assigned exactly when some node on it lacks the message, and then some edge is first: all above it hold the message, the node below does not |
| `Reconcile.NonArrivalFindsLostEdge` | harness/reconcile-delivery.mjs:479-492 | A reader in C with a path and at most one origin root falls back to tree divergence only if it is the root or an origin root |
| `Reconcile.FileReader` | harness/reconcile-delivery.mjs:474-495 | One pass of the cascade adds one to exactly the bucket whose set expression holds the reader, and to its split |
| `Reconcile.Partition` | harness/reconcile-delivery.mjs:457-495 | The counters are the cardinalities of the five set expressions and three splits |
| `Reconcile.PartitionCloses` | harness/reconcile-delivery.mjs:27-33 | The five sets are disjoint and cover the required readers; the three splits cover C; the sums close |
| `Scoring.GroupRows` | harness/reconcile-delivery.mjs:357-369 | Rows, earliest corrected time and missing provenance are grouped by message id |
| `Scoring.ScoreMessage` | harness/reconcile-delivery.mjs:427-511 | One message is censored, voided, set aside or scored, and adds exactly its counts |
| `Scoring.Reconcile` | harness/reconcile-delivery.mjs:427-511 | Given the receipt sets, topic kinds, offsets and timing flag, the run's counters are the fold over its distinct messages, and all closures hold |
| `Scoring.RunAccounted` | harness/reconcile-delivery.mjs:414-516 | Buckets close overall and per topic kind, splits close, arrived plus never is believed-not-delivered, and every message is scored, void, censored, boundary or provenance-void |
| `Scoring.IdsAreTheMessages` | harness/reconcile-delivery.mjs:357-369 | The scored ids are the distinct non-empty message ids of the rows |
| `ScoringRules.CountersMean` | harness/reconcile-delivery.mjs:457-494 | For each bucket and split the run's counter is the number of pairs of a scored message and a required reader that belongs there; for each bucket likewise per topic kind |
| `ScoringRules.MessageCountersMean` | harness/reconcile-delivery.mjs:427-498 | Scored, late, void, divergent, hostless and boundary counters are the numbers of such messages |
| `ScoringRules.BeliefCountersMean` | harness/reconcile-delivery.mjs:505-509 | Belief, delivered, missed, arrived and never arrived are numbers of pairs of a message and a believed reader |
| `ScoringRules.SplitMeans` | harness/reconcile-delivery.mjs:485-491 | A non-arrival is root divergence with several origin roots, else forwarding loss when an edge of its path lost the message, else tree divergence |
| `ScoringRules.TopicMeans` | harness/reconcile-delivery.mjs:452 | The topic of a message is that of its first row that names one |
| `ScoringRules.PublishedMeans` | harness/reconcile-delivery.mjs:364-367 | A message is published at its earliest stamped row, each reading less what the row's host is ahead |
| `ScoringRules.RowsMean` | harness/reconcile-delivery.mjs:359-362 | The rows of a message are the rows with its id, all of them, in order |
| `ScoringRules.ProvenanceMeans` | harness/reconcile-delivery.mjs:368 | Provenance is missing exactly when some row of the message names no host |
| `Wilson.IntervalOrdered` | harness/analyze-deliver-hop.mjs:69-74 | The clamping is never active, 0 <= lo <= k/n <= hi <= 1, and hi is at least its value at zero losses |
| `Wilson.ScoreTestInverted` | harness/analyze-deliver-hop.mjs:69-74 | The interval holds exactly the loss rates that the score test accepts |
| `Wilson.FormsAgree` | harness/reconstruct-transitions.mjs:31-37 | Whatever root each algebraic form takes of its own radicand, both give the same rounded bounds |
| `Wilson.ZeroLoss` | harness/analyze-deliver-hop.mjs:75 | With no losses the upper bound is z^2/(n+z^2) |
| `Wilson.FindAdequate` | harness/analyze-deliver-hop.mjs:75 | The loop ends, at 125, the least size whose rounded zero-loss bound is under 3% |
| `Wilson.NarrowMeansPowered` | harness/analyze-deliver-hop.mjs:142-148 | A rounded upper bound under 3% is impossible below that size, whatever the losses |
| `Wilson.RoundedComparisons` | harness/analyze-deliver-hop.mjs:73 | Which unrounded bounds pass the comparisons with 3% after rounding to two digits |
| `Wilson.PrintedNear` | harness/analyze-deliver-hop.mjs:64-74 | The printed share and bounds are within half a hundredth of a percent of the exact ones |
| `HopVerdict.Classify` | harness/analyze-deliver-hop.mjs:96-106 | Counters and strata are the counts of each class, per hop, and only measured hops have a stratum |
| `HopVerdict.ClassesCover` | harness/analyze-deliver-hop.mjs:98-104 | Every send is in exactly one class |
| `HopVerdict.StrataAddUp` | harness/analyze-deliver-hop.mjs:96-106 | The strata add up to the pooled numbers |
| `HopVerdict.Judge` | harness/analyze-deliver-hop.mjs:139-158 | The flags of the loop give the verdict defined by quantifiers over the strata |
| `HopVerdict.RetireMeans` | harness/analyze-deliver-hop.mjs:139-158 | RETIRE over printed lines: a short route was seen, and each has at least 125 sends and rules out every rate of 3% or more |
| `HopVerdict.StandsMeans` | harness/analyze-deliver-hop.mjs:139-158 | STANDS over printed lines: some short route lost more than 3% and rules out every rate of 3% or less |
| `HopVerdict.StrataLines` | harness/analyze-deliver-hop.mjs:141-142 | The printed lines are the measured hops of the log in ascending order, each with its counts |
| `HopVerdict.Analyze` | harness/analyze-deliver-hop.mjs:96-158 | Given the cut-off and the void flag, from the log to its verdict: STANDS, RETIRE and VOID hold exactly when the strata its rows define say so, at the threshold the loop finds |
| `HopVerdict.RetiredLog` | harness/analyze-deliver-hop.mjs:96-158 | RETIRE on a log: some hop up to three was measured, and each has at least 125 sends and rules out a loss of 3% or more |
| `HopVerdict.StandingLog` | harness/analyze-deliver-hop.mjs:96-158 | STANDS on a log: some hop up to three lost more than 3% and rules out every lower loss |
| `HopVerdict.PowerTestRedundant` | harness/analyze-deliver-hop.mjs:143-148 | Dropping the power test changes no verdict |
| `HopRules.CountersMean` | harness/analyze-deliver-hop.mjs:97-104 | Each counter is the number of rows it is named for: not written, late, to nobody instrumented, sent, sent without receipt |
| `HopRules.StrataMean` | harness/analyze-deliver-hop.mjs:102-104 | A hop is measured exactly when some measured send has it; its numbers count those with and without a receipt of that send, hop and addressee |
| `HopRules.LateChangesNoStratum` | harness/analyze-deliver-hop.mjs:100 | Rows stamped after the cut-off change no stratum |
| `HopRules.LateChangesNoVerdict` | harness/analyze-deliver-hop.mjs:96-158 | Nor do they change any verdict |
| `HopRules.VerdictExactly` | harness/analyze-deliver-hop.mjs:139-158 | Over the rows: STANDS exactly when some hop up to three has a lower bound of at least 3.005%, RETIRE exactly when one was measured and all have 125 sends and an upper bound under 2.995% |
| `Transitions.IndexArrivals` | harness/reconstruct-transitions.mjs:68-74 | The index holds for each exact key its last arrival |
| `Transitions.FindMatch` | harness/reconstruct-transitions.mjs:86-88 | A sender row with an edge id joins that edge or nothing; one without takes the first free arrival of its message |
| `Transitions.Join` | harness/reconstruct-transitions.mjs:77-102 | Tally and edges per message are those of the sender rows in order followed by the orphan arrivals |
| `Transitions.SendersClassified` | harness/reconstruct-transitions.mjs:81-96 | Every sender row with a message id is in exactly one of four classes |
| `Transitions.ArrivalsAccounted` | harness/reconstruct-transitions.mjs:75-102 | Orphans and distinct joined arrivals are all arrivals with a message id |
| `Transitions.CrossedIsIntersection` | harness/reconstruct-transitions.mjs:81-96 | With named and unique sender edges CROSSED is the size of the key intersection, whatever the row order |
| `Transitions.CrossedExceedsJoined` | harness/reconstruct-transitions.mjs:81-96 | CROSSED is never less than the joined arrivals, and equal exactly when no row names an arrival already joined |
| `Transitions.CrossedCountsArrivals` | harness/reconstruct-transitions.mjs:81-96 | When sender rows all name their edge, CROSSED counts the joined arrivals exactly when no pair that arrived was sent twice |
| `Transitions.Expand` | harness/reconstruct-transitions.mjs:113 | One round adds exactly the unseen successors of the frontier |
| `Transitions.Depth` | harness/reconstruct-transitions.mjs:111-113 | The search ends; seen is exactly what the origin reaches, and depth the greatest shortest distance |
| `Transitions.MessageDepth` | harness/reconstruct-transitions.mjs:106-115 | The same for the crossed edges of a message from its first-hop sender; no depth without one |
| `JoinRules.CodeJoins` | harness/reconstruct-transitions.mjs:68-96 | The hits found in order satisfy the join as a relation: a named edge gets its last arrival, a nameless row the first arrival of its message not joined before |
| `JoinRules.JoinUnique` | harness/reconstruct-transitions.mjs:81-96 | That relation has one solution |
| `JoinRules.TallyMeans` | harness/reconstruct-transitions.mjs:77-102 | Each number of the tally is the number of rows it is named for under that join |
| `JoinRules.NamelessCrosses` | harness/reconstruct-transitions.mjs:88 | A row without an edge id crosses exactly when its message has an arrival no earlier row was joined to, and then with the first |
| `JoinRules.NamelessLesser` | harness/reconstruct-transitions.mjs:81-96 | When no sender row names its edge, each message crosses as often as it was sent or arrived, whichever is less |
| `JoinRules.SenderEdgesMean` | harness/reconstruct-transitions.mjs:78-95 | A message has one edge per sender row, in order, of its class and with its ends |
| `JoinRules.OrphanEdgesMean` | harness/reconstruct-transitions.mjs:98-102 | and one per arrival that no row was joined to |
| `JoinRules.OriginMeans` | harness/reconstruct-transitions.mjs:110 | The search starts at the sender of the first edge with hop index one |
| `JoinRules.MessageLinks` | harness/reconstruct-transitions.mjs:107-112 | The depth is taken over exactly the joined sender rows of the message, each from sender to receiver |
| `Watch.Record.constructor` | src/mcp-watch.js:24-37 | A new record is empty, with the given cap or the default for zero |
| `Watch.Record.Deliver` | src/mcp-watch.js:46-62 | The whole new state and both flags of a delivery; conservation is kept |
| `Watch.Record.Collect` | src/mcp-watch.js:76-91 | The messages handed out and the whole new state, for every max and for a peek; conservation is kept |
| `Watch.Record.CarryOver` | src/mcp-session.js:681-683 | The new buffer is the old messages not already there, in order, before its own |
| `Watch.Record.LearnIds` | src/mcp-session.js:684 | Ids of the old record are remembered once each, behind those already known |
| `Watch.Record.Adopt` | src/mcp-session.js:676-687 | The whole state after a reconnect is the merge of both |
| `WatchRules.DeliveryCounts` | src/mcp-watch.js:46-58 | What counters and memory do with a new, a nameless, a replayed and a duplicate message |
| `WatchRules.DeliveryBuffers` | src/mcp-watch.js:59-60 | A message goes in last; nothing leaves while there is room, and the oldest goes when there is none |
| `WatchRules.CollectionTakes` | src/mcp-watch.js:77-81 | How many of the first messages each max takes, all without one; a peek takes none |
| `WatchRules.LosesExactly` | src/mcp-watch.js:46-91 | A run loses nothing exactly when at no moment more messages are accepted and undrained than the cap |
| `WatchRuns.RunConserves` | src/mcp-watch.js:46-91 | Over every run the accepted messages are the removed ones followed by the buffer; total + replayed = drained + dropped + buffered; the buffer stays within its cap |
| `WatchRuns.DeliverTidy` | src/mcp-watch.js:46-62 | Unless it pushes an id out of memory a delivery keeps ids unique in the buffer and remembered, and counts each new id once |
| `WatchRuns.RunTidy` | src/mcp-watch.js:39-62 | With at most 50,000 distinct ids no id is buffered twice, memory holds exactly the arrived ids, and total is distinct ids plus id-less arrivals |
| `WatchMemory.DeliverTidyExactly` | src/mcp-watch.js:46-62 | A tidy watch stays tidy under a delivery exactly unless that pushes an id out of memory whose message stays buffered |
| `WatchMemory.FirstReplayed` | src/mcp-watch.js:49-52 | A replay leaves the oldest id the oldest, with its message now last in the buffer |
| `WatchMemory.BufferedTwice` | src/mcp-watch.js:46-62 | A concrete run from an empty watch after which the same message is buffered twice |
| `WatchRuns.CarriedMembers` | src/mcp-session.js:681-683 | A message is carried over exactly when it was unread and its id is not in the new buffer |
| `WatchRuns.CarriedFrom` | src/mcp-session.js:681-683 | Carried messages keep the order of the old buffer |
| `WatchRuns.NamelessCarried` | src/mcp-session.js:681-683 | Messages without an id are all carried, in order |
| `WatchRuns.MergeIndexed` | src/mcp-session.js:684 | After a merge memory is the union of both, each id listed once |
| `WatchRuns.MergeTidy` | src/mcp-session.js:678-687 | A merge of two tidy watches is tidy and holds each id that either had unread, once |
| `WatchRuns.LiveTidy` | src/mcp-session.js:672-690 | Over any life with reconnects and at most 50,000 distinct ids no id is ever buffered twice |
| `WatchRuns.MergeTotal` | src/mcp-session.js:678-685 | Exactly when total still counts every message after a merge |
| `WatchRuns.TotalFallsShort` | src/mcp-session.js:678-685 | A concrete reconnect after which an unread message is no longer counted in total |
| `WatchRuns.MergeBalance` | src/mcp-session.js:678-686 | Exactly when the counters still balance after a merge |
| `WatchRuns.BalanceBreaks` | src/mcp-session.js:678-686 | A concrete reconnect after which the counters no longer balance: a message drained before it and replayed after it |
| `WatchRuns.MergeOverCap` | src/mcp-session.js:681-683 | Exactly when a merge leaves the buffer over its cap |
| `WatchRuns.OverCapStays` | src/mcp-watch.js:59-60 | A buffer at or over its cap keeps its length through any deliveries |
| `WatchRuns.MergeOverCapExample` | src/mcp-session.js:681-683 | A concrete merge over the cap that no later delivery brings down |
| `WatchMemory.MergeMemoryOverCap` | src/mcp-session.js:684 | Exactly when a merge leaves more ids in memory than its cap |
| `WatchMemory.MemoryStays` | src/mcp-watch.js:55-56 | A memory at or over its cap keeps its size through any operations |
| `WatchMemory.MergeMemoryExample` | src/mcp-session.js:684 | A concrete merge that leaves one id too many for good |
| `SeatLock.Server.Claim` | src/mcp-session.js:121-155 | Outcome, role and file of a claim: strict refusal, join, refusal or taking the seat |
| `SeatLock.Server.ReleaseRead` | src/mcp-session.js:154 | The read half of a release: go on to remove only a file that names this pid |
| `SeatLock.Server.Unlink` | src/mcp-session.js:154 | The second half removes whatever the file then is |
| `SeatLock.RunNamed` | src/mcp-session.js:121-155 | Over all runs with crashes, reused pids, takeovers and failing removals every live holder is named by the file |
| `SeatLock.OneHolder` | src/mcp-session.js:94-111 | At most one live process holds the seat |
| `SeatLock.FileChanges` | src/mcp-session.js:130-154 | The file is overwritten only when its pid is dead, malformed or one's own, and removed only by the process it names at that moment |
| `SeatLock.SeatHeldFast` | src/mcp-session.js:130-154 | No step of another process touches the file of a live holder, not even between the halves of its release |
| `SeatLock.JoinerNeverWrites` | src/mcp-session.js:133-145 | From joining to its end, whatever others do to the seat, a joiner never changes the file, its releases included |
| `SeatLock.ReleasedStaysClean` | src/mcp-session.js:763-766 | After a successful release its pid never returns to the file while it lives, so a later release never removes a successor's lock |
| `SeatLock.ReplacementSeated` | src/mcp-session.js:729-739 | After a release the replacement gets the seat while the old process still lives |
| `SeatLock.ReachedNamed` | src/mcp-session.js:121-154 | In every reachable state holders are named, strict seats never use the default key, and joiners opted in with an explicit path |
| `SeatLock.JoinerMatchesOwner` | src/mcp-session.js:133-145 | Whoever joins has the handle of the live owner |
| `SeatLock.ClaimMeans` | src/mcp-session.js:125-153 | Which of the four outcomes a claim has, by lock, seat and who is alive |
| `SeatLock.DeadSeatTaken` | src/mcp-session.js:130-153 | In any reachable world an absent, malformed or dead lock keeps nobody from the seat |
| `SeatLock.ReleaseEndsSigning` | src/mcp-session.js:144-154 | A release ends signing, whatever becomes of the file |
| `SeatLock.HandlesAgree` | src/mcp-session.js:133-153 | Signers agree on the handle until, and only until, a process begins to sign past a joiner left behind with another handle |
| `SeatLock.OrphanedJoinerExample` | src/mcp-session.js:133-153 | A concrete run in which that happens |
| `LogCtx.RenderCtx` | src/logctx.js:104-157 | The emitted line is the rendering of the context whole, trimmed or reduced, by the rules |
| `LogCtx.TrimValues` | src/logctx.js:116-122 | Only strings longer than 120 are cut, at 120, and marked |
| `LogCtx.Reduce` | src/logctx.js:134-151 | The loop's record is the context with exactly the chosen keys replaced by their notes |
| `LogReduction.EmittedKeeps` | src/logctx.js:104-157 | Every key and scalar stays in place, every structured value is whole or its own note, full-fidelity events are untouched |
| `LogReduction.ReplacedMeansShorter` | src/logctx.js:134-151 | A value is replaced only over the cap and by a note shorter than itself |
| `LogReduction.NoteLength` | src/logctx.js:145-149 | A note renders to its length plus two, as the guard assumes |
| `LogReduction.EachDropShortens` | src/logctx.js:142-151 | Each drop made strictly shortens the line |
| `LogReduction.LastDropNeeded` | src/logctx.js:142-151 | Restoring the last drop puts the line over the cap |
| `LogReduction.OverCapMeans` | src/logctx.js:146-156 | If the line is still over the cap, each structured value left is no longer than its note |
| `LogReduction.FitsWhenAnythingDoes` | src/logctx.js:127-156 | If any choice of notes fits the cap, the emitted line fits |
| `LogReduction.FewestChosen` | src/logctx.js:130-151 | Whenever larger values also save more, no fitting choice drops fewer values than the reduction |
| `LogReduction.FewestDropped` | src/logctx.js:130-151 | With equally long notes no fitting choice drops fewer values |
| `LogReduction.FewestExactly` | src/logctx.js:130-151 | The reduction drops the fewest exactly when one drop fewer, of the values that save most, would not fit |
| `LogReduction.LargestFirstNotFewest` | src/logctx.js:137-151 | A concrete context, over an array and a slightly shorter object, of which two are dropped where one would do |
| `LogReduction.OrderIrrelevant` | src/logctx.js:135-151 | The same entries in any key order lose the same keys |
| `LogReduction.FullFidelityMeans` | src/logctx.js:87-90 | The exempt events are the armed- family and health-dump alone |
| `LogReduction.EmittedWhole` | src/logctx.js:109-124 | Exempt, short, and enumerating contexts under the cap are emitted whole |
| `LogReduction.EmittedFlat` | src/logctx.js:116-123 | A long flat context keeps all but the tails of strings over 120 characters |
| `LogReduction.LargerDroppedFirst` | src/logctx.js:135-151 | If a value is dropped, so is every larger one worth dropping, and of equal ones those whose key comes first |
| `LogText.RenderingReadsBack` | src/logctx.js:105 | A string is read back whole from its rendering |
| `LogText.DecimalMeans` | src/logctx.js:145 | The number in a note is the length of the array |
| `Confirm.ConfirmPublished` | src/mcp-confirm.js:23-40 | Result, pulls made and time spent are those of asking until an answer or the end of the time; a bad id throws before any pull |
| `Confirm.AskedMeans` | src/mcp-confirm.js:18-40 | It ends within its timeout; unconfirmed it used the time up exactly; confirmed only if its last pull, and no earlier one, returned the id |
| `Confirm.ErrorIsLatest` | src/mcp-confirm.js:35-39 | The error reported is that of the latest pull that threw |
| `Confirm.AsksOftenEnough` | src/mcp-confirm.js:28-38 | An unconfirmed publish was asked for at least timeout/step times |
| `Confirm.DrainInflight` | src/mcp-confirm.js:47-60 | Lists, remaining map and time are those of the fold over the entries, oldest first |
| `Confirm.DrainShape` | src/mcp-confirm.js:42-60 | The drain ends within its budget and leaves a suffix of the map, only with the budget spent or after a throw at its first entry |
| `Confirm.DrainFiles` | src/mcp-confirm.js:50-57 | Every entry is in exactly one list, oldest first, confirmed exactly when one of its own pulls returned its id |
| `Confirm.KeptAreExhausted` | src/mcp-confirm.js:52 | The entries left in the map are the last of the unconfirmed list, as budget-exhausted |
| `Confirm.EntrySettles` | src/mcp-confirm.js:53-57 | An entry is asked for its share of the time; its line has its pulls, time and the last failure, and it leaves the map |
| `FleetRoll.Await` | roll-fleet.sh:127-135 | The wait succeeds exactly when banner and mesh appear in time and the replacement was not found dead before; who dies during it is known |
| `FleetRoll.WaitEnds` | roll-fleet.sh:127-135 | The wait ends at the first tick at which both signs were seen or the replacement was found dead, and otherwise at the timeout |
| `FleetRoll.LeaveEnds` | roll-fleet.sh:142-146 | The wait for the old relay ends at the first tick at which it is gone, and otherwise at the timeout |
| `FleetRoll.LostInWait` | roll-fleet.sh:127-135 | Lost during a wait are those who died at one of its ticks |
| `FleetRoll.RollSlot` | roll-fleet.sh:102-156 | A slot goes through exactly when its replacement integrates and nobody who should then run is lost; it then ends at a census with exactly the right relays, or the roll stops with the survivors named |
| `FleetRoll.Roll` | roll-fleet.sh:85-168 | Outcome and survivors of a whole roll, whoever dies when: complete exactly when every slot goes through and nobody dies before the final count; the final count is off exactly when all slots went through and a replacement died in the last pause; else it stops at the first slot that does not; a completed roll was never short exactly when no relay died in the pause before its own slot |
| `FleetRoll.CalmOutcome` | roll-fleet.sh:100-168 | When nothing else dies a slot goes through exactly when its replacement integrates, and an abort leaves earlier replacements and all later old relays |
| `FleetRoll.UnnoticedDip` | roll-fleet.sh:152-168 | A concrete roll that dips below EXPECT and completes all the same |
| `FleetRoll.StartsFromCount` | roll-fleet.sh:152-156 | Each slot starts from a count at full strength since which others have at most died |
| `FleetRoll.NeverBelow` | roll-fleet.sh:100-156 | Whatever dies on its own, at every moment the count is EXPECT less the deaths so far or more, and at most EXPECT+1 |
| `FleetRoll.NoEarlyStop` | roll-fleet.sh:120-141 | No old relay is stopped before its own replacement was started and passed both checks within the timeout |
| `FleetRoll.FullMeans` | roll-fleet.sh:140-168 | A roll that was never short has EXPECT or EXPECT+1 live relays at every moment |
| `StopFile.Watcher.Tick` | src/stopfile.js:26-39 | Every step of arming and polling, with and without a successful removal; onStop is called in one of them |
| `StopFile.Wrapper.DeleteStale` | windows/relaysvc.cs:107-108 | A stale file is gone unless its removal fails |
| `StopFile.Wrapper.Start` | windows/relaysvc.cs:112-126 | The flag says whether no file was left when the relay was started |
| `StopFile.Wrapper.Halt` | windows/relaysvc.cs:142-153 | It writes the request and waits only if there is a relay, a grace and a successful write |
| `StopFile.StopsOnlyWhenAsked` | src/stopfile.js:12-20 | Over all interleavings and service runs, while no removal of a file older than the run fails, a relay calls onStop at most once and only if Halt wrote the file in this run |
| `StopFile.UnaskedExactly` | src/stopfile.js:26-35 | For every run: no relay stops unasked while no removal of an older file fails, and wherever one fails three more steps of the relay stop it unasked |
| `StopFile.RemovalDecides` | src/stopfile.js:28-35 | In any run, when a relay removes a file older than it, it goes on to stop unasked exactly if the removal fails |
| `StopFile.ArmedStopsUnasked` | src/stopfile.js:29-35 | A watcher that finds a file nobody wrote in this run always stops |
| `StopFile.RequestDeleted` | src/stopfile.js:28-35 | A request of this run is removed only on the way to onStop, or by a flag-0 relay that had seen a file |
| `StopFile.FreshNeverLost` | windows/relaysvc.cs:105-112 | With flag 1 any file found is a request of this run and is never removed unhonoured |
| `StopFile.RacingRequest` | src/stopfile.js:28 | With flag 0 a request racing the removal survives exactly when the look found nothing |
| `StopFile.BootRequestHonoured` | src/stopfile.js:17-36 | A request pending at boot under flag 1 leads to onStop within four steps of the relay, whatever comes between |
| `StopFile.BootRequestExactly` | src/stopfile.js:17-36 | A request pending at boot is honoured, left to itself, exactly when the flag is 1 |
| `StopFile.UnremovableStaleFile` | src/stopfile.js:28 | Without a working removal a stale file does stop a relay nobody asked to stop |
| `ChurnPlan.KillableMeans` | harness/gen-arm-plan.mjs:37-43 | A host is killable exactly when it has at least twenty relays |
| `ChurnPlan.StateRecovered` | harness/gen-arm-plan.mjs:45 | Each generator state can be computed back from the next one |
| `ChurnPlan.StateStaysInRange` | harness/gen-arm-plan.mjs:44-45 | The generator state stays in 1..2147483646 |
| `ChurnPlan.Generate` | harness/gen-arm-plan.mjs:44-67 | The emitted plan is the sorted list of the rolls and kills; with no host it fails unless no roll fits |
| `ChurnPlan.RollsSpaced` | harness/gen-arm-plan.mjs:50-56 | Rolls start at five minutes, rotate over the hosts, are at least 15 and under 30 minutes apart, end before the cut-off, and leave no room unused |
| `ChurnPlan.KillsSpaced` | harness/gen-arm-plan.mjs:60-64 | Kills on a host are two hours apart, before their cut-off, with none missing |
| `ChurnPlan.KillsFit` | harness/gen-arm-plan.mjs:59-65 | Every planned kill is on a killable host, after two hours and before the cut-off |
| `ChurnPlan.KillsMeetRolls` | harness/gen-arm-plan.mjs:50-65 | A plan has a kill in the minute of a roll exactly when some roll comes a whole number of two hours, in minutes, after the first kill of a killable host, and that kill is before its cut-off |
| `ChurnPlan.KillMeetsRollExample` | harness/gen-arm-plan.mjs:57-65 | A concrete duration at which the frozen fleet's plan kills in the minute of a roll |
| `PlanDraws.RollsDrawn` | harness/gen-arm-plan.mjs:50-56 | Each roll comes fifteen minutes and the share of fifteen more that its draw makes after the one before; one draw per roll, in order |
| `PlanDraws.FirstKillsDrawn` | harness/gen-arm-plan.mjs:59-60 | The hosts of at least twenty relays, in order, get their first kill two hours and their draw's share of ten minutes in |
| `PlanDraws.PlanDrawn` | harness/gen-arm-plan.mjs:44-65 | All draws of a plan in closed form from its duration, and which roll or first kill each one makes |
| `ChurnPlan.PlanIsSorted` | harness/gen-arm-plan.mjs:66-67 | The plan is a permutation of the generated actions in order of time |
| `ChurnPlan.PlanActions` | harness/gen-arm-plan.mjs:51-65 | Every planned action is a roll of a listed host or a kill on a killable one, with its size and 95% |
| `ChurnPlan.TurnsRotate` | harness/gen-arm-plan.mjs:52-54 | Rolls go through the hosts in their order, over and over |
| `ChurnRun.Drive` | harness/churn.mjs:56-115 | Ledger and counts of a run are those of the guarded actions in order of time |
| `ChurnRun.Fleet.Churn` | harness/relay-churn.sh:166-177 | What a roll and a kill do to the count, with and without the started relay coming up |
| `ChurnRun.ActionKeepsFloor` | harness/churn.mjs:82-111 | Which action is carried out, and exactly when one of either kind keeps its host at or above the floor throughout |
| `ChurnRun.RunKeepsFloor` | harness/churn.mjs:82-111 | The same for every action of any run, whatever counts do in between and whatever starts fail: no kill breaches the floor, and exactly which rolls do |
| `ChurnRun.CountBalance` | harness/churn.mjs:56-115 | Over any run each host has what it had, plus what came from outside, less one for each failed start of a carried-out action; exactly so while no drift takes more than is there |
| `ChurnRun.NeverBelowFloor` | harness/churn.mjs:82-97 | A host that begins at its floor, loses nothing from outside and has its rolls' starts succeed is never below it, not even during a kill, however many starts of kills fail |
| `ChurnRun.PlanKeepsFloors` | harness/gen-arm-plan.mjs:44-67 | So a generated plan never takes a host under 95% of its size |
| `ChurnRun.FailedRollBreachesFloor` | harness/churn.mjs:85-97 | A concrete roll whose start fails and that takes its host below the floor |
| `ChurnRun.PlanCarriedOut` | harness/churn.mjs:56-115 | On a whole, undisturbed fleet every generated action is carried out, none refused, no host under 95%, all whole at the end |
| `ChurnRun.LeftOutMeans` | harness/churn.mjs:82-84 | The host, the floor and the size taken for an action that leaves them out |
| `ChurnRun.UnarmedDoesNothing` | harness/churn.mjs:77-81 | Without the sanction no action on a relay is carried out |
| `ClockProbe.SampleError` | harness/clock-probe.mjs:30-31 | A sample errs by at most half its round trip exactly when the stamp was taken within it |
| `ClockProbe.OffsetBounded` | harness/clock-probe.mjs:27-39 | The reported offset is off by at most uncertainty + spread + 1.5 ms |
| `ClockProbe.ReportsMedian` | harness/clock-probe.mjs:30-34 | The reported offset is the rounded offset of a usable sample with at most half of them below it and fewer than half above |
| `ClockProbe.ReportsRanges` | harness/clock-probe.mjs:30-36 | Uncertainty is the rounded least half trip, spread the rounded range of offsets |
| `ClockProbe.OrderIrrelevant` | harness/clock-probe.mjs:27-39 | The same samples in any order give the same estimate |
| `ClockProbe.NothingUsable` | harness/clock-probe.mjs:28-29 | Nothing is reported exactly when no sample is usable |
| `Sorting.SortSorts` | harness/gen-arm-plan.mjs:66 | The engine's sort puts any list in order |
| `Sorting.SortKeeps` | harness/gen-arm-plan.mjs:66 | and keeps every element as often as it occurs |
| `Sorting.SortIsStable` | harness/gen-arm-plan.mjs:66 | and leaves elements that compare equal in the order in which they came |

## Left out

- The kernel (`AxonaPeer`, routing, root election, transports): its source is not part of this model; pulls, subscriptions and censuses are inputs.
- Reading files, parsing JSON, and `JSON.stringify` of structured values: rows are parsed, and an array or object is its rendered text; a string is rendered character by character. Lengths count characters, not UTF-16 units; a property whose value is undefined, and a context that is itself an array, are not modelled.
- Field types: an id that is present but not a string counts as absent, and `n`, `isRoot`, `child` and dispositions are already decoded. In `Transitions` names are already lower-cased and prefixed.
- Composite text keys for peer and topic (`harness/reconcile-delivery.mjs:211-222`) are pairs, so a separator inside a name cannot collide; the keys `EdgeKey` and `JoinKey` are kept as text.
- Floating point: rates, bounds and clock readings are exact reals, a square root is the non-negative number whose square it must be, and `toFixed(2)` rounds ties up. The percent floors and `floor(rnd() * n)` are exact rational arithmetic.
- The receipt sets of a message (application, node arrival, origin roots; `harness/reconcile-delivery.mjs:372-412`) and the topic kinds are inputs; duplicate and unmapped receipt counts and latencies are not modelled.
- The choice of offsets, band and `timingVoid` from the clock files (`harness/reconcile-delivery.mjs:98-129,343-354`) is an input.
- `harness/analyze-deliver-hop.mjs`: the first pass (latency and censor window), message-weighted loss and the two validity tripwires; the cut-off and the void flag are inputs.
- `harness/reconstruct-transitions.mjs`: run and epoch scoping, manifests, the closed-fleet census, and the order in which nodes are found within a round.
- `src/mcp-watch.js`: waiters, `settle`, hints and timestamps; a `max` that is not a whole number.
- Reconnect: closing, re-subscribing and hosting. The new record lives through its own deliveries from empty and then takes over the old one; a delivery to the old peer during that time is not modelled.
- `SeatLock`: a claim's read and write are one step, since the code does not make them atomic across processes; a write that fails, and anybody else editing the file, are not modelled. That nothing is signed after a release is not claimed: `publish` does not check again after its await.
- `Confirm`: code between pulls takes no time; a pull takes at least one tick and no more than it was given. Entries added to the map during a drain are not modelled.
- `FleetRoll`: starting, killing and counting are each one step, a pid is not used twice in one roll, and a log line, once written, stays. Deaths of other relays are inputs: in the pause before each start and before the final count, and during every tick of both waits.
- `StopFile`: a relay of an earlier run is dead before the next run starts, since the job is terminated; only Halt writes the file; `stop()` of a watcher and the grace timers are not modelled.
- `ChurnRun`: sleeping, remote shells and sidecar restarts; a stop takes one relay if there is one, and a start adds one or fails. The census the script prints last is only ledgered, so the ledger line has the count itself.
- `harness/soak-account.mjs`, `src/network.js`, `src/healthdump.js`, live probes, user interfaces and `desktop/`: they would add only simpler members, or are foreign calls.
- Reconcile: the receipt sets, topic kinds, offsets and timing flag that `reconcile` computes first (`harness/reconcile-delivery.mjs:341-412`) are inputs, because they are one-pass collections and choices.
- Analyze: the cut-off of the first pass and the void flag of the two tripwires (`harness/analyze-deliver-hop.mjs:77-86,110-127`) are inputs, because each is settled by one formula.
- FewestDropped: stated for notes of equal length; `FewestExactly` has the condition for all notes.
- RunTidy: stated for at most 50,000 distinct ids, because beyond that the code forgets the oldest; `DeliverTidyExactly` says which deliveries then keep the buffer free of doubles.
