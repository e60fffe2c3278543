# KaiMS: models and proofs

KaiMS turns alerts into incidents, asks for or grants approval, runs a remediation and closes
the incident, passing every step between services over RabbitMQ or Kafka. This project models
the parts of it that carry state from one message to the next and proves what they promise.
The programs are loops, dictionaries and objects that change in place; so are the models: a
class or loop in Dafny stands for each class or loop in Python, its contract ties it to a
specification, and the theorems are about that specification over all inputs or all runs.

| file | what it models |
|---|---|
| `MessageCache.dfy`, `Identity.dfy` | the duplicate filter in front of every handler, and the identity it looks at |
| `RabbitConsumer.dfy`, `KafkaConsumer.dfy` | the two consumer loops, each against a broker, a handler, a dead-letter publish and a process that may fail between any two awaits |
| `Projection.dfy`, `ProjectionFields.dfy`, `ProjectionOrder.dfy` | the incident projection and its replay; which event each field of a row comes from; when the order of events matters |
| `EventMerge.dfy`, `EventMutation.dfy`, `SessionController.dfy` | rebuilding a trace from recorded events, what that leaves of the events it was given, and the user interface's own copy of that code |
| `QueryHint.dfy` | the search for a query text |
| `Allocator.dfy` | responder capacity and greedy assignment |
| `RagHeader.dfy`, `IncidentCorpus.dfy`, `IncidentFields.dfy`, `IncidentFiles.dfy`, `CorpusValidator.dfy` | the text format of the knowledge corpus, the script that completes incident files, where each field it writes comes from, which files it leaves complete, the validator |
| `Lifecycle.dfy` | approval, remediation and closure services over topics that repeat and reorder |
| `PendingWorkflow.dfy` | the continuation of a workflow that waits for a person |
| `ToolBreaker.dfy`, `FinOps.dfy` | the circuit breaker in front of tools; the cost summary |
| `Machine.dfy`, `Text.dfy`, `Wrappers.dfy` | runs of a state machine; Python's string primitives; `Option` |

## How the models are built

A consumer loop is modelled twice. `Next` is a state machine, run by `Machine.Run`, with one
step for each await of the loop and each thing that can go wrong outside it; the safety
theorems are about every run of that machine. `Consumer.ConsumeOne` and `Consumer.ConsumeRecord` are the loop bodies as the
program runs them, and each is proved to be a run of the machine: its trace of steps is part of
the object's invariant. The duplicate filter is the same object in both, and is proved to hold
exactly what the history of marks says it should.

What a rule decides (which field is the identity, whether a person is asked, whom a ticket
suits, what a token means) is a function that the loops call, and is stated a second time in
the terms of its inputs: a lemma called `...Exactly` or `...ByField` says that the two agree,
and the theorems and the methods' contracts use the second form.

Clock readings are parameters and never go back. Handlers, publishes, plugins and the answers
of other services are parameters too. Hours and costs are reals.

## Where the code does less than it seems to promise

Each of these is a theorem: a concrete case in which the promise fails, or the exact condition
under which it holds, or both.

- Kafka: a record whose handler and dead-letter publish both failed is left uncommitted, but
  the loop reads on and the next commit passes it (`CommitCanLose`). A record below the
  committed offset was dealt with exactly when no commit went past it, in the same process,
  after its dead-letter publish had failed (`CommitPassesExactly`).
- Projection: an event without a status keeps whatever status arrived before it, so order can
  matter (`BlankStatusDiverges`). Every order of a log gives an incident the same time and
  rank exactly when every event at its latest time carries a status, or some status there is
  above "unknown" and none of the incident ranks higher, or no event there carries a status
  and every earlier status has the rank of "open" (`ConvergesExactly`).
- Human gate: what the gate looks at is the memory of one process. A restart empties it, and
  accepting one decision overwrites the remembered resolution event, so the gate sees the
  severity only once. A non-human passes exactly when, since the incident's last event, the
  service restarted or accepted a decision for it (`NonHumanPassesExactly`,
  `GateOpensExactly`): after a restart (`GateOpensAfterRestart`), or after a person's
  rejection (`GateOpensAfterRejection`).
- High-risk floor: a decision without a risk tier reads as the tier "none" and hides the tier
  of the orchestration (`OrchestrationTierBlocksExactly`, `HighRiskPasses`).
- Continuing a workflow: a call that raises after running the remediation leaves the workflow
  waiting, and the next call runs it again (`InterruptedRunsAgain`); the number of runs is
  accounted for exactly (`ExecutionsAreAccounted`).
- Capacity update: the reply claims that nothing is allocated, which agrees with the next
  listing exactly when no open assignment names the responder (`PutReplyIsRightExactly`,
  `PutReplyIsWrongWhenBooked`).
- Corpus script: one pass is not always enough. It is exactly when the identifier and the
  name it takes are free of outer space and no source given is empty, unless a blank
  identifier is what an empty reference would be replaced by (`OnePassSufficesExactly`, with
  `NeatFile` the condition on the file): an empty source needs two (`EmptySourceNeedsTwo`), and so does an empty file whose name begins with a hyphen
  (`EdgeHyphenNeedsTwo`). The output is valid exactly when the file gives an identifier or has
  a name that is not blank, and gives an alert name, a title or a heading or has a name with a
  character other than hyphens and white space (`CompletedIsValidExactly`); an empty file named
  by hyphens stays invalid (`HyphensStayInvalid`). A line break in a file name that has to
  stand in a header breaks the header: two passes are then too few (`BreakInNameNeedsThree`)
  and the output can be invalid (`BreakInNameIsInvalid`).

## Model

| member | source | states |
|---|---|---|
| Identity.FirstNonBlankMeaning | services/common/common/message_processing.py:20-34 | the identity is the first candidate that is not blank, stripped; there is none exactly when all are blank |
| Identity.IdentityIsToken | services/common/common/message_processing.py:30-34 | an identity survives the stripping that the filter applies to its keys |
| Identity.IdentityByField | services/common/common/message_processing.py:20-34 | the identity is the stripped event id of the envelope unless that is blank, then the envelope's idempotency key, the contract's event id, the payload's own event id, its own idempotency key; none exactly when all five are blank |
| Identity.ExtractMessageIdentity | services/common/common/message_processing.py:8-34 | the loop finds that identity, said field by field |
| MessageCache.LastMarkPosition | services/common/common/message_processing.py:60-70 | the recursive last mark is the last mark by position, and the identities it reports are those marked after it |
| MessageCache.NeverMarked | services/common/common/message_processing.py:60-70 | there is no last mark exactly when the identity was never marked |
| MessageCache.RecencyIsLastMark | services/common/common/message_processing.py:67-68 | the insertion order of the dictionary is the order of last marks: behind an entry stands exactly what was marked since |
| MessageCache.PurgeKeeps | services/common/common/message_processing.py:43-49 | purging from the old end keeps the dictionary a recent end of the history, whatever is missing having expired or been pushed out |
| MessageCache.MarkKeeps | services/common/common/message_processing.py:60-70 | so does marking, with its purge, move to the end and eviction |
| MessageCache.PurgedHoldsExactly | services/common/common/message_processing.py:43-58 | after a purge an identity is held exactly when its last mark is at most the time-to-live old and fewer than the size bound of others were marked since |
| MessageCache.MarkedTokens | services/common/common/message_processing.py:60-70 | marking brings in no identity but the one marked |
| MessageCache.MarksAreSeparated | services/common/common/message_processing.py:43-70 | in one process two marks of one identity are more than the time-to-live apart or have the size bound of other identities between them |
| MessageCache.ProcessedMessageCache.constructor | services/common/common/message_processing.py:38-41 | an empty filter; zero stands for one hour and for ten thousand entries, any other setting for itself, raised to its floor |
| MessageCache.ProcessedMessageCache.PurgeExpired | services/common/common/message_processing.py:43-49 | the loop drops the expired entries from the old end |
| MessageCache.ProcessedMessageCache.Contains | services/common/common/message_processing.py:51-58 | true exactly for a non-blank key that is remembered; a blank one does not even purge |
| MessageCache.ProcessedMessageCache.Mark | services/common/common/message_processing.py:60-70 | a non-blank key joins the history of marks and the filter still refines it; a blank key changes nothing |
| RabbitConsumer.NextConserves | services/common/common/rabbitmq.py:146-242 | no step duplicates or drops a published message: it is queued, in flight or settled, and only one of these |
| RabbitConsumer.NextKeepsTokens | services/common/common/rabbitmq.py:170-226 | every cached identity belongs to a message that was handled or dead-lettered |
| RabbitConsumer.NextKeepsLossInv | services/common/common/rabbitmq.py:146-242 | every step keeps the invariant behind `NoMessageIsLost` |
| RabbitConsumer.NoMessageIsLost | services/common/common/rabbitmq.py:146-242 | after every run, through crashes, lost acknowledgements and reconnects, each message is queued, in flight or settled, and a settled one with a payload was handled, dead-lettered, or shares its identity with one that was |
| RabbitConsumer.OwnEventIsDealtWith | services/common/common/rabbitmq.py:146-242 | in every run a settled message whose envelope has an event id that no other message carries was handled or dead-lettered itself, whatever else they share |
| RabbitConsumer.NextKeepsDuplicateInv | services/common/common/rabbitmq.py:170-226 | every step keeps the filter exact, marks of one identity separated, and the number of handler calls bounded |
| RabbitConsumer.NoEarlyDuplicate | services/common/common/rabbitmq.py:150-226 | in every run, two returns of the handler for one identity with no restart between them are more than the time-to-live apart, or the size bound of other identities was handled or dead-lettered between them |
| RabbitConsumer.HandlerCallsAreBounded | services/common/common/rabbitmq.py:176-192 | in every run, after a delivery is taken in hand the handler is called at most retries plus one times before the next |
| RabbitConsumer.Consumer.constructor | services/common/common/rabbitmq.py:150-178 | a fresh process with an empty filter; a negative retry setting counts as zero |
| RabbitConsumer.Consumer.Receive | services/common/common/rabbitmq.py:158-174 | the handler is wanted exactly for a payload whose identity is not remembered |
| RabbitConsumer.Consumer.Handle | services/common/common/rabbitmq.py:176-192 | calls the handler until it returns, at most retries plus one times |
| RabbitConsumer.Consumer.GiveUp | services/common/common/rabbitmq.py:198-226 | says to acknowledge exactly when the dead-letter copy is stored and confirmed |
| RabbitConsumer.Consumer.Settle | services/common/common/rabbitmq.py:194-231 | acknowledges or requeues the message in hand; a call that raises gives back whatever is not settled |
| RabbitConsumer.Consumer.ConsumeOne | services/common/common/rabbitmq.py:158-231 | one pass is a run of the machine: which messages the handler sees, how often, and what becomes of them; one whose envelope has an event id not marked before is never skipped |
| KafkaConsumer.NextKeepsReadInv | services/common/common/kafka.py:156-207 | every record read is settled, lost, abandoned or in hand, and these do not overlap |
| KafkaConsumer.NextKeepsDuplicatesInv | services/common/common/kafka.py:158-196 | what is skipped as a duplicate has the identity of a record that was handled or dead-lettered |
| KafkaConsumer.LostIsPassedOver | services/common/common/kafka.py:183-207 | the records lost are those that a commit went past after their dead-letter publish had failed with no restart between |
| KafkaConsumer.CommitPassesExactly | services/common/common/kafka.py:156-207 | after every run a record below the committed offset is settled exactly when no commit so went past it; a skipped duplicate is one |
| KafkaConsumer.OwnEventIsDealtWith | services/common/common/kafka.py:156-207 | so a record below the committed offset whose envelope has an event id that no other record carries was handled or dead-lettered itself, unless a commit so went past it |
| KafkaConsumer.CommitIsSafe | services/common/common/kafka.py:156-207 | if every needed dead-letter publish stores its copy, everything below the committed offset is settled |
| KafkaConsumer.CommitCanLose | services/common/common/kafka.py:183-207 | the hypothesis is needed: a run that commits past a record nobody dealt with |
| KafkaConsumer.NextKeepsFilterInv | services/common/common/kafka.py:156-196 | every step keeps the filter exact, marks of one identity separated, and the number of handler calls bounded |
| KafkaConsumer.NoEarlyDuplicate | services/common/common/kafka.py:156-196 | in every run, two returns of the handler for one identity with no restart between them are more than the time-to-live apart, or the size bound of other identities was handled or dead-lettered between them |
| KafkaConsumer.HandlerCallsAreBounded | services/common/common/kafka.py:165-179 | in every run, after a record is read the handler is called at most retries plus one times before the next |
| KafkaConsumer.Consumer.constructor | services/common/common/kafka.py:145-166 | a fresh process with an empty filter; a negative retry setting counts as zero |
| KafkaConsumer.Consumer.Receive | services/common/common/kafka.py:156-163 | the handler is wanted exactly when the identity is not remembered; the position moves on |
| KafkaConsumer.Consumer.Handle | services/common/common/kafka.py:165-179 | calls the handler until it returns, at most retries plus one times |
| KafkaConsumer.Consumer.GiveUp | services/common/common/kafka.py:180-203 | says to commit exactly when the dead-letter copy is stored and confirmed |
| KafkaConsumer.Consumer.ConsumeRecord | services/common/common/kafka.py:156-207 | one pass is a run of the machine: how often the handler is called, what is committed, and that the position moves on either way; a record whose envelope has an event id not marked before is never skipped |
| Projection.NeverRegresses | services/common/common/repository.py:1147-1203 | for every event the row's (time, status rank) never decreases and no other row changes |
| Projection.UpsertIsMaximumExactly | services/common/common/repository.py:1162-1188 | the row becomes the greater of itself and the event exactly under a condition on the event and the row |
| Projection.ProjectionShowsLatest | services/common/common/repository.py:1147-1203 | for events with a status, in any order, an incident has a row exactly when it has events, and the row shows its latest one |
| ProjectionFields.RowByField | services/common/common/repository.py:1147-1203 | after any log, with or without statuses: the first-seen time is that of the incident's first event, recommendation, flow and status are those of the last accepted event that named one ("open" if none carried a status), and every other field is what the last accepted event says |
| ProjectionFields.SomeAreTaken | services/common/common/repository.py:1162-1173 | an incident with events has a first one and a last accepted one |
| Projection.StatusRankExactly | services/common/common/repository.py:140-142 | the rank of each status by its name, whatever the case and surrounding white space |
| ProjectionOrder.KeyInIsRowKey | services/common/common/repository.py:1147-1203 | time and rank of a row follow a run of their own, whatever the other fields |
| ProjectionOrder.OrdersDiffer | services/common/common/repository.py:1162-1188 | for any log outside the three cases, two orders of it that end with different times or ranks |
| ProjectionOrder.ConvergesExactly | services/common/common/repository.py:1147-1203 | every order of a log agrees on an incident's time and rank exactly in one of three cases |
| ProjectionOrder.GivenIsOrderFree | services/common/common/repository.py:1188 | a log whose events all carry a status is such a log |
| ProjectionOrder.Converges | services/common/common/repository.py:140-142 | two orders of such a log, duplicates included, also agree on the status where statuses are known |
| Projection.TimeAlwaysConverges | services/common/common/repository.py:1162-1173 | with or without statuses, a row carries the latest time of its incident's events |
| Projection.ConvergesOnLatest | services/common/common/repository.py:1174-1203 | if one event is strictly the latest, two orders agree on every field its writer determines |
| ProjectionOrder.BlankStatusDiverges | services/common/common/repository.py:1188 | two events, one without a status, whose order decides the final status when the blank is the later one and not when it is the earlier one |
| Projection.ReplayChangesNothing | services/common/common/repository.py:1256-1267 | replaying any selection of a log without ties, in any order, into a projection of that log changes nothing |
| Projection.WindowRebuilds | services/common/common/repository.py:1256-1267 | rebuilding from nothing over the newest events gives every incident in the window its (time, rank) |
| Projection.ReplayInTimeOrder | services/common/common/repository.py:1263 | the replay goes through exactly the rows read, from the oldest to the newest, and through those of one time in the order read |
| Projection.IncidentRepository.UpsertProjectionFromRecord | services/common/common/repository.py:1147-1203 | when the event is refused, and otherwise what each field of the row becomes; other rows stay |
| Projection.IncidentRepository.SaveIncidentEvent | services/common/common/repository.py:1253-1254 | stores the event under its id and updates the projection |
| Projection.IncidentRepository.ProjectRecentIncidentEvents | services/common/common/repository.py:1256-1267 | replays as many of the newest rows as the clamped limit allows, in order of their times, and counts them; if every event saved carries a status and no two of an incident tie, no row changes |
| EventMerge.BestIsFirstMaximum | services/common/common/repository.py:93 | the event merged into is the first of the highest score |
| EventMerge.MeaningfulExactly | services/common/common/repository.py:60-67 | which values say something: no null, empty collection, blank or placeholder |
| EventMerge.ScoreExactly | services/common/common/repository.py:70-86 | what each part of an event is worth |
| EventMerge.DecidedWins | services/common/common/repository.py:70-86 | an event with a decision that says something and is not pending beats every event without a decision or with a pending one, whatever else that holds |
| EventMerge.MergedMeaning | services/common/common/repository.py:89-122 | each of the four fields keeps its own value if meaningful and otherwise takes the first meaningful one offered, dictionaries are filled key by key from the first member that offers something, all model calls and errors are kept in order |
| EventMerge.KeysAreOrdered | services/common/common/repository.py:136 | the keys come out ordered by step, then by first appearance |
| EventMerge.OneEventPerKey | services/common/common/repository.py:125-137 | the result has exactly one event for each (step, agent) of the input, in that order |
| EventMerge.OneEventPerStepAndAgent | services/common/common/repository.py:125-137 | each (step, stripped agent) of the input appears exactly once in the result, steps rising |
| EventMerge.DeduplicatingTwice | services/common/common/repository.py:125-137 | deduplicating what has been deduplicated changes nothing |
| EventMerge.RecordsAreKept | services/common/common/repository.py:110-122 | every recorded model call and every recorded error is kept, as often as it was recorded |
| EventMerge.MergeEvents | services/common/common/repository.py:89-122 | the loops compute the specified merge |
| EventMutation.MergedAgain | services/common/common/repository.py:93-122 | merging a group whose best event has been filled in place by an earlier merge gives what the earlier merge gave |
| EventMutation.SecondPassAgrees | services/common/common/repository.py:89-137 | deduplicating the events as a first pass leaves them gives the same result as the first pass |
| EventMerge.GroupEvents | services/common/common/repository.py:126-134 | the loop groups the events under their keys, keys in order of first appearance |
| EventMerge.DeduplicateEvents | services/common/common/repository.py:125-137 | the loops compute the specified result |
| SessionController.IsMeaningfulValue | services/ui/session_controller.py:21-28 | the copy's test is the original's |
| SessionController.EventQualityScore | services/ui/session_controller.py:31-47 | the copy's running score is the original's |
| SessionController.MergedEntries | services/ui/session_controller.py:66-69 | filling a dictionary entry by entry adds exactly the meaningful entries it lacks |
| SessionController.MergedEvent | services/ui/session_controller.py:50-85 | the copy's loops merge a group as the original does |
| SessionController.SortedKeys | services/ui/session_controller.py:104 | sorting by (step, first index) gives the original's order |
| SessionController.GroupWorkflowEvents | services/ui/session_controller.py:92-102 | the copy's loop groups the dictionaries of its input and notes where each key was first seen |
| SessionController.DeduplicateWorkflowEvents | services/ui/session_controller.py:88-105 | on the dictionaries of its input, which is all of it when it holds nothing else, the copy returns what the original returns, and nothing for what is not a list |
| QueryHint.HintAtExactly | services/common/common/repository.py:254-259 | an object carries a text exactly when it is a dictionary and that is the stripped text of the value under the first of the six keys that is not blank there |
| QueryHint.ChildrenExactly | services/common/common/repository.py:260-264 | where the search goes on: to all items of a list, and to the dictionaries and lists among the values of a dictionary, in order |
| QueryHint.Visit | services/common/common/repository.py:249-264 | looking at an object keeps what the search knows about distances |
| QueryHint.AtEnd | services/common/common/repository.py:248-265 | when the queue is empty, nothing reachable carries a hint |
| QueryHint.ExtractQueryHint | services/common/common/repository.py:234-265 | the search ends on every graph, shared or cyclic; it finds nothing exactly when nothing reachable carries a hint, and otherwise the hint of the first object, in order of distance and then of discovery, that carries one |
| Allocator.BestIsFirstMaximum | services/approval-service/app.py:148-152 | the chosen row is the first eligible one with most hours left; none is chosen exactly when none is eligible |
| Allocator.ByUsernameAscending | services/approval-service/app.py:107 | rows stand in the order of the responders' names |
| Allocator.BeforeExactly | services/approval-service/app.py:107 | the order of names: a beginning before what it begins, otherwise by the first difference |
| Allocator.DecrementIsRecompute | services/approval-service/app.py:153-160 | the hours left, decremented in place, are what recomputing from the table gives, for every responder |
| Allocator.BatchBound | services/approval-service/app.py:138-162 | no batch raises anyone above the greater of the weekly hours and the allocation before; old assignments stay, new ones have positive hours |
| Allocator.MatchesExactly | services/approval-service/app.py:147-148 | a responder suits a ticket exactly when active and with a resource that is "all" or is called like its service or one of its resources, whatever the case |
| Allocator.SeverityHoursExactly | services/approval-service/app.py:143-153 | the hours of each severity; any other counts as medium |
| Allocator.BatchMatches | services/approval-service/app.py:140-160 | every assignment a batch adds gives one of its tickets to a responder who suits it, for the hours of its severity or all that are left; nobody else who suits it had more left at that moment, and whoever had as many has a later name |
| Allocator.UnmatchedExactly | services/approval-service/app.py:144-151 | a ticket goes unmatched exactly when nobody has its incident and all who suit it have their hours booked |
| Allocator.BatchCounts | services/approval-service/app.py:140-162 | assigned, unmatched and skipped tickets add up to the batch |
| Allocator.RepeatAssignsNothing | services/approval-service/app.py:138-162 | repeating a batch at once assigns nothing and changes nothing |
| Allocator.NeverOverbooked | services/approval-service/app.py:119-162 | over every interleaving of profile updates and batches since the service started, nobody is given more than the most hours their profile ever offered, and no incident is assigned twice |
| Allocator.PutReplyIsRightExactly | services/approval-service/app.py:119-130 | after any run, the reply to one more update agrees with the responder's row in the next listing exactly when no open assignment names the responder |
| Allocator.PutReplyIsWrongWhenBooked | services/approval-service/app.py:130 | a run in which the reply claims eight hours left and the listing shows six |
| Allocator.ApprovalService.ListCapacity | services/approval-service/app.py:100-116 | adding up the table once gives every row's allocated and remaining hours |
| Allocator.ApprovalService.PutCapacity | services/approval-service/app.py:119-130 | which requests are refused, field by field, and that an accepted one puts the profile asked for in place of its own and leaves the others |
| Allocator.ApprovalService.Choose | services/approval-service/app.py:148-152 | the filter and maximum over the rows |
| Allocator.ApprovalService.AutoAssign | services/approval-service/app.py:138-162 | the batch with its own count of hours does what recomputing the capacity before every ticket would do |
| RagHeader.LineParses | scripts/complete-rag-corpus.py:84 | a printed line parses to its key and its stripped value |
| RagHeader.HeaderParses | scripts/complete-rag-corpus.py:27-36 | parsing printed header lines gives their pairs in order and stops at the blank line |
| RagHeader.RoundTrip | scripts/complete-rag-corpus.py:22-41 | parsing a serialized document gives exactly the non-blank pairs in order and the stripped body |
| RagHeader.RoundTripExact | scripts/complete-rag-corpus.py:83-85 | a clean document comes back unchanged |
| RagHeader.HeaderIsRead | scripts/complete-rag-corpus.py:27-36 | a key has the value that the last header line with it gives, split at the first colon and stripped; the header ends at the first line without a colon |
| RagHeader.ParsedExactly | scripts/complete-rag-corpus.py:22-41 | so it is for whole texts, and the body is the rest past one blank line, without leading newlines |
| RagHeader.ParsersAgree | scripts/validate-rag-metadata.py:20-31 | the validator's parser and the corpus script's read the same metadata from the same lines |
| RagHeader.ParseMetadataAndBody | scripts/complete-rag-corpus.py:22-41 | the loop with its three ways out computes the specified parse |
| RagHeader.ParseMetadata | scripts/validate-rag-metadata.py:20-31 | on every text the validator's loop reads the metadata that the corpus script reads |
| IncidentCorpus.ReadIsPlain | scripts/complete-rag-corpus.py:95-112 | whatever a file says, the seven fields are single lines if what has to be taken from its name is, the severity is a known one, and service and type are not blank |
| IncidentFiles.IdExactly | scripts/complete-rag-corpus.py:52-65 | the identifier is blank exactly when none is given and the file's name is white space; when it is free of outer space |
| IncidentFiles.NameExactly | scripts/complete-rag-corpus.py:98 | the same for the alert name, from what is given, the headings and the file's name |
| IncidentFiles.NamedExactly | scripts/complete-rag-corpus.py:52-65 | identifier and name are not blank exactly under that condition on the file |
| IncidentCorpus.HeadingOfStripped | scripts/complete-rag-corpus.py:44-49 | stripping a body does not change its first heading |
| IncidentCorpus.ReadAgain | scripts/complete-rag-corpus.py:93-122 | what a completed file is read back as |
| IncidentCorpus.TwoPassesSettle | scripts/complete-rag-corpus.py:93-122 | completing a file reaches a fixed point after two passes at most, whatever it says, if what has to be taken from its name is on one line |
| IncidentFiles.CompleteExactly | scripts/complete-rag-corpus.py:95-112 | which files are read as complete: a condition on the metadata, the headings and the file's name |
| IncidentFiles.OnePassSufficesExactly | scripts/complete-rag-corpus.py:93-122 | one pass is enough exactly for those files |
| IncidentFiles.EmptySourceNeedsTwo | scripts/complete-rag-corpus.py:120 | a present but empty source needs two |
| IncidentFiles.EdgeHyphenNeedsTwo | scripts/complete-rag-corpus.py:98 | an empty file whose name begins with a hyphen, as "-draft" does, needs two |
| IncidentFiles.BreakInNameNeedsThree | scripts/complete-rag-corpus.py:93-122 | an empty file with a line break in its name for which two are not enough |
| CorpusValidator.CompletedIsValidExactly | scripts/validate-rag-metadata.py:90-123 | a completed file breaks no rule exactly when an identifier is given or the file's name is not blank, and an alert name, title or heading is given or the file's name holds more than hyphens and white space |
| CorpusValidator.CompletedIsValid | scripts/complete-rag-corpus.py:93-122 | so it does whenever the file's name holds a character other than hyphens and white space |
| CorpusValidator.PassesKeepValidity | scripts/complete-rag-corpus.py:93-122 | another pass makes no file valid that was not, and none invalid that was |
| CorpusValidator.HyphensStayInvalid | scripts/complete-rag-corpus.py:98 | an empty file named by hyphens stays invalid however often it is completed |
| CorpusValidator.BreakInNameIsInvalid | scripts/complete-rag-corpus.py:93-122 | a file that is invalid after a pass although its name holds letters, because the name holds a line break |
| CorpusValidator.NormalizeCsvIsEmpty | scripts/validate-rag-metadata.py:44-45 | a list splits into no item exactly when it holds only commas and white space |
| CorpusValidator.LawfulExactly | scripts/validate-rag-metadata.py:48-123 | no rule is broken exactly when the file gives the keys of its section, its kind fits, an incident has one of four severities, and runbooks, changes and dependencies name a service |
| CorpusValidator.ErrorsExactly | scripts/validate-rag-metadata.py:90-123 | there is an error among the findings exactly when the section is one of seven and the file is not lawful in that sense |
| CorpusValidator.WarningsExactly | scripts/validate-rag-metadata.py:94-116 | what is only warned about: an unknown section, and an incident's identifier with an unusual character |
| CorpusValidator.ValidateFile | scripts/validate-rag-metadata.py:90-123 | the checks report exactly the findings, in order, with the keys that are missing and the kinds that differ |
| IncidentFields.ReadByField | scripts/complete-rag-corpus.py:52-112 | where each of the seven fields comes from: what the file says, or else the number or capitals of its name, the first heading or titled name, the first listed service, the words for severity and type, the identifier |
| IncidentFields.HeadingFromBody | scripts/complete-rag-corpus.py:44-49 | the loop finds the first heading |
| IncidentFields.EnsureIncidentsComplete | scripts/complete-rag-corpus.py:93-132 | every file is rewritten, and its fields recorded, from its own name and text alone, each field by that rule |
| Lifecycle.RequiresApprovalExactly | services/remediation-engine/app.py:262-273 | no approval is required exactly when the decision says so, or says nothing and the orchestration says so |
| Lifecycle.RiskTierExactly | services/remediation-engine/app.py:314-316 | which events count as high risk, by their fields |
| Lifecycle.NoViolationIsPolicy | services/remediation-engine/app.py:310-332 | no violation is raised exactly when the four conditions for acting without a person hold, said by fields |
| Lifecycle.OrchestrationTierBlocksExactly | services/remediation-engine/app.py:314-316 | when a high tier in the orchestration is seen at all |
| Lifecycle.HighRiskPasses | services/remediation-engine/app.py:314-332 | an event of high risk that is acted on below the floor, because its decision names no tier |
| Lifecycle.ResolutionIsEntitled | services/remediation-engine/app.py:181-206 | an action made for a resolution event names its incident, its fields require no approval, and, unless skipped, meet the policy |
| Lifecycle.NextKeepsTraceInv | services/remediation-engine/app.py:172-206 | every step of the three services keeps each sent action and each closed status traceable |
| Lifecycle.ClosedOnlyByEntitledSuccess | services/closure-service/app.py:92-103 | over every run each closed status traces to a succeeded action for that incident, made for a non-rejected approval or for an event whose fields require no approval and meet the policy |
| Lifecycle.MemoryExactly | services/approval-service/app.py:49-51 | after every run the service remembers a resolution event exactly when that was the last one received for the incident and since then it neither decided for the incident nor restarted |
| Lifecycle.HighSeverityExactly | services/approval-service/app.py:403-418 | which remembered events count as high or critical, by their fields |
| Lifecycle.NonHumanExactly | services/approval-service/app.py:451-461 | which names are not human: blank, four known ones, and those that end in "-agent" |
| Lifecycle.GateOpensExactly | services/approval-service/app.py:451-461 | after every run a decision is accepted exactly when a person makes it or the last thing remembered of the incident, by the steps of the run, is not a high or critical event |
| Lifecycle.NonHumanPassesExactly | services/approval-service/app.py:451-461 | after the last event of a high or critical incident a non-human decision passes exactly when a later step of the run decides for the incident or restarts the service |
| Lifecycle.GateOpensAfterRejection | services/approval-service/app.py:296-299 | a run in which a system's approval of a critical incident is refused, and passes once a person has rejected it |
| Lifecycle.GateOpensAfterRestart | services/approval-service/app.py:27 | a run in which a system's approval of a critical incident is refused, and passes once the service has restarted |
| Lifecycle.RemediationService.Execute | services/remediation-engine/app.py:229-249 | a rejection or an action that is not allowed is skipped; otherwise the plugin decides |
| Lifecycle.RemediationService.HandleApproval | services/remediation-engine/app.py:172-179 | builds the one action the approval leads to; it is stored unless storing raises, and sent unless either raises |
| Lifecycle.RemediationService.HandleResolution | services/remediation-engine/app.py:181-206 | nothing happens unless the fields require no approval; then an event that breaks the policy is blocked and one that meets it is acted on, stored unless storing raises and sent unless either raises |
| Lifecycle.ApprovalService.Receive | services/approval-service/app.py:49-51 | takes the machine's step for a received event, or raises exactly when that step is impossible |
| Lifecycle.ApprovalService.StoreAndPublish | services/approval-service/app.py:296-299 | takes the machine's step for a decision: a refused one leaves no trace, an accepted one replaces what was remembered even when publishing raises |
| Lifecycle.ClosureService.Handle | services/closure-service/closure_service/validation.py:21-46 | the incident is closed exactly when the action succeeded |
| PendingWorkflow.NextKeepsAccounted | services/monitoring-adapter/app.py:1925-2232 | every save and every call keeps the account of remediations run |
| PendingWorkflow.ExecutionsAreAccounted | services/monitoring-adapter/app.py:2044-2080 | since the last save, the remediations run are the interrupted calls plus the one of the call that finished |
| PendingWorkflow.AtMostOneExecution | services/monitoring-adapter/app.py:2041-2080 | at most one remediation since an incident's last save when no call for it since then raised after running one |
| PendingWorkflow.InterruptedRunsAgain | services/monitoring-adapter/app.py:2064-2232 | the hypothesis is needed: an interrupted call runs it again |
| PendingWorkflow.FinishedStays | services/monitoring-adapter/app.py:1927-1931 | once finished and until saved again, every call returns the stored payload and runs nothing |
| PendingWorkflow.TokenDecides | services/monitoring-adapter/app.py:1941-2080 | a call to a waiting workflow does what the text of its token says: "reject" never runs the remediation, "approve" and "modify" run it unless something raises before, anything else is a bad request that changes nothing |
| PendingWorkflow.ReturnedIsStored | services/monitoring-adapter/app.py:2232-2233 | a call that answers has stored its answer; one that found the workflow waiting stores the decision its token names |
| PendingWorkflow.WorkflowService.SavePendingWorkflow | services/common/common/repository.py:1012-1053 | a save starts afresh, whatever was stored |
| PendingWorkflow.WorkflowService.MarkCompleted | services/common/common/repository.py:1076-1089 | completes the row that is there; does nothing without one |
| PendingWorkflow.WorkflowService.ContinuePendingWorkflow | services/monitoring-adapter/app.py:1925-1956 | the checks in order, then what the token says, then the stored result |
| ToolBreaker.CallKeepsInv | services/common/common/resilience.py:45-61 | every call keeps the account of failures, restarts and times |
| ToolBreaker.FailuresAreBounded | services/common/common/resilience.py:38-61 | in every run of calls, since the last success, the handler failed at most threshold times (elapsed time over recovery time, rounded down, plus one) times |
| ToolBreaker.RefusedExactly | services/common/common/resilience.py:45-61 | after every run, exactly when a call is refused: the failures since the last success fill one threshold more than the breaker has started afresh, and the last is less than the recovery time ago; so a breaker always recovers |
| ToolBreaker.CircuitBreaker.Allow | services/common/common/resilience.py:45-52 | an open breaker that has waited long enough starts afresh |
| ToolBreaker.CircuitBreaker.RecordSuccess | services/common/common/resilience.py:54-56 | a success closes the breaker and forgets its failures |
| ToolBreaker.CircuitBreaker.RecordFailure | services/common/common/resilience.py:58-61 | counts, and opens the breaker from the threshold on |
| ToolBreaker.CircuitBreaker.Note | services/common/common/tool_registry.py:34-41 | a call that has updated the breaker extends its run of calls, and the failures stay bounded |
| ToolBreaker.ToolRegistry.Register | services/common/common/tool_registry.py:25-26 | the other tools stay, and no breaker changes or forgets a call, not even that of the tool replaced |
| ToolBreaker.ToolRegistry.Execute | services/common/common/tool_registry.py:28-42 | unknown tools and rejected roles never reach the breaker; any other call takes it one call on in the run that the bound is about; no handler runs while it is open and has not recovered |
| FinOps.RoundIsNear | services/monitoring-adapter/app.py:2253 | rounding moves a number by half a unit at most, to a whole number of units, and such a number not at all |
| FinOps.TiesGoToEven | services/monitoring-adapter/app.py:2253 | halfway between two units the even one is taken |
| FinOps.SumsAdd | services/monitoring-adapter/app.py:2238-2241 | the totals are sums over the calls, each call once |
| FinOps.CountsAddUp | services/monitoring-adapter/app.py:2245-2252 | calls and tokens per provider add up exactly to the totals |
| FinOps.CostsAddUp | services/monitoring-adapter/app.py:2253 | costs rounded after every addition stay within half a unit per call of the exact total |
| FinOps.CostsAgree | services/monitoring-adapter/app.py:2241-2253 | they sum to within (n + 1) half units of the once-rounded total, and exactly when every cost is a whole number of units |
| FinOps.RowsAreRight | services/monitoring-adapter/app.py:2246-2253 | one row per provider called, with its own calls and tokens and its cost within half a unit per call |
| FinOps.BuildFinopsSummary | services/monitoring-adapter/app.py:2236-2261 | the loop builds that summary, whose parts agree with its totals |
| FinOps.AddCall | services/monitoring-adapter/app.py:2246-2253 | a call goes into its provider's row, made if it is not there |

## Left out

- Broker clients: connection set-up, prefetch limits and startup retries are one "connection drops" step; Kafka rebalancing and records that fail to deserialise are not modelled.
- KafkaConsumer.Consumer.Receive: takes the record as read; waiting for a record is not modelled.
- Back-off delays between handler calls; only the order of clock readings matters.
- Text: case mapping and digits are ASCII only, and "\r\n" has already become "\n" when a file is read as text.
- EventMerge.MergeEvents: works on values, as does the copy's `MergedEvent`; what filling the best event in place leaves of the input is the function `EventMutation.LeftBy`, and one dictionary shared by several events is not modelled.
- Details of events that their writers only copy (identifiers, confidence, model names) and the extraction of recommendation and flow from a payload, which is a field of the modelled payload.
- Tables of the database are maps keyed by id; sessions, transactions and schema are not modelled, nor is the first half of an event saved without its projection.
- Remediation plugins and the engine behind them: the action they build and its result are parameters.
- PendingWorkflow.WorkflowService.ContinuePendingWorkflow: the final payload keeps the decision, whether a remediation ran, and an opaque rest; the in-memory fallback and concurrent calls are not modelled.
- ToolBreaker.ToolRegistry.Execute: sequential calls only; a cancelled call is not modelled, a timeout is a failure of the handler.
- FinOps.BuildFinopsSummary: costs are reals, so the rounding of binary floating point is not modelled; the lists of calls and errors that are passed through are not repeated in the result.
- Allocator.ApprovalService.AutoAssign: hours are reals; creation times and the reason text of an assignment are left out.
- CorpusValidator.CompletedIsValidExactly: the case that a part of the file's name holds a line break and has to stand in a header is left to `BreakInNameIsInvalid` and `BreakInNameNeedsThree`, here and in `TwoPassesSettle`, `OnePassSufficesExactly` and `PassesKeepValidity`.
- Several instances of one service side by side, each with a memory of its own; a restart is modelled.
- IncidentFields.EnsureIncidentsComplete: the order of its records, and the completion of runbooks and procedures, which repeats the same steps with other keys.
- The agent runtime's attempt loop, `retry_async`, the hashing embedding, message-bus activity rows, alert correlation, user interfaces, HTTP wiring, telemetry and settings.
