# pg_ros2 in Dafny

A model of the two cores of pg_ros2, a PostgreSQL extension around ROS 2, with proofs about them:

1. **The JSON form of schema-typed ROS messages.** A bounded printer (`Encoding`) and a schema-directed
   decoder (`Decoding`), a JSON parser in between (`Json`), and the theorems that tie them together
   (`Lexemes`, `Inversion`, `Nesting`, `RoundTrip`, `Acceptance`).
2. **The worker over its tables.** The observer's snapshot caches (`SnapshotCache`, `GraphSnapshots`,
   `SessionLoop`), its rebuild decision and backoff (`Observer`), the concurrent parameter poll
   (`ParameterPoll`, `PollRuns`), the table-backed subscriptions with their last-value cache (`Mailboxes`,
   `TopicRuns`, `Subscriptions`), and the bounded notification queue of `CALL subscribe` (`NotifyQueue`).

`dafny verify dfyconfig.toml` checks the whole project.

## How it is modelled

- A text is its UTF-8 encoding, one `char` per byte, because the printer's limit counts bytes.
- The roughly twenty variants per container of the runtime message types are collapsed into element kinds
  (integers by sign and width, float, boolean, string with an optional bound, message, long double); the four
  container forms stay. A finite float is the decimal token it displays as.
- Code that works in place is imperative here too: `Encoding.Output`, `Decoding.DynamicMessage`,
  `ParameterPoll.Poll`, `GraphSnapshots.Extension`, `SessionLoop.Worker`, `Subscriptions.Registry`,
  `Subscriptions.Tables` and `NotifyQueue.Receiver` are classes whose methods are proved against functions,
  and the theorems are about those functions.
- A database transaction is one atomic method. Other sessions may change the database between any two of them:
  dropping and creating the extension, editing the subscriptions table, deleting messages. A crash loses the
  worker's memory and nothing else.
- Time is milliseconds on a clock that the methods are handed. What a peer answers, and when, is an
  environment parameter (`ParameterPoll.Network`), as are the ROS graph and the loadable message types.
- How deep the JSON parser of the table-backed path descends is a parameter, `depth`, of everything that
  parses: serde_json has such a limit of its own and is not part of this model. What holds for any depth is
  stated for any depth, with the condition that messages need for the rest.

## Main results

- Encoding a message and parsing and decoding the payload gives the message back, over whatever the target
  held, with each non-finite float as NaN (`RoundTrip.PayloadRoundTrip`); decoding succeeds exactly when the
  JSON is part of the tree of some message of the type (`Acceptance.AcceptedExactly`) and is then the recursive
  overlay (`Decoding.DynamicMessage.Decode`).
- `payload` succeeds exactly when the unbounded text fits, no long double is reached and messages nest at most
  64 deep, and returns that text (`Encoding.Payload`). Every payload is one JSON text whatever follows it
  (`Inversion.PayloadParses`), so payloads are injective (`Nesting.PayloadInjective`). Their brackets nest at
  most 131 deep, which is reached (`Nesting.AcceptedPayloadsParse`, `Nesting.DeepPayload`).
- Skipping writes is invisible in every run without a blinding read (`SnapshotCache.SkippingIsInvisible`), and
  a skipped write is wrong exactly after one (`SnapshotCache.SkipIsWrongExactlyWhenBlinded`).
- A session rebuilds exactly when it is first blind, and blindness is a lasting stretch of successful empty
  reads (`Observer.EndsWhenFirstBlind`, `Observer.BlindExactly`); the backoff has a closed form
  (`Observer.BackoffClosedForm`).
- A parameter poll has one row for each peer and listed name (`PollRuns.FinishedRows`), its result does not
  depend on timing, its rows fit the primary key, it ends within nine
  seconds, and it finishes exactly when every stage has a turn in time with all answers there
  (`PollRuns.ResultIgnoresTiming`, `PollRuns.PolledRowsFit`, `PollRuns.PollEnds`, `PollRuns.AnsweredInTime`).
- Coalescing messages refines storing each of them, for every interleaving of callbacks and flushes of a
  subscription's life (`Mailboxes.LifeRefinesWriteThrough`), with the exact condition for a parser of any depth
  (`Mailboxes.LifeExactly`, `Mailboxes.DeepPayloadHidesOlder`); no message of an earlier life is shown within a
  session (`TopicRuns.NoStaleMessage`, `TopicRuns.NoEarlierLife`).
- Every message that arrives at `CALL subscribe` is notified, counted or queued, and notifications are
  committed whole batches at a time, in order, distinct and never folded (`NotifyQueue.Receiver.Drain`,
  `NotifyQueue.CommittedInOrder`).

## Where the code and its documentation differ

The code is followed, and each difference is stated exactly.

- "An unchanged graph is not written again" (the repository's README.md, lines 56-58): a failed read that is
  the first to see a recreated extension while a snapshot is held marks that extension as seen
  (`src/lib.rs:579`, and `src/lib.rs:504` and `src/lib.rs:558` for parameters), so the next identical snapshot
  leaves the new, empty tables empty. `SnapshotCache.BlindedRun` is such a run, of graph reads and of polls.
- "Deleting a row stops its subscription and deletes its cached message" (the same file, lines 280-281): only
  when the topic was live at that reconcile. `TopicRuns.RowSurvivesExactly` is the condition and
  `TopicRuns.RestartLeavesStale` a run in which a later registration shows the old message.
- "The interval doubles after each rebuild ... up to ten minutes" (lines 54-56): the first blind rebuild under
  a setting above ten minutes falls to ten minutes instead. No other blind rebuild shortens the interval
  (`Observer.BackoffShrinksExactly`, with `Observer.BackoffShrinks` at 601 seconds); a session that saw a peer
  sets it back to the setting, as documented.
- "Re-reads the setting so turning rebuilding off takes effect without a server restart"
  (`src/lib.rs:344-345`): the setting is read only after a rebuild. Settings read during a backoff have no
  effect unless they are zero (`Observer.BackoffClosedForm`), and a zero that has been read disables rebuilding
  until the worker restarts (`Observer.DisabledForGood`).
- `last_error` is not in order: within one flush an error is applied after a newer message
  (`Mailboxes.ErrorsInOrderExactly`, and `Mailboxes.OlderErrorStands` for such a window).

## Model

| member | source | states |
|---|---|---|
| Encoding.Output.Push | src/subscriptions/json.rs:41-47 | appends the value exactly when it fits the limit, and otherwise changes nothing |
| Encoding.Output.Display | src/subscriptions/json.rs:19-27 | text displayed in pieces of any size is appended whole exactly when it fits; otherwise what was written is a prefix of it, within the limit |
| Encoding.Output.String | src/subscriptions/json.rs:49-53 | appends the escaped string exactly when that fits: the scratch writer refuses nothing that would fit |
| Encoding.EscapeGrows | src/subscriptions/json.rs:49-53 | escaping never shortens a string, which is why the scratch check is harmless |
| Encoding.Output.Message | src/subscriptions/json.rs:59-73 | writes the object of the unbounded encoding exactly when it fits, the message may be written at this level, and so may everything below |
| Encoding.Output.Array | src/subscriptions/json.rs:75-88 | writes the bracketed, comma-separated elements exactly when they fit and may be written |
| Encoding.Output.Value | src/subscriptions/json.rs:90-269 | writes one field's value in any container form; long doubles are refused, even in an empty container |
| Encoding.Output.Element | src/subscriptions/json.rs:92-125 | writes one element: non-finite floats as `null`, strings escaped, messages at their own level |
| Encoding.AllowedIsNesting | src/subscriptions/json.rs:59-73 | the writer's checks, made level by level, amount to: no long double is reached and messages nest at most 64 below the root |
| Encoding.PlainExactly | src/subscriptions/json.rs:124-266 | a message is accepted as far as long doubles go exactly when no field holds one at any level, not even in an empty container |
| Encoding.Payload | src/subscriptions/json.rs:272-290 | returns a payload exactly when no long double is held, nesting is at most 64 and the unbounded encoding fits the limit, and it is then that encoding |
| Encoding.MessageJoins | src/subscriptions/json.rs:59-73 | the unbounded encoding of a message is its fields in order, quoted name, colon and value, with commas between, in braces |
| Encoding.ArrayJoins | src/subscriptions/json.rs:75-88 | that of a container is its elements in order with commas between, in brackets |
| Encoding.PayloadJoins | src/subscriptions/json.rs:279-289 | the envelope, byte for byte |
| Encoding.ScalarsExactly | src/subscriptions/json.rs:93-122 | that of a scalar: digits, the float's token or `null`, a word, or a quoted string |
| Encoding.QuoteExample | src/subscriptions/json.rs:49-53 | strings with a line feed, a quotation mark, a backslash and a control character, as section 7 of RFC 8259 has them |
| Lexemes.StringInverts | src/subscriptions/json.rs:49-53 | the parser reads an escaped string back, whatever follows it, with escapes as in section 7 of RFC 8259 |
| Lexemes.DecimalInverts | src/publish/json.rs:454-464 | an integer that i64 or u64 holds reads back from its decimal digits as itself |
| Inversion.ElemParses | src/subscriptions/json.rs:90-125 | one element's text parses to its JSON tree before any suffix that cannot continue it, or is too deep for the parser |
| Inversion.SlotParses | src/subscriptions/json.rs:75-269 | a field's text parses to the tree of its value before any such suffix |
| Inversion.MessageParses | src/subscriptions/json.rs:59-73 | a message's text parses to the object of its fields before any suffix, exactly when the parser goes deep enough |
| Inversion.PayloadParses | src/subscriptions/json.rs:272-290 | a payload followed by any suffix parses to exactly its topic, type, sequence and message tree, or is too deep for the parser |
| Nesting.PayloadInjective | src/subscriptions/json.rs:272-290 | equal payloads have equal topic, type, sequence number and message tree |
| Nesting.MessageWithin | src/subscriptions/json.rs:59-88 | a message nests two brackets for each level of messages below it and two of its own |
| Nesting.AcceptedPayloadsParse | src/subscriptions/json.rs:272-290 | a parser that goes 131 levels deep reads every accepted payload |
| Nesting.DeepPayload | src/subscriptions/json.rs:59-88 | the bound of 131 is reached by a payload that even a notification may carry, and every shallower parser refuses it |
| Decoding.IntegerOf | src/publish/json.rs:463-463 | an accepted integer is in the range of the element's type |
| Lexemes.IntegersExactly | src/publish/json.rs:458-462 | the numbers read as integers are exactly those displayed as integers that i64 or u64 holds: no fraction, no exponent, not `-0` |
| RoundTrip.IntegersAccepted | src/publish/json.rs:454-464 | an integer element accepts exactly the decimal texts of the integers in its range, as those integers |
| Decoding.MessageView | src/publish/json.rs:16-46 | succeeds exactly when the value is an object whose members all name fields and fit them; the result is then the overlay, and absent fields keep what they held; the message stays well-typed even on failure |
| Decoding.ValueMut | src/publish/json.rs:48-55 | the same for one field in any container form |
| Decoding.Simple | src/publish/json.rs:57-85 | the same for one element: JSON kinds, integer ranges, string bounds, `null` as NaN |
| Decoding.ArrayMut | src/publish/json.rs:87-115 | a fixed array takes exactly as many items as it has elements, each laid over the old element |
| Decoding.SequenceMut | src/publish/json.rs:117-175 | an unbounded sequence is refilled from defaults; a bad item leaves the old one, except for messages and bounded strings |
| Decoding.BoundedSequenceMut | src/publish/json.rs:177-322 | a bounded sequence is refilled from defaults when the items respect its bound, and untouched when they are too many |
| Decoding.Fill | src/publish/json.rs:324-436 | items are laid over elements one for one, and all of them fit exactly when the loop succeeds |
| Decoding.DynamicMessage.Decode | src/publish/json.rs:16-30 | decoding a message in place succeeds exactly when the JSON fits its type, never with a key that names no field at any level, and is then the recursive overlay on what it held, absent fields unchanged |
| Decoding.StrayDoesNotFit | src/publish/json.rs:20-40 | a key that names no field, at whatever level, makes the object unfit |
| Decoding.BuildMessage | src/publish.rs:189-193 | a new message is the overlay on its type's defaults, which absent fields keep; a partly decoded one is discarded, and a key that names no field at any level refuses the whole |
| Acceptance.AcceptedExactly | src/publish/json.rs:16-322 | a type accepts exactly the objects that are part of the JSON tree of some message of that type and leave its long doubles alone |
| Acceptance.MembersHold | src/publish/json.rs:16-46 | whatever the target held, what the JSON says is part of the tree of the message that it decodes to |
| Acceptance.MembersFit | src/publish/json.rs:16-46 | every part of a message's tree that leaves long doubles alone fits |
| Acceptance.ContainersExactly | src/publish/json.rs:87-322 | each message of a fixed array is laid over the one before; a sequence forgets what it held, and each of its messages is laid over a new one |
| Acceptance.NestedExactly | src/publish/json.rs:57-85 | a nested message keeps what the JSON does not mention of it |
| Acceptance.LengthsExactly | src/publish/json.rs:438-446 | a fixed array fits with exactly its length, a bounded sequence with at most its bound, an unbounded one with any |
| Acceptance.RangesExactly | src/publish/json.rs:454-464 | the integers of a type are all that its bits represent, in two's complement when it is signed |
| Acceptance.StringsExactly | src/publish/json.rs:370-396 | a bounded string fits with at most as many bytes, or UTF-16 code units if wide, as its bound |
| Acceptance.UnitsOfCodePoint | src/publish/json.rs:384-396 | a code point below 0x10000 is one UTF-16 code unit and any other two |
| RoundTrip.ElemRoundTrip | src/publish/json.rs:57-85 | one element's tree fits its type and decodes, over any target, to the element with non-finite floats as NaN |
| RoundTrip.SlotRoundTrip | src/publish/json.rs:87-322 | the same for every container form, whatever the target held |
| RoundTrip.MessageRoundTrip | src/publish/json.rs:16-46 | the same for whole messages at every level of nesting |
| RoundTrip.PayloadRoundTrip | src/publish/json.rs:1-6 | the decoder inverts the subscription encoder: parsing an accepted payload and decoding its message into any target yields the original, with non-finite floats as NaN |
| RoundTrip.Reencodes | src/publish/json.rs:466-477 | the message that comes back prints as the same text |
| RoundTrip.MessageTwice | src/publish/json.rs:32-46 | decoding the same object a second time changes nothing |
| Ordering.SortSorts | src/lib.rs:250-251 | sorting yields the same elements in order |
| Ordering.SortedUnique | src/lib.rs:236-253 | a sorted sequence is determined by its elements and their number |
| Ordering.DedupIncreases | src/parameters.rs:71-73 | removing consecutive duplicates of a sorted sequence keeps every element once, strictly increasing |
| Ordering.TextLeqExactly | src/lib.rs:250-251 | texts are ordered by the first byte in which they differ, a prefix first |
| SnapshotCache.RunKeepsInv | src/lib.rs:491-580 | in every reachable state the tables hold the held snapshot of the extension last seen, or are empty after a blinding read, and an extension not seen yet has empty tables |
| SnapshotCache.SkippingIsInvisible | src/lib.rs:615-651 | over every run with drops, creates, crashes and failed reads, but no blinding one, the tables and the error are those of a worker that writes every successful read |
| SnapshotCache.SkipIsWrongExactlyWhenBlinded | src/lib.rs:579-579 | a successful read leaves wrong tables exactly when a blinding read came before, nothing was written or forgotten since, and the snapshot is the non-empty one held all along |
| SnapshotCache.BlindedRun | src/lib.rs:495-579 | a run of six events that needs the condition, with graph reads as well as with poll ends: a good read leaves a recreated extension's tables empty |
| GraphSnapshots.OthersCount | src/lib.rs:239-244 | the observer itself is left out of the nodes, and every other node stays as often as it was reported |
| GraphSnapshots.FlattenPermutes | src/lib.rs:245-249 | the order in which topics are listed does not change the topic rows |
| GraphSnapshots.ReadExactly | src/lib.rs:236-253 | a snapshot holds every other node as often as it was reported, and each topic's types under its name as often as they were, both sorted |
| GraphSnapshots.SnapshotsEqualExactly | src/lib.rs:236-253 | two snapshots are equal exactly when the same other nodes and topic types were reported, each equally often |
| GraphSnapshots.Extension.PersistSnapshot | src/lib.rs:615-651 | a changed snapshot replaces both graph tables, an unchanged or failed one leaves them, and the error is recorded or cleared; this is the cache's transaction, and the parameter tables stay |
| GraphSnapshots.Extension.PersistParameters | src/parameters.rs:200-228 | the same for parameters; inserting a finished poll's rows never violates the primary key |
| SessionLoop.Worker.BeginSession | src/lib.rs:439-452 | a new session starts unblinded and without a poll, and keeps both caches |
| SessionLoop.Worker.TickPoll | src/lib.rs:491-514 | a turn of the running poll: it goes on, or its rows, which always fit the primary key, are one step of the parameter cache, or its error is; the graph cache and the rebuild state stay |
| SessionLoop.FinishedRowsFit | src/lib.rs:60-68 | whatever turns a poll has had, the rows it finishes with have strictly increasing keys |
| SessionLoop.Worker.FinishPoll | src/lib.rs:494-512 | the end of a poll is one step of the parameter cache, failed or not: the extension seen is noted either way, the rows are kept when there are any, and the next poll is five seconds off |
| SessionLoop.Worker.Observe | src/lib.rs:518-586 | a look at the graph is one step of the graph cache and of the rebuild state: the extension seen is noted even after a failed read, the snapshot is kept after a good one, and without the extension both caches are forgotten |
| SessionLoop.Worker.BeginPoll | src/lib.rs:548-562 | a poll starts when none runs and the pause is over, of exactly the nodes of the snapshot just kept that offer their parameters; a failed lookup is persisted as a failed poll |
| SessionLoop.Worker.LookAround | src/lib.rs:518-586 | the whole look, with no other session in between: persist, watch, begin a poll of the nodes just read, and decide |
| Observer.EmptySinceBeginsStretch | src/lib.rs:533-547 | the time kept is that of the first observation of the current stretch of empty ones |
| Observer.SawGraphExactly | src/lib.rs:540-543 | a session has seen the graph exactly when an installed observation in it was not empty |
| Observer.BlindExactly | src/lib.rs:581-586 | a session is blind exactly when rebuilding is enabled and a stretch of installed, successful, empty observations up to now has lasted for the threshold |
| Observer.RunSession | src/lib.rs:453-588 | the loop ends as the fold over the observations says |
| Observer.EndsWhenFirstBlind | src/lib.rs:515-586 | a session ends at the first observation that leaves it blind and at no other, with what it saw until then |
| Observer.RebuildsOnlyWhenBlind | src/lib.rs:444-449 | a rebuild follows a stretch of nothing but empty observations as long as the threshold, and reports a graph exactly when one was seen |
| Observer.DisabledNeverRebuilds | src/lib.rs:583-586 | without a threshold no session ends in a rebuild |
| Observer.BackoffClosedForm | src/lib.rs:346-355 | after k blind rebuilds the interval is the setting read when the backoff last started over, or that doubled k times and at most ten minutes when k is positive, whatever positive settings are read in between |
| Observer.BackoffConstant | src/lib.rs:346-355 | the closed form for an unchanging setting, over every sequence of session outcomes |
| Observer.BackoffShrinksExactly | src/lib.rs:351-352 | another blind rebuild shortens the interval exactly when it is the first one under a setting above ten minutes, and then to ten minutes |
| Observer.BackoffShrinks | src/lib.rs:351-352 | with a setting of 601 seconds the first blind rebuild shortens the interval to 600 seconds |
| Observer.BackoffFromDefault | src/lib.rs:346-355 | the intervals under the default setting: 30, 60, 120, 240, 480 and then 600 seconds, and 30 again once a peer was seen |
| Observer.RunObserver | src/lib.rs:368-391 | sessions follow each other while they end in rebuilds, each with the threshold the earlier rebuilds lead to |
| Observer.DisabledForGood | src/lib.rs:342-347 | a session runs without a threshold exactly when the setting read last before it was zero, and then never ends in a rebuild |
| ParameterPoll.TryRecv | src/parameters.rs:60-65 | an arrived response is received once; asking again after that is ruled out |
| ParameterPoll.Collect | src/parameters.rs:60-67 | every missing result is asked for; results stay aligned with their promises, an arrived failure fails the stage, and the answer tells whether all are in |
| ParameterPoll.Poll.Advance | src/parameters.rs:105-198 | one tick, stage by stage: nothing yet, the finished rows, or an error, with lists aligned and no result taken twice |
| PollRuns.NamesExactly | src/parameters.rs:142-160 | every listed name is asked for, and no other |
| PollRuns.CompleteExactly | src/parameters.rs:173-194 | an answer is complete exactly when it has one known value for each different name listed |
| PollRuns.FinishedRows | src/parameters.rs:142-194 | a finished poll has exactly one row for each peer and each name that it listed, with the value returned in that name's place, and no other row |
| PollRuns.ServicesExactly | src/parameters.rs:116-122 | the services are ready exactly when every peer's are; otherwise the first peer's that are not decide |
| PollRuns.FailsExactly | src/parameters.rs:105-194 | exactly which ticks end the poll with an error, stage by stage |
| ParameterPoll.Assemble | src/parameters.rs:173-194 | rows come out exactly when every peer gave one known value for each name, and are the peers' names zipped with their values |
| PollRuns.RunReturnsAnswers | src/parameters.rs:169-195 | a finished poll returned the answers of all its peers in their order |
| PollRuns.ResultIgnoresTiming | src/parameters.rs:105-198 | polls of the same peers with the same answers return the same rows, for every order and delay of responses and every schedule of ticks |
| PollRuns.EveryPeerAnswered | src/parameters.rs:138-175 | nothing is returned unless both answers of every peer had arrived |
| PollRuns.AnsweredInTime | src/parameters.rs:105-198 | a poll finishes, over every schedule of turns, exactly when every peer accepts and answers both calls and each stage has a turn before its deadline with everything there |
| PollRuns.TickAdvances | src/parameters.rs:98-167 | a tick keeps stage and deadline or moves one stage on with a new deadline |
| PollRuns.PollEnds | src/parameters.rs:98-112 | any tick nine seconds after the start, plus what two stage changes may take, has ended the poll |
| PollRuns.NamesIncrease | src/parameters.rs:146-147 | names are asked for in sorted order and once each |
| PollRuns.RowsIncrease | src/parameters.rs:173-194 | the rows are strictly increasing in node, namespace and name |
| PollRuns.PolledRowsFit | src/lib.rs:60-68 | however a poll went, if it finished then its rows have different primary keys |
| PollRuns.StartPoll | src/parameters.rs:70-103 | the clients are the peers that offer the list service, each once and in order; an error of any lookup fails the start |
| Mailboxes.Receive | src/messages.rs:208-223 | the callback takes the next sequence number; within the subscription's own limit the payload becomes the pending one, otherwise the error is replaced, and never both |
| Mailboxes.MailboxKeepsNewest | src/messages.rs:208-223 | after any window of messages the mailbox holds its newest payload and its newest error |
| Mailboxes.PayloadReads | src/messages.rs:263-268 | a payload parses exactly when its message nests within the parser's reach, and then to the message's own tree in its envelope |
| Mailboxes.EncodedIsReadable | src/messages.rs:263-268 | a parser that goes 131 levels deep reads every message that has a payload |
| Mailboxes.CoalescingExactly | src/messages.rs:256-295 | a flush leaves the row that storing every message of the window would, when the newest message with a payload is readable or none is, and otherwise a different one, unless the table is ahead of the mailbox |
| Mailboxes.LifeExactly | src/messages.rs:208-295 | over a whole life and to a parser of any depth, the row after a flush is the one that storing every message at once would leave when the last window with something to store ended on a readable payload, and, unless the table was ahead to begin with, only then |
| Mailboxes.LifeAdvances | src/messages.rs:212-220 | over a life the sequence counts every message, with a payload or without, and no stored row is ahead of it |
| Mailboxes.LifeRefinesWriteThrough | src/messages.rs:208-295 | for every interleaving of callbacks and flushes, of messages with a payload or without, the row after a flush is the one that storing every message at once would leave |
| Mailboxes.DeepPayloadHidesOlder | src/messages.rs:263-268 | with a shallower parser a deep payload can take the place of one that would have been stored |
| TopicRuns.FlushExactly | src/messages.rs:256-313 | the whole effect of a flush on a topic's rows: message, `last_error` and emptied mailbox, case by case |
| TopicRuns.FlushReports | src/messages.rs:269-311 | what a window leaves in a registration's `last_error`: its newest encoding error; without any, the parser's complaint or none by the newest message; and what it was without a message |
| Mailboxes.ErrorsAreVisible | src/messages.rs:269-271 | any encoding error of a window is what the flush reports, the newest one |
| Mailboxes.ErrorsInOrderExactly | src/messages.rs:280-311 | `last_error` is what storing the messages in order would leave exactly when none lacked a payload, or the last one did, or the last one's payload does not parse and the two errors read the same |
| Mailboxes.OlderErrorStands | src/messages.rs:280-311 | a window whose flush stores its newer message and leaves the older one's error standing |
| TopicRuns.Converges | src/messages.rs:49-144 | a reconcile without interference keeps exactly the unexpired registrations, makes each live or failing, keeps surviving mailboxes, records the type or the error of an attempt, drops the message of a topic that stopped being live, and settles |
| TopicRuns.RowSurvivesExactly | src/messages.rs:86-95 | a reconcile removes exactly the cached messages of expired registrations and of removed ones whose topic was live |
| TopicRuns.KeptExactly | src/messages.rs:51-60 | with a limit of zero no registration expires; otherwise exactly those do that are older than the limit, and a kept one keeps its message and its subscription |
| TopicRuns.CommitOnlyUpdates | src/messages.rs:96-142 | whatever happened since the read, a commit registers nothing, deletes exactly what was planned, and writes nothing while the extension is gone |
| TopicRuns.RunKeepsInv | src/messages.rs:49-313 | over every run a pending payload is the newest encoded message of the current life unless that one is too deep for the parser, and a message cached in this session is from that life or about to be removed |
| TopicRuns.NoStaleMessage | src/messages.rs:86-95 | over every run, between reconciles a message that was not there at the session's start is from the live subscription, and with nothing pending is the newest with a payload, unless that one is too deep for the parser; to a parser 131 levels deep none is |
| TopicRuns.FlushShowsNewest | src/messages.rs:256-313 | a flush with something pending stores the newest encoded message of this life |
| TopicRuns.NoEarlierLife | src/messages.rs:86-95 | in a session without restarts, no message of the first lives is shown once they are over |
| TopicRuns.UnregisteredEndsLife | src/messages.rs:49-144 | a reconcile that finds the topic unregistered ends those lives, whatever other sessions do between its two transactions and however the topic is registered then or later |
| TopicRuns.RestartLeavesStale | src/lib.rs:404-407 | a run in which a registration deleted around a restart leaves its message, and a new registration shows it |
| Subscriptions.Subscribe | src/messages.rs:186-253 | a subscription is made exactly when the requested type, or the only advertised one, can be loaded; it has that type, the limit of the moment and an empty mailbox |
| Subscriptions.Tables.ReadDesired | src/messages.rs:147-184 | every row of the table is read once |
| Subscriptions.Registry.FollowOne | src/messages.rs:55-85 | one row: an expired subscription is dropped, a live one kept, another one tried, and the right item is noted |
| Subscriptions.Registry.Retain | src/messages.rs:86-95 | exactly the live topics that are not wanted are dropped and noted |
| Subscriptions.Registry.Follow | src/messages.rs:49-98 | the first half of a reconcile takes every topic, listed or not, through its read step, and the lists say exactly what to write |
| Subscriptions.Tables.WriteBack | src/messages.rs:96-142 | the second half takes every topic through its commit step, even if the tables have changed in between |
| Subscriptions.Registry.ReconcileTopics | src/messages.rs:42-144 | a failed read changes nothing; otherwise, with no other session in between, every topic is read and committed |
| Subscriptions.Registry.Reconcile | src/messages.rs:42-144 | the same in the tables' terms: which registrations, subscriptions and messages are there afterwards, with a limit of zero expiring nothing, and what a new subscription is made with |
| Subscriptions.Registry.Clear | src/lib.rs:404-407 | a new session drops every live subscription and leaves registrations and cached messages alone |
| Subscriptions.Registry.Callback | src/messages.rs:208-223 | a message changes its own topic's mailbox and nothing else |
| Subscriptions.Registry.TakeAll | src/messages.rs:256-272 | every mailbox is emptied, and the lists hold what was in each |
| Subscriptions.Tables.Store | src/messages.rs:276-312 | messages are upserted first and errors set after them, or nothing when the extension is gone |
| Subscriptions.Registry.FlushTopics | src/messages.rs:255-313 | a flush takes every topic through its flush step, in whatever order the map yields them |
| Subscriptions.Registry.Flush | src/messages.rs:255-313 | the same in the tables' terms: every message that parses is stored, every error is written, and nothing else changes |
| NotifyQueue.Receiver.Callback | src/subscriptions.rs:108-119 | a message is queued under its sequence number, with its payload if it has one of at most 7999 bytes, or counted as dropped when 256 are waiting, and all accounts still balance |
| NotifyQueue.Receiver.TakeBatch | src/subscriptions.rs:137-150 | a batch is the whole queue, its payloads in order and its errors counted |
| NotifyQueue.Receiver.Drain | src/subscriptions.rs:137-157 | a batch is committed whole, and then the queue is empty, or after a cancellation at any point not at all |
| NotifyQueue.Receiver.Report | src/subscriptions.rs:158-172 | a report states every drop since the last one and starts the counts over |
| NotifyQueue.ConsecutiveDiffer | src/subscriptions.rs:103-112 | a batch has different payloads even where the sequence numbers wrap around |
| NotifyQueue.FoldsRepeats | src/subscriptions.rs:176-188 | folding keeps each different notification of a transaction once |
| NotifyQueue.BatchFoldsNothing | src/subscriptions.rs:176-188 | so PostgreSQL, which folds equal notifications of a transaction, folds none |
| NotifyQueue.PayloadsDiffer | src/subscriptions.rs:103-119 | within 2^64 messages no payload is sent twice |
| NotifyQueue.CommittedInOrder | src/subscriptions.rs:103-156 | canceled or not, the committed notifications are the payloads of drained messages in strictly increasing order of arrival, pairwise different |

## Left out

- Float rendering and parsing: a finite float is its decimal token, so neither the rounding to f32 and f64 nor how serde_json reads a decimal back is modelled.
- Strings: valid Unicode is assumed; the bound of a wide string is taken to count UTF-16 code units.
- serde_json and rclrs themselves are not part of this model: the parser is one for RFC 8259 with a nesting limit as a parameter, and map iteration may come in any order.
- Error texts, and which error wins when several apply: success, results and the presence of an error are modelled.
- SQL texts, locks, MVCC and timestamps, except the keepalive age that a reconcile compares with the TTL.
- User edits of the messages table other than deletions, and edits of the graph and parameter tables, which the documentation does not support.
- Reuse of an extension's oid.
- Counters of drops and encoding errors and the mailbox's sequence are unbounded; the wrap-around of the notification sequence is modelled, the cast of a stored sequence to bigint is not.
- The session's waiting, spinning, logging and settings other than the rebuild interval, and the worker's exit after a failed session beyond the crash it amounts to.
- Decoding.MessageView: the message is a value that is returned and not a view into memory; `DynamicMessage` holds it in place.
- Subscriptions.Registry.Callback: mailboxes are values inside the map and not shared locks; callbacks run between the other steps, as the worker's single-threaded spin has them.
- SessionLoop.Worker.BeginPoll: runs after the new snapshot is kept, where the source starts the poll just before; the two touch different state.
- NotifyQueue.Receiver.Drain: the procedure's discovery and the time between reports are not modelled; a report is due when its caller says so.
- Publishing sessions, naming rules, settings registration, the table of parameter types and error descriptions are not modelled.
