# Verified model of the Asterisk module

This project models the parts of the Asterisk module whose correctness spans several
functions, and proves properties of the model with Dafny 4.11
(`dafny verify dfyconfig.toml`).

**Live calls** (`CallModel`, `CallViews`, `StepEffects`, `CallRegistry`, `RegistryRuns`, `Lifecycle`).
`CallRegistry.Registry` is the registry as an object: two maps, channel objects on the heap
edited in place, events published to the feed. Its methods are proved against the value-level
step of `CallModel`, whose effects on channels, lists and views `StepEffects` states one by one, and the
run theorems are about that step. The central result is an
equivalence: a client that folds the published events shows, at every moment of a run, exactly
the snapshot of that moment if and only if no live Uniqueid is ever announced under another
Linkedid and no Reset happens while a channel is live.

**The feed** (`FeedSteps`, `EventFeed`). Publishing is modelled as it is interleaved: handle
drawing, registration, the send loop under the read lock with readers draining their queues
meanwhile, and the later dropping of full subscribers. `EventFeed.Feed` is the same as an
object without interruption, and an uninterrupted publication is shown to be one of the runs.

**The stream** (`LiveStream`) puts both together with the stream handler, which snapshots first
and subscribes afterwards, and says for every call exactly when a client shows it rightly.

**AMI** (`Text`, `AmiMessage`, `AmiProtocol`, `AmiClient`, `AmiListener`, `ListenerEffects`,
`ChannelCounts`). The
two codecs, their round trips and their agreement; the list action; the routing of messages to
the registry, and a whole session of them as one run of it; what a printed message of each kind does to it; and the exporter's channel counts against the registry's snapshot.

**Call quality** (`RtpQos`, `QualityCollector`, `Watermark`). The R-factor to MOS conversion of
Annex B of ITU-T G.107 over the real numbers, the quality band, the exact counters, and the
watermark scraper over any interleaving of insertions and scrapes.

**Call classification** (`ChannelNames`, `CallSummaries`). The extension parser against the
regular expression of the direction filter, and the drilldown's fold against the list query's
aggregate expressions.

**Registrations** (`Registrations`). The point query against the set query over the event log.

`Basics` and `StableSort` hold shared pieces; `StableSort` is also the registry's insertion sort.

Where the code does not do what its comments say, or two parts that answer one question differ,
the model follows the code; the failing input and the exact condition are:

- `internal/server/calls_stream.go:59-68`: the snapshot is taken before the subscription, so
  events published in between are missed (`LiveStream.MissedCall`; exactly when:
  `LiveStream.ClientExactPerCall`).
- `internal/calls/registry.go:212-233`: re-announcing a live Uniqueid under another Linkedid leaves
  it listed under the old one as well (`CallViews.ReannouncedUnderTwo`; `CallViews.StepKeepsAgreement`).
- `internal/calls/registry.go:421-428`: Reset publishes nothing, so clients keep the calls that were
  live at a Reset (`RegistryRuns.ResetKeepsClient`; one step: `RegistryRuns.ReplicaStep`, an open
  stream afterwards: `LiveStream.ClientExactSince`, `LiveStream.ClientAfterReset`).
- `internal/data/cdr_repo.go:526-532`: the default and the internal direction filter keep calls of an
  extension to itself, which are inferred as unknown (`ChannelNames.SelfCallKept`;
  `ChannelNames.DirectionsAgree`).
- `internal/data/extension.go:5-27` accepts names without a trailing '-' or '@', and technologies
  that are not letters only, where the regular expression does not (`ChannelNames.ParserAcceptsMore`;
  `ChannelNames.AgreeExactly`).
- `internal/data/cdr_repo.go:618-631`: an event without a set time makes the pickup depend on the
  order of the events (`CallSummaries.UnsetStartLosesPickup`; `CallSummaries.PickupOrder`).
- `internal/data/pjsip_reg_repo.go:120,155`: at the very instant of expiry the point query still says
  registered and the set query does not (`Registrations.ExpiryDiffers`;
  `Registrations.QueriesAgreeWithoutTies`, with ties `Registrations.QueriesAgreeExactly`).
- `internal/exporter/ami/message.go:81-90` and `internal/ami/protocol.go:53-57`: at end of file one
  codec rejects the message read so far and the other returns it (`AmiProtocol.TruncatedDiffers`;
  `AmiProtocol.ReadersDifferExactly`).
- `internal/exporter/ami/message.go:21-31` and `internal/ami/protocol.go:26-35`: one codec finds the
  first header with a key and the other the last (`AmiProtocol.RepeatedKeyDiffers`;
  `AmiProtocol.LookupsAgreeExactly`).
- `internal/data/cdr_repo.go:342-347`: rows that arrive dated at or below the watermark, or that a full
  answer cuts off, are never observed (`Watermark.LateRowMissed`; `Watermark.CompleteExactlyWhenHarmless`).
- `internal/exporter/collector/core.go:72-94`: a row without a Uniqueid counts as a call for the
  exporter and is none in the registry (`ChannelCounts.StrayRowCounted`; `ChannelCounts.SameNumberOfCalls`).

Instants are integers, the zero instant is the source's zero time, and a clock never reads it.
Events are values because the source publishes copies of its channels; a published event is
therefore never affected by a later step, and the published sequence only grows.

## Model

| member | source | states |
|---|---|---|
| StableSort.InsertionSort | internal/calls/registry.go:445-461 | the in-place sort leaves the elements sorted, keeps for each key value the elements and their order, and equals the one sequence that does so |
| StableSort.StablySortedUnique | internal/calls/registry.go:445-461 | sorted and stable determines the result |
| StableSort.SortIsStable | internal/calls/registry.go:445-461 | the specification sort is sorted, stable and a permutation |
| CallViews.ViewMeaning | internal/calls/registry.go:53-64 | a call's channels are its members in stable creation order, it starts with the first of them and at the minimum, is updated at the maximum, and is bridged iff two distinct members share a non-empty bridge |
| CallViews.ViewExists | internal/calls/registry.go:165-194 | a call is shown iff one of the Uniqueids listed for it is live |
| CallViews.StepKeepsSound | internal/calls/registry.go:212-428 | with no assumption on Linkedids every step keeps every live channel listed once under its current Linkedid, with set times, and no list empty or repeating |
| CallViews.StepKeepsAgreement | internal/calls/registry.go:228-233 | a step keeps the two indexes in agreement iff it does not announce a live Uniqueid under another Linkedid |
| CallViews.ReannouncedUnderTwo | internal/calls/registry.go:228-233 | a concrete announcement under another Linkedid after which a Uniqueid is listed under both |
| CallViews.SnapshotPartitions | internal/calls/registry.go:147-163 | with agreeing indexes the snapshot shows each live channel exactly once, in the call of its Linkedid, and nothing else |
| StepEffects.EditWrites | internal/calls/registry.go:247-377 | an edit of a live channel writes each given value into exactly its own field, keeps that field where the value is empty or, for caller and connected line, a sentinel, dates the update now, and changes no other field, channel or list; entering a bridge writes it and leaving writes none |
| StepEffects.EditAnnounces | internal/calls/registry.go:317-337 | an edit of a live channel publishes the new view of its call |
| StepEffects.DeadIgnored | internal/calls/registry.go:317-328 | an operation on a Uniqueid that is not live changes and publishes nothing |
| StepEffects.BridgedExactly | internal/calls/registry.go:186-202 | with agreeing indexes a call is shown as bridged iff two distinct live channels of its Linkedid have one non-empty bridge |
| StepEffects.MeetInBridge | internal/calls/registry.go:351-377 | two live channels of a call that enter one bridge make the call shown and announced as bridged, whether or not the indexes agree |
| StepEffects.PartFromBridge | internal/calls/registry.go:351-377 | when a channel leaves that every shared bridge of its call needs, the call is shown and announced as not bridged |
| StepEffects.NewchannelStores | internal/calls/registry.go:212-235 | an announced channel is stored as told, dated now without a creation time and under its own Uniqueid without a Linkedid, and is listed once for its call; nothing else changes |
| StepEffects.HangupRemoves | internal/calls/registry.go:379-419 | a hangup takes exactly that channel out of both indexes; the last of a call publishes its end with that channel, any other the view of what remains |
| RegistryRuns.RunSound | internal/calls/registry.go:212-443 | the index invariant that needs no assumption holds after every run |
| RegistryRuns.AgreementExactlyWhenStable | internal/calls/registry.go:228-233 | the indexes agree after every prefix of a run iff no step of the run re-announces a live Uniqueid under another Linkedid |
| RegistryRuns.ReplicaStep | internal/calls/registry.go:215-428 | from agreeing indexes, folding the event of one step into the snapshot gives the next snapshot iff the step is safe |
| RegistryRuns.ResetKeepsClient | internal/calls/registry.go:421-428 | a concrete run with a Reset after which the client shows a call that no snapshot has |
| RegistryRuns.ReplicaFrom | internal/calls/registry.go:147-419 | a client starting from the snapshot of any moment with agreeing indexes holds the current snapshot after folding all events since, if the steps since are safe |
| RegistryRuns.ReplicaExactlyWhenSafe | internal/calls/registry.go:147-428 | folding the log from nothing gives the snapshot after every prefix of a run iff every step of the run is safe |
| Lifecycle.LifecycleOfEveryCall | internal/calls/registry.go:237-244 | in every epoch between Resets of a stable run a call's events are (started updated* ended)* with at most one open tail, open iff the call is in the snapshot |
| CallRegistry.Registry.Tally | internal/calls/registry.go:172-191 | the pass over a call's Uniqueids gathers the listed live channels in order, their earliest creation, latest update and exact bridge counts |
| CallRegistry.Registry.AnyShared | internal/calls/registry.go:196-202 | finds whether some bridge has two channels |
| CallRegistry.Registry.CallLocked | internal/calls/registry.go:165-210 | returns the view specified for the Linkedid, or none |
| CallRegistry.Registry.ApplyNewchannel | internal/calls/registry.go:212-245 | performs the specified step on both indexes and publishes exactly its event |
| CallRegistry.Registry.EditFields | internal/calls/registry.go:247-377 | the field-by-field edits of one channel object are the specified edit, empty and sentinel values changing nothing |
| CallRegistry.Registry.MutateChannel | internal/calls/registry.go:317-337 | edits one live channel in place, leaves all others alone, and publishes exactly the step's event |
| CallRegistry.Registry.RemoveString | internal/calls/registry.go:436-443 | the list without its first occurrence of the value |
| CallRegistry.Registry.ApplyHangup | internal/calls/registry.go:379-419 | performs the specified step on both indexes and publishes exactly its event |
| CallRegistry.Registry.Reset | internal/calls/registry.go:421-428 | forgets both indexes and publishes nothing |
| CallRegistry.Registry.Snapshot | internal/calls/registry.go:147-163 | the current calls, each once, sorted by start |
| EventFeed.Feed.Subscribe | internal/calls/registry.go:105-116 | a new handle with an empty open queue, registered from now on; the other handles and queues are as before |
| EventFeed.Feed.Unsubscribe | internal/calls/registry.go:118-126 | a registered handle is taken out and its queue closed with what it holds, all others as before; for any other handle nothing changes |
| EventFeed.Feed.Publish | internal/calls/registry.go:128-145 | every subscriber with fewer than 64 queued events gets the event behind them and stays; the others are closed with their queues unchanged and taken out; nobody else notices |
| EventFeed.OfferAll | internal/calls/registry.go:132-141 | the send loop in any order offers the event to every subscriber and notes exactly the full ones |
| EventFeed.CloseAll | internal/calls/registry.go:142-144 | the clean-up loop closes exactly the noted queues |
| FeedSteps.EveryRunIsGapFree | internal/calls/registry.go:109-145 | in every interleaving what a subscriber received and still holds is a contiguous segment of the published sequence from the first event after it joined, reaching the latest while it is registered and the publisher idle |
| FeedSteps.EveryRunIsSafe | internal/calls/registry.go:76-145 | in every interleaving there is no send on a closed queue, no second close, no queue over 64, a handle is registered iff joined and open, and the next handle is new |
| FeedSteps.GoneForGood | internal/calls/registry.go:118-126 | a handle that was taken out is never registered again and its queue never gets another event |
| FeedSteps.RemovedForCause | internal/calls/registry.go:118-145 | in every interleaving a subscriber that joined and is not registered any more, or is about to be dropped, has left or was offered an event while its queue held 64 |
| FeedSteps.LeaveRemoves | internal/calls/registry.go:118-126 | leaving takes exactly that subscriber out and closes its queue as it is; for a handle that is not registered nothing changes |
| FeedSteps.LeaveEndsDelivery | internal/calls/registry.go:118-126 | after any interleaving in which a subscriber left behind its joining it is not registered, its queue is closed, and whatever follows it never gets another event |
| FeedSteps.OfferTaken | internal/calls/registry.go:132-141 | a registered subscriber that is offered an event with fewer than 64 queued gets it and stays |
| FeedSteps.PublishAloneIsARun | internal/calls/registry.go:128-145 | the whole uninterrupted publication is one of the interleavings |
| LiveStream.ClientExactPerCall | internal/server/calls_stream.go:59-97 | if all steps since before its snapshot and its subscription are safe, a settled stream client shows a call rightly iff an event about it has been delivered or the events missed in between did not change it |
| LiveStream.ClientExactSince | internal/server/calls_stream.go:59-97 | with no assumption on what came before a moment after the subscription, and safe steps since, a settled client shows a call rightly iff an event about it was published since or what it held then was right about it |
| LiveStream.ClientAfterReset | internal/calls/registry.go:421-428 | after a Reset behind its subscription and safe steps since, a settled client shows a call rightly iff an event about it was published since or it did not hold the call at the Reset |
| LiveStream.ClientIsCurrent | internal/server/calls_stream.go:59-97 | if all steps since before its snapshot and its subscription are safe and nothing was published in between, a settled client shows exactly the current snapshot, also if the snapshot was taken between a step and its publication |
| LiveStream.MissedCall | internal/server/calls_stream.go:61-68 | a reachable state, all of whose steps are safe, in which a settled client lacks a live call |
| AmiMessage.Message.GetValue | internal/exporter/ami/message.go:21-30 | the value of the first field with the key up to case, or nothing |
| AmiMessage.Message.HasKey | internal/exporter/ami/message.go:32-41 | whether some field has the key up to case |
| AmiMessage.Message.SetValue | internal/exporter/ami/message.go:43-53 | replaces the value of the first field with the key, or appends a field |
| AmiMessage.GetAfterSet | internal/exporter/ami/message.go:21-53 | after setting a key it reads back, and every other key reads as before |
| AmiMessage.Message.EncodeMessage | internal/exporter/ami/message.go:64-75 | prints the fields in order and a blank line |
| AmiMessage.ReadMessage | internal/exporter/ami/message.go:77-114 | the reading loop's result and the unread rest are those of the specification |
| AmiMessage.LineMeaning | internal/exporter/ami/message.go:94-112 | a line is its key up to the first colon and its value without leading blanks, and output without a colon |
| AmiMessage.ReadBack | internal/exporter/ami/message.go:64-114 | a printed message of readable fields is read back, and what follows it stays unread |
| AmiMessage.StreamThenTail | internal/exporter/ami/message.go:64-114 | a stream of printed messages with any text behind it reads back as the non-empty ones in order and then what the text holds |
| AmiMessage.StreamRoundTrip | internal/exporter/ami/message.go:64-114 | a stream of printed messages reads back as the non-empty ones in order and then end of file |
| AmiMessage.ReadBackExactly | internal/exporter/ami/message.go:64-114 | a message survives printing and reading iff every key is without ':' and LF and every value without LF, leading blank and trailing CR |
| AmiProtocol.ReadMapMessage | internal/ami/protocol.go:46-79 | the reading loop's map and the unread rest are those of the specification |
| AmiProtocol.StoreMeaning | internal/ami/protocol.go:59-77 | a line stores the trimmed value under its trimmed key up to case, or itself as banner without a colon, and changes no other lookup |
| AmiProtocol.WriteAction | internal/ami/protocol.go:81-91 | prints the same bytes for a header list as the other codec |
| AmiProtocol.LookupsAgreeExactly | internal/ami/protocol.go:26-35 | first-in-list and last-in-map lookups agree on every key iff each repeated key carries one value in its first and last header |
| AmiProtocol.RepeatedKeyDiffers | internal/ami/protocol.go:26-35 | concrete headers with a repeated key that the two lookups answer differently |
| AmiProtocol.CodecsAgreeExactly | internal/ami/protocol.go:46-79 | on the bytes of trimmed headers with anything behind them both parsers consume the same bytes, and they answer every lookup alike iff each repeated key carries one value in its first and last header |
| AmiProtocol.CodecsAgree | internal/ami/protocol.go:46-79 | with distinct keys they answer every lookup alike |
| AmiProtocol.ReadersDifferExactly | internal/ami/protocol.go:46-79 | for every input both parsers consume the same bytes, whatever one codec reads as a message the other does too, and the other returns one more iff a complete non-blank line opens a message and the input ends before a complete blank line |
| AmiProtocol.TruncatedDiffers | internal/ami/protocol.go:52-58 | printed headers without the final blank line are such an input |
| AmiClient.IdsDiffer | internal/exporter/ami/client.go:89-92 | different counter values make different identifiers, so late replies are recognisable |
| AmiClient.Client.ListAction | internal/exporter/ami/client.go:157-204 | sends the request under a fresh identifier and returns the specified answer on the unread input |
| AmiClient.Client.CollectItems | internal/exporter/ami/client.go:182-203 | the list loop returns the specified list and unread rest |
| AmiClient.Client.Action | internal/exporter/ami/client.go:138-155 | returns the next message iff there is one and its ActionID is empty or the request's |
| AmiClient.CollectIsChosen | internal/exporter/ami/client.go:182-203 | for every input the list is the choice from the messages that can be read of it: the items before the first completion in order, or a failure if there is none |
| AmiClient.ListUpToCompletion | internal/exporter/ami/client.go:182-203 | for every input with a completion the list is exactly the items before the first one, in order, and reading stops right behind it |
| AmiClient.NoCompletionFails | internal/exporter/ami/client.go:184-188 | every input without a completion, however it ends, gives an error and no partial list |
| AmiClient.NoiseChangesNothing | internal/exporter/ami/client.go:189-193 | any two inputs whose messages are the same up to those of other actions, however many and wherever, give the same list |
| AmiClient.ListAnswerExact | internal/exporter/ami/client.go:164-204 | for every input the answer is the items before the first completion behind an accepting first message, and an error otherwise |
| AmiClient.AnswerIgnoresNoise | internal/exporter/ami/client.go:164-204 | behind the first message, messages of other actions never change the answer |
| AmiClient.ListAnswerMeans | internal/exporter/ami/client.go:157-204 | where a list is answered, the first message accepts, a completion with the action's ActionID or none ends it, none comes before, and the items are exactly the messages in between with a non-empty Event and the action's ActionID or none, in order |
| AmiClient.ListAnswered | internal/exporter/ami/client.go:157-204 | a list is answered iff the first message accepts and a completion with the action's ActionID or none follows |
| AmiClient.ListedIsOwn | internal/exporter/ami/client.go:189-193 | no message with another action's ActionID and no message without an Event is listed |
| AmiClient.PrintedList | internal/exporter/ami/client.go:182-203 | on printed messages the bytes behind the first completion are left unread |
| AmiListener.Dispatch | internal/ami/listener.go:282-342 | a message has exactly the effect and event of the step it is routed to, or none |
| AmiListener.ServeInput | internal/ami/listener.go:209-220 | the event loop takes the registry to the result of the run of the input's routed messages, and the feed's published sequence to that run's log |
| ListenerEffects.NewstateMessage | internal/ami/listener.go:289-296 | a printed Newstate writes the channel's state and its description where given, and nothing else |
| ListenerEffects.CallerMessage | internal/ami/listener.go:297-307 | a printed NewCallerid writes the caller number and name where they say something, and nothing else |
| ListenerEffects.ConnectedLineMessage | internal/ami/listener.go:308-318 | a printed NewConnectedLine writes the connected number and name where they say something, and nothing else |
| ListenerEffects.ExtensionMessage | internal/ami/listener.go:319-329 | a printed NewExten writes extension and context where given, and nothing else |
| ListenerEffects.BridgeMessage | internal/ami/listener.go:330-337 | a printed BridgeEnter writes the bridge it names and a printed BridgeLeave none, and nothing else |
| ListenerEffects.HangupMessage | internal/ami/listener.go:338-342 | a printed Hangup takes the channel out; with the last of its call the call leaves the snapshot and its end is the next event published |
| ListenerEffects.ChannelMessage | internal/ami/listener.go:282-288 | a printed Newchannel or CoreShowChannel stores the channel its headers tell, without sentinels and dated now, and the snapshot shows its call |
| ListenerEffects.OtherMessage | internal/ami/listener.go:275-343 | a printed message of any other kind leaves the registry alone |
| AmiListener.SentinelsNeverStored | internal/ami/listener.go:374-401 | over all runs of routed messages no caller or connected-line field of a live channel holds a "no value" sentinel |
| ChannelCounts.FirstNonEmpty | internal/exporter/collector/core.go:98-105 | the first value that is not empty, or empty if all are |
| ChannelCounts.RowKeys | internal/exporter/collector/core.go:72-91 | a row counts under its state description, else its state number, else Unknown, and for its Linkedid, else its Uniqueid |
| ChannelCounts.CollectChannels | internal/exporter/collector/core.go:59-96 | the number of channels, the exact tally of their states, and the set of their call ids |
| ChannelCounts.StatesSumToChannels | internal/exporter/collector/core.go:72-91 | the per-state counts sum to the number of channels |
| ChannelCounts.SeededSnapshot | internal/calls/registry.go:212-235 | after announcements only, the snapshot has exactly one call per call id of a row with a Uniqueid |
| ChannelCounts.SameNumberOfCalls | internal/exporter/collector/core.go:72-94 | after a Reset and the dispatch of the same rows the snapshot has as many calls as the exporter reports iff every row without a Uniqueid names a call of a row with one |
| ChannelCounts.StrayRowCounted | internal/exporter/collector/core.go:72-94 | a concrete row that is a call for the exporter and none in the snapshot |
| RtpQos.CubicIncreasing | internal/data/rtpqos.go:145 | the cubic increases strictly on [6.5, 100] |
| RtpQos.Clamps | internal/data/rtpqos.go:145-151 | the upper clamp is never needed, the lower one exactly where r*r - 160r + 1000 is positive |
| RtpQos.LowerClampNeeded | internal/data/rtpqos.go:146-148 | just above 6.5 the formula is below 1 |
| RtpQos.MosMonotone | internal/data/rtpqos.go:132-153 | MOS never falls when the score rises, over all reals |
| RtpQos.MosRange | internal/data/rtpqos.go:132-153 | MOS is 0 iff there is no positive score and else within [1, 4.5] |
| RtpQos.MosExactly | internal/data/rtpqos.go:132-153 | between 0 and 100 the MOS is 1 exactly up to 6.5 and where r*r - 160r + 1000 is not negative, and elsewhere the formula |
| RtpQos.MosGrows | internal/data/rtpqos.go:132-153 | where the formula is above 1 the MOS grows strictly, up to 4.5 |
| RtpQos.QualitySymmetric | internal/data/rtpqos.go:155-179 | the band does not depend on which direction is which |
| RtpQos.QualityIsWorse | internal/data/rtpqos.go:155-179 | the band is unknown iff both directions are, and else the worse of the bands of the directions that report |
| RtpQos.QualityMonotone | internal/data/rtpqos.go:132-179 | the band never worsens when a positive score rises |
| RtpQos.AppearingNeverImproves | internal/data/rtpqos.go:132-179 | a direction that starts to report never improves a known band |
| RtpQos.BandOfScores | internal/data/rtpqos.go:132-179 | the band is unknown without a positive score, Bad iff the worse positive score is below 60, and else by the MOS thresholds, with every score from 60 to 70 Poor, 71 to 79 Fair, 80 to 88 Good and from 89 Excellent |
| RtpQos.MosAtThresholds | internal/data/rtpqos.go:145-178 | a score of 60 is a MOS of 3.1, and 3.6, 4.0 and 4.3 lie between scores 70 and 71, 79 and 80, 88 and 89 |
| RtpQos.PercentRange | internal/data/rtpqos.go:117-124 | losses of non-negative counters are percentages |
| RtpQos.PercentMeaning | internal/data/rtpqos.go:117-124 | the loss share times all packets is a hundred times the lost ones |
| RtpQos.ParseReport | internal/data/rtpqos.go:69-130 | none iff the text is blank, else for each known key its last value, the losses, MOS scores and band derived from them |
| RtpQos.UnknownIgnored | internal/data/rtpqos.go:69-88 | unknown or malformed parts anywhere change nothing |
| RtpQos.KeyFills | internal/data/rtpqos.go:69-115 | one more part with a known key sets exactly that key's reading, the times in milliseconds and only if the number parses |
| RtpQos.SplitRejoins | internal/data/rtpqos.go:75 | the parts rejoin to the text and hold no separator |
| RtpQos.PairOf | internal/data/rtpqos.go:76-84 | a part with a key and a value that is not blank reads as both trimmed, any other part as nothing |
| QualityCollector.Conservation | internal/exporter/quality/collector.go:181-233 | local band counters sum to the rows, peer ones to the rows with peer data, and no series exceeds its side's total |
| QualityCollector.ObservedExactly | internal/exporter/quality/collector.go:198-233 | which values of a report feed which series |
| QualityCollector.Collector.RecordSide | internal/exporter/quality/collector.go:198-233 | one band counter rises by one and exactly the series with data by one |
| QualityCollector.Collector.Observe | internal/exporter/quality/collector.go:181-196 | every counter stays the exact count over the legs observed |
| QualityCollector.Collector.ScrapeOnce | internal/exporter/quality/collector.go:159-179 | a scrape observes exactly the answered legs and raises the watermark to their latest date; a failed one only counts itself |
| Watermark.AtMostOnce | internal/exporter/quality/collector.go:159-179 | over any interleaving of insertions and scrapes the watermark never falls and no row is observed twice |
| Watermark.OnlyReported | internal/data/cdr_repo.go:317-347 | over every run only rows with a report that is not empty are observed |
| Watermark.AnswerSize | internal/data/cdr_repo.go:317-347 | up to 1000 newer rows with a report are all answered at once, of more exactly 1000 |
| Watermark.MissedForGood | internal/data/cdr_repo.go:342-347 | a given row at or below the watermark that was not observed never will be, over every run |
| Watermark.NeverComplete | internal/data/cdr_repo.go:342-347 | a run that once left a reporting row behind never makes up for it |
| Watermark.LateRowMissed | internal/data/cdr_repo.go:342-347 | a concrete row that arrives dated at the watermark and that no run observes |
| Watermark.CompleteExactlyWhenHarmless | internal/data/cdr_repo.go:317-347 | at the end of a run every reporting row after the start and up to the watermark has been observed iff no such row arrived at or below the watermark and no full answer cut off rows as old as its last |
| Watermark.ScrapeTable | internal/exporter/quality/collector.go:159-179 | a scrape by the collector is the scraper's step |
| ChannelNames.LooksLikeExtension | internal/data/extension.go:29-49 | at most 32 characters, only letters, digits and '_', at least one digit |
| ChannelNames.ExtensionOfParts | internal/data/extension.go:8-49 | of technology, slash, token and what follows the parser returns the token if it has the shape of an extension and nothing otherwise |
| ChannelNames.RegexMeaning | internal/data/cdr_repo.go:502-506 | the pattern matches iff the technology is letters only and the token is extension-like and ends at a '-' or '@' |
| ChannelNames.AgreeExactly | internal/data/cdr_repo.go:496-506 | for every name, when parser and pattern agree |
| ChannelNames.ParserAcceptsMore | internal/data/extension.go:8-27 | concrete names that the parser accepts and the pattern does not |
| ChannelNames.ParserEqualsRegex | internal/data/extension.go:8-27 | they agree on every name of letters, slash, token of at most 32 characters and '-' or '@', and on the empty name |
| ChannelNames.DirectionsAgree | internal/data/cdr_repo.go:512-533 | on such names inbound and outbound are their filters, internal is its filter without calls of an extension to itself, and unknown is what the default filter drops and those |
| ChannelNames.SelfCallKept | internal/data/cdr_repo.go:526-532 | a concrete call of an extension to itself that the default and internal filters keep and that is inferred as unknown |
| ChannelNames.DirectionsOfCalls | internal/data/cdr_repo.go:512-533 | concrete calls towards, from and between extensions that are inferred and filtered as inbound, outbound and internal |
| CallSummaries.FiltersPartition | internal/data/cdr_repo.go:536-559 | each filter selects exactly the calls with its disposition and the four cover all calls |
| CallSummaries.OtherFiltersSelectAll | internal/data/cdr_repo.go:536-559 | no filter, and one that names no disposition, selects every call |
| CallSummaries.DispositionMeaning | internal/data/cdr_repo.go:103-115 | answered iff a leg with a destination channel was, else busy, failed or no answer by the legs in that order |
| CallSummaries.SummarizeLegs | internal/data/cdr_repo.go:561-639 | answered iff a leg with a destination channel was answered, else busy, failed or no answer in that order; duration is the maximum over all legs and billsec over exactly those answered ones, or 0; the pickup is between the earliest start and answer |
| CallSummaries.FirstExtensionMeaning | internal/data/cdr_repo.go:586-596 | the answered extension is the first non-empty one among the legs answered on a destination channel |
| CallSummaries.FoldLegs | internal/data/cdr_repo.go:578-616 | the loop's flags and maxima are the aggregates over all legs |
| CallSummaries.FirstTimes | internal/data/cdr_repo.go:618-631 | the loop's instants are the running minima of the starts and answers |
| CallSummaries.RunningMinOrder | internal/data/cdr_repo.go:618-631 | the running minimum is independent of the order of events iff none has the zero instant or all have |
| CallSummaries.PickupOrder | internal/data/cdr_repo.go:618-638 | for every timeline the pickup is the same in every order of its events iff neither kind has zero among set instants, or no set answer that some order puts first is at or after a set start that some order does |
| CallSummaries.UnsetStartLosesPickup | internal/data/cdr_repo.go:618-638 | a concrete timeline whose pickup one order of its events gives and another loses |
| CallSummaries.SummaryIgnoresOrder | internal/data/cdr_repo.go:561-639 | disposition, duration, billsec and, where it is fixed in that sense, pickup do not depend on the order of legs and events |
| Registrations.Latest | internal/data/pjsip_reg_repo.go:92-99 | the endpoint's event with the greatest time up to the instant and among those the greatest id, if there is one |
| Registrations.StatusListsAgree | internal/data/types.go:206-214 | the point query and the set query count the same statuses as registered, and not Removed, Unreachable or Unknown |
| Registrations.PointMeaning | internal/data/pjsip_reg_repo.go:78-124 | the point query is an error exactly without an endpoint and else answers with the latest event and its status, registered iff the status says so and it has not expired before the instant |
| Registrations.SetMeaning | internal/data/pjsip_reg_repo.go:126-189 | the set query's rows show exactly the events at their endpoint's latest instant that are registered and not expired, one each, with all their columns |
| Registrations.QueriesAgreeExactly | internal/data/pjsip_reg_repo.go:78-189 | for every log, exactly when an endpoint appears once if the point query says registered and not at all otherwise |
| Registrations.QueriesAgreeWithoutTies | internal/data/pjsip_reg_repo.go:78-189 | without two events of the endpoint at one instant they agree iff its latest event does not expire at the very instant asked about |
| Registrations.ExpiryDiffers | internal/data/pjsip_reg_repo.go:120-155 | a concrete event that the point query counts at the instant of its expiry and the set query does not |

## Left out

- Sockets, deadlines, dialing, login, ping, reconnects and write errors: input is the text still to be read, and only end of file ends it.
- The Go memory model: locks are taken to work; the steps of the feed and the stream are the critical sections and the single queue operations between them.
- Sharing of one published call object by all subscribers: events are values here, which nobody can write to.
- 64-bit wrap-around of subscriber handles and action identifiers, and narrowing to 32 bits: integers are unbounded.
- Characters beyond ASCII in case folding and trimming.
- Aliasing of the request's field slice with the caller's in ListAction and Action: the request is a value.
- Contact status messages and their persistence: the listener's other consumer.
- Number parsing, NaN, infinities and rounding: scores are real numbers and the number parsers are parameters.
- Histogram buckets and metric registration: a series is its number of observations.
- SQL evaluation, collations, NULL columns other than the report column, time zones, paging and the row filters of the list query: only the named expressions are modelled.
- Billsec and answered extension of the list query: it does not apply the drilldown's dstchannel filter there, so they are not meant to agree.
- The set query's final ordering, and the disabled repository's error.
- The dashboard's four-second flash of ended calls: the client removes them at once.
- HTTP and gRPC servers, generated code, wiring, configuration, certificates, recordings and views.
- AmiListener.Dispatch: says nothing about messages for the registration sink.
- AmiListener.ServeInput: takes the clock reading of each message as given, and no Reset from the reconcile goroutine falls into the loop; LiveStream has Resets at any moment.
- Lifecycle.LifecycleOfEveryCall: assumes a stable run, as it is promised for one; what an unstable run does to the indexes and the client is stated exactly elsewhere.
- AmiProtocol.CodecsAgreeExactly: assumes trimmed headers, since one codec trims keys and values and the other only leading blanks.
- AmiProtocol.CodecsAgree: assumes distinct keys besides; the exact condition is in AmiProtocol.CodecsAgreeExactly.
