# Verification model of the data point, service and namespace core

`ick` is a C++ library for industrial data acquisition. This Dafny project models its core and
proves what that core keeps and loses:

- **Data points.** Each channel (`ReadOnlyInt`, `ReadWriteDouble`, ...) is polled by
  `ObjectManager::execute`; a change raises a flag and `UntypedData::update` hands the value to the
  subscribers. `Channels` models the fields and methods, each method proved against a function on
  the state. It shows for which kinds the subscribers always catch up; `ChannelRuns` and
  `ChannelRounds` give the exact input sequences on which the other kinds lose a change, and
  `ChannelHistory` tells from the operations alone who is listed and what they hold.
  `Interleaving` splits the same operations into single stores and lock steps of three threads, for
  the build whose lock excludes and for the one whose lock does nothing; `Uninterrupted` ties those
  steps to the operations of `Channels`. `WriteOverlap` puts the two stores of a driver-backed int or
  string write anywhere between the steps of the poll thread.
- **Namespace.** `NamespaceIndex` and `ObjectManager` model registration with its
  prefix-to-children index, the binding of channels to drivers, and the poll sweep over all channels.
- **Remote service calls as text.** `Tokenizer`, `Escape`, `Services`, `ServiceTables`,
  `ArgumentPassing`, `AnyDeclarations`, `Wire`, `ReceiveLoop`, `ServiceSocket` and `EndToEnd` follow a
  request from `addService` through the send queue, the wire, the receive buffer,
  `ControlObject::call` and the declared parameters.
- **Smaller members.** `HexCodec` (the text form of protocol bytes) and `Dispatch` (message lookup
  through the chain of class tables).

`Text`, `OrderedKeys`, `Conversions` and `Wrappers` hold the shared definitions: cutting and trimming
of strings, the iteration order of `std::map`, `atoi`/`atof`, and two result types.

Loops and classes of the source are methods and classes here. A method is proved equal to a pure
function of its inputs or of the old state, and the theorems are lemmas about that function. The
straight-line `getValue` and `setValue` methods are no results in themselves: each is the bridge from
the class to the function that the run lemmas are about, and is marked so in the table.
Drivers, the network and the clock are arbitrary outcomes passed as parameters.

## What turned out false

Where the code does not do what one would expect of it, the model keeps the code and the exact
condition is proved.

- A driver-backed `ReadWriteInt` compares a reading with the value before the last one. Under polls
  alone it loses the third of three readings A, B, A, and stays behind until the reading changes
  (`CoherentIffNoReturn`, `BehindUntilNextChange`). With writes as well, a round is lost exactly if
  it has an accepted input, all of them equal the recorded old value, and the subscribers hold another
  (`IntRoundLostIff`).
  Without a driver, a round is lost exactly if none of its changing writes is read before the next
  write and the value ends up another (`LogicalRunCoherentIff`). A driver-backed `ReadWriteString`
  never announces a reading at all (`BoundStringNeverAnnounces`).
- A `ReadOnlyDouble` in simulated mode announces a simulated value only if a driver reading in the
  same round falls outside the deadband around it (`SimulatedDoubleRunIff`). Switching the mode of
  the other two read-only kinds loses a change in some continuation unless the flag is up, nobody
  subscribes, or value and old value agree (`ModeSwitch`).
- A `ReadWriteDouble::setValue` that overlaps an update loses its change when both its stores fall
  between a delivery and the clearing of the flag, and only then (`OverlapLosesIff`,
  `NoChangeMissed`). A driver-backed `ReadWriteInt` or `ReadWriteString` stores the flag first and can
  also lose a write whose value store comes after the clear (`OverlappingWriteLostIff`).
- On Linux `IMutex` does nothing: a subscribe that overlaps an update is forgotten exactly if the
  update has already passed a subscriber that is listed, or a new one is listed when the loop of the
  update has reached the end of the list or later (`OverlapForgetsIff`, `FlagBeforeLockForgetsIff`);
  between the last delivery and the step to the end it is still in time
  (`ListedBeforeLastStepIsServed`). Runs without such an overlap, and without the erasure of the node
  an update stands at, keep both guarantees there too.
- Reassembly of the received text. After every receive the messages handled are the complete messages
  of the text so far, and the rest is carried, if and only if every receive is fair
  (`ReassembledIff`). These are not:
  - a receive that does not fill the buffer and stops inside a message: both loops handle the start of
    that message as a whole one and never join the rest to it (`ShortReceivesIff`);
  - a receive that fills the buffer right behind a semicolon: both loops hold the last complete
    message back, and the debugger's glues it to the next receive (`FullBehindSemicolon`);
  - a receive that fills the buffer right behind a space, which the tokenizer trims off the tail;
  - for the service socket, which updates its carry inside the message loop, a full receive without a
    complete message, and most with several (`CarryKeptIff`); the debugger socket keeps every other
    tail (`CarryOverExact`).
- A receive of the service socket that completes no turn of the message loop leaves its text in the
  buffer, and further ones are laid over it; a receive that completes one wipes it out. The next
  receive sees, behind its own text, what it does not cover of that rest (`OldTextShowsIff`). No
  turn is completed exactly if there is no complete message, or the first one is a call whose
  acknowledgement cannot be sent (`NoTurnIff`).
- `%` is not escaped: texts with `%3A` or `%2C`, and the text `%`, do not survive (`RoundTrip`).
- `Converter::split` returns the separator itself as a last token for a text that ends in two of
  them. A request with neither service name nor parameters is read with the parameters `:`
  (`ParseOfBody`), and a name whose last two pieces are blank gets a component `/`
  (`ComponentsExact`).
- A parameter name declared twice makes `call` drop an argument (`RepeatedDropsArgument`);
  the others still go where they belong (`CallExact`).
- `protocol.h` describes `toBytes` as reading hexadecimal; the code reads decimal, so it
  inverts `toString` only for bytes below ten (`ToBytesInvertsIff`).
- The client's send handler returns with its mutex locked after a failed send (`SendQueue`).
- Message types with a parameter count but no case in the switch are silently ignored
  (`ThrowsOrIgnores`).

## Model

| member | source | states |
|---|---|---|
| Channels.Channel.constructor | src/untyped_data.cc:20-34 | a new channel is unbound, unsimulated, without subscribers and not yet valid; it starts with the value it is given, a `ReadWriteInt` with 0; what its first comparison starts from is given by class; the change flag is already set except for `ReadWriteDouble` |
| Channels.Channel.ReadOnlyGetValue | src/read_only_int.cc:30-59 | bridge: `getValue` of `ReadOnlyInt` and `ReadOnlyString` turns the whole state into the one the specification gives, for both modes and any driver answer |
| Channels.Channel.ReadOnlyDoubleGetValue | src/read_only_double.cc:27-44 | bridge: the deadband read: a sample is taken over exactly when it is at least the accuracy away from the stored value |
| Channels.Channel.ReadWriteIntGetValue | src/read_write_int.cc:44-68 | bridge: whole new state, with the comparison against the old value in both branches |
| Channels.Channel.ReadWriteStringGetValue | src/read_write_string.cc:18-37 | bridge: whole new state; a driver read changes the value and nothing else |
| Channels.Channel.ReadWriteSetValue | src/read_write_int.cc:70-87 | bridge: `setValue` of `ReadWriteInt` and `ReadWriteString`: whole new state for an accepted, refused and driverless write |
| Channels.Channel.ReadWriteDoubleSetValue | src/read_write_double.cc:36-61 | bridge: whole new state; values inside the deadband are dropped |
| Channels.Channel.GetValue | src/object_manager.cc:497-534 | the cast chain reaches the `getValue` of the channel's own class; a bare read by anyone keeps the channel settled |
| Channels.Channel.SetValue | src/read_write_double.cc:36-61 | whichever of the three `setValue` it is, a write keeps the channel settled, and one the driver refuses changes nothing |
| Channels.Channel.SetSimulatedValue | src/read_only_int.cc:71-82 | succeeds exactly in simulated mode and then changes only the value; keeps the channel settled |
| Channels.Channel.Subscribe | src/untyped_data.cc:102-119 | a null subscriber changes nothing; otherwise the flag is up, everybody listed before keeps the place, the new subscriber is behind them unless it was listed, and value, deliveries and validity are untouched; keeps the channel settled |
| Channels.Channel.Unsubscribe | src/untyped_data.cc:121-137 | exactly that subscriber is gone, the others keep their order, nothing else changes |
| Channels.Channel.Update | src/untyped_data.cc:153-167 | every listed subscriber has been handed the present value, nobody else has been handed anything, and the flag is down |
| Channels.Channel.Poll | src/object_manager.cc:492-546 | one visit of the sweep keeps the channel settled and leaves a covered kind coherent, whatever the driver answers |
| Channels.Channel.RegistChannelRead | src/untyped_data.cc:139-144 | a null handler changes nothing, any other is recorded with its driver |
| Channels.PollSettles | src/object_manager.cc:495-538 | a poll keeps the per-kind invariant (flag set, or everyone holds what the next comparison starts from) and leaves covered kinds coherent |
| Channels.RunSettles | src/untyped_data.cc:102-167 | every run of subscribe, unsubscribe, simulate, write, bare read and poll keeps the per-kind invariant |
| Channels.CoveredKindsCatchUp | src/object_manager.cc:490-539 | for `ReadOnlyInt`, `ReadOnlyString`, an unsimulated `ReadOnlyDouble` and `ReadWriteDouble`: in every run since construction, bare reads included, every poll leaves every subscriber with the present value, and no subscriber is listed twice |
| Channels.ModeSwitch | src/read_only_int.cc:30-59 | after a switch of simulated mode all polls of all continuations leave the subscribers with the present value if and only if at the switch the flag is set, nobody subscribes, or value and old value agree |
| Channels.ModeSwitchLosesAChange | src/read_only_int.cc:71-82 | a concrete mode switch after which a simulated value is never announced |
| ChannelHistory.ListedIff | src/untyped_data.cc:102-137 | after any run since construction exactly those are listed who subscribed and have not unsubscribed since |
| ChannelHistory.SubscriberIsServed | src/object_manager.cc:490-539 | whoever subscribed to a channel of a covered kind and has not unsubscribed since has been handed the present value after the next poll |
| ChannelHistory.ReadOnlyValueIs | src/read_only_int.cc:30-82 | after any run the value of a `ReadOnlyInt` or `ReadOnlyString` is the last simulated value in simulated mode, the last successful reading otherwise, and the constructor's as long as there is none |
| ChannelHistory.ReadOnlySubscribersHold | src/read_only_string.cc:19-48 | and after each poll everybody who subscribed and stayed has been handed exactly that |
| ChannelHistory.OldValueIsPrevious | src/read_only_double.cc:27-44 | for the double classes, and for the other read-only ones outside simulated mode, the old value is the one before the last change, whatever the operation |
| ChannelHistory.ValidIff | src/read_only_int.cc:30-82 | a channel is valid exactly once a simulated value, a reading or a write has been taken in the way of its class |
| ChannelHistory.ConstructedIsNew | src/read_write_int.cc:15-19 | a constructed `ReadWriteInt` with a subscriber is where the runs of that class start |
| ChannelHistory.RefusedWriteChangesNothing | src/read_write_double.cc:38-51 | a write that the driver refuses changes nothing, in any of the three classes |
| ChannelRounds.SimulatedDoubleIff | src/read_only_double.cc:27-57 | one simulated value and a poll of a `ReadOnlyDouble`: announced if and only if it is the present value or a bound driver reads a value outside the deadband around it |
| ChannelRounds.SimulatedDoubleRunIff | src/read_only_double.cc:27-57 | over any run of simulated values, reads and polls, whatever the subscribers hold at first: up to date after every poll if and only if each round has a driver reading that is taken over or ends with the value they hold |
| ChannelRounds.SimulatedRunHolds | src/read_only_double.cc:27-57 | the value and what the subscribers hold after each poll of such a run, lost rounds before it or not |
| ChannelRounds.SimulatedDoubleIsMissed | src/read_only_double.cc:46-57 | a run from construction that ends behind |
| ChannelRuns.SubscribersAfterPoll | src/read_write_int.cc:44-58 | driver-backed `ReadWriteInt`, after every poll and with failed reads allowed: exactly which reading the subscribers hold, and exactly when it is not the last |
| ChannelRuns.CoherentIffNoReturn | src/read_write_int.cc:44-68 | the subscribers are up to date after every poll if and only if no three consecutive readings, the constructor's 0 included, are A, B, A with A unequal to B |
| ChannelRuns.BehindUntilNextChange | src/read_write_int.cc:51-57 | once behind, the subscribers catch up at a poll if and only if its reading differs from the last |
| ChannelRounds.RoundEndsInPoll | src/object_manager.cc:495-538 | what happens between two polls, with the second one's read and its delivery, is that run of operations ended by a poll |
| ChannelRounds.RoundCoherent | src/object_manager.cc:495-538 | any kind, subscribers up to date or behind: after a round they are up to date if and only if some read or write in it raised the flag or the value is what they held; and then all hold the value, otherwise what they held |
| ChannelRounds.RaisesIff | src/read_write_int.cc:59-66 | driverless writes and reads in any order, from any state a `getValue` leaves: the flag is up if and only if it was, or some write changed the value and was read before the next write |
| ChannelRounds.RoundCoherentIff | src/read_write_string.cc:28-35 | one round of driverless writes and reads, subscribers up to date or behind: up to date at its poll if and only if such a write occurred or the value is what they held |
| ChannelRounds.LogicalRunCoherentIff | src/read_write_int.cc:81-86 | over any run of driverless writes, bare reads and polls: up to date after every poll if and only if no round hides a change |
| ChannelRounds.LogicalRunHolds | src/read_write_int.cc:59-66 | the value and what the subscribers hold after each poll of such a run, so which poll repairs a lost round |
| ChannelRounds.OneWritePerGet | src/read_write_string.cc:50-55 | with a `getValue` between any two writes, by whomever, nothing is lost, from construction on |
| ChannelRounds.BoundRaisesIff | src/read_write_int.cc:44-79 | writes and readings through a driver, refused and failed ones included: value and old value after any run; the flag is up if and only if it was, or some compared input differs from the old value recorded before |
| ChannelRounds.BoundRunCoherentIff | src/read_write_string.cc:18-49 | over any run of such rounds and polls, whatever the subscribers hold at first: up to date after every poll if and only if each round has such an input or ends with the value they hold |
| ChannelRounds.BoundRunHolds | src/read_write_int.cc:44-79 | the value, the recorded old value and what the subscribers hold after each poll of such a run |
| ChannelRounds.IntRoundLostIff | src/read_write_int.cc:44-79 | from subscribers that are up to date, a round of a `ReadWriteInt` is lost if and only if it has an accepted input, all of them equal the recorded old value, and the value was another |
| ChannelRounds.BoundStringNeverAnnounces | src/read_write_string.cc:18-27 | a driver read of a `ReadWriteString` leaves the subscribers with what they held; they agree only if that is the reading |
| ChannelRounds.BoundWriteAnnouncedIff | src/read_write_int.cc:70-79 | the special case of one write read back at the next poll |
| ChannelRuns.NoDrift | src/read_only_double.cc:27-44 | from any state, after any run of samples the stored value is within the accuracy of the latest one and is the first value or one of the samples, and every subscriber holds it unless they were behind an unflagged channel before |
| ChannelRuns.AnnouncementsBounded | src/read_write_double.cc:36-61 | from any state, the number of samples taken over times the accuracy is at most the total variation of the samples from the stored value; announcements are those samples, and one more if the flag was up |
| ChannelRuns.DeadbandFromConstruction | src/read_only_double.cc:13-19 | both bounds from construction on, for `ReadOnlyDouble` and `ReadWriteDouble` |
| Interleaving.RunKeepsInv | src/untyped_data.cc:102-167 | both builds: every interleaving of the single stores, lock steps, list operations, deliveries and steps of the update loop keeps the invariant on list, lock, deliveries and flag |
| Interleaving.WhoIsListed | src/untyped_data.cc:102-137 | of all steps only the listing of a subscriber and its erasure change who is listed, and only for that one |
| Interleaving.NoSubscriptionMissed | src/untyped_data.cc:102-137 | both builds, every interleaving of writer, poll thread and one client: nobody is listed twice, and outside an update each listed subscriber has been served since it subscribed or the flag is set, as long as no race occurred that only exclusion rules out; with an excluding lock none does |
| Interleaving.NoChangeMissed | src/read_write_double.cc:36-61 | likewise: outside update and `setValue` the flag is set or every subscriber is up to date, unless since the last update locked some `setValue` had both stores inside it, after a delivery and before the clear |
| Interleaving.OverlapLosesIff | src/read_write_double.cc:42-47 | of the places where the value store of one `setValue` can fall inside an update, exactly those lose the change that follow a delivery with the flag store before the clear |
| Interleaving.StoreBeforeLockKeeps | src/read_write_double.cc:42-47 | a value store before the lock loses nothing, whether the flag store falls inside the update or after it |
| Interleaving.StoreAfterClearKeeps | src/read_write_double.cc:42-47 | a value store after the clear loses nothing: the flag stays up |
| Interleaving.OverlapForgetsIff | src/untyped_data.cc:102-119 | without exclusion, of all places where the flag store of one subscribe can fall inside an update and its listing behind that, exactly those forget the subscriber where it is listed already and passed, or new and listed with the loop at its end, before or after the clear; the race record is set in just these |
| Interleaving.StepCommutes | src/untyped_data.cc:156-163 | a store or any other listing between a delivery and the step of the loop has the effect it has behind the step |
| Interleaving.ListedBeforeLastStepIsServed | src/untyped_data.cc:156-163 | the one listing that has not: a new subscriber between the last delivery and its step is still served |
| Interleaving.FlagBeforeLockForgetsIff | src/untyped_data.cc:102-119 | with the flag store before the update's lock: forgotten if and only if the subscriber is new and listed with the loop at its end, before or after the clear |
| Interleaving.FlagAfterClearKeeps | src/untyped_data.cc:102-119 | with the flag store after the clear the flag stays up |
| Interleaving.SweepReachesEveryone | src/object_manager.cc:535-538 | with the flag set, and the lock free if it excludes, the poll thread's own next steps serve every listed subscriber |
| Interleaving.EmptyLockForgetsSubscriber | src/untyped_data.cc:102-119 | such a run of the Linux build from the start: all threads idle, the flag down, a listed subscriber never served |
| Uninterrupted.SubscribeAlone | src/untyped_data.cc:102-119 | the steps of one subscribe, taken without interruption, do what the whole operation does to list, flag and value, and leave the other threads where they were |
| Uninterrupted.UnsubscribeAlone | src/untyped_data.cc:121-137 | likewise for an unsubscribe between two updates |
| Uninterrupted.SetAlone | src/read_write_double.cc:36-61 | likewise for an accepted `setValue`, with or without a driver; inside the deadband it takes no step |
| Uninterrupted.VisitAlone | src/object_manager.cc:490-539 | likewise for a visit of the poll thread, with the flag set or not |
| WriteOverlap.ReadIsGet | src/read_write_int.cc:44-68 | the read step is `getValue` of the two classes through a driver |
| WriteOverlap.StoresAreSet | src/read_write_string.cc:39-49 | the two stores together are an accepted `setValue` |
| WriteOverlap.OverlappingWriteLostIff | src/read_write_int.cc:70-79 | for every place of the two stores between the poll thread's steps, every reading and any number of subscribers: exactly when one overlapping write ends unflagged and unseen |
| NamespaceIndex.InsertIntoIndex | src/object_manager.cc:110-127 | inserting a name's components into the index of some names gives the index recomputed from all of them, keys and child sets alike |
| NamespaceIndex.AttemptsIndexNames | src/object_manager.cc:84-135 | after any run of registration attempts, refused ones included, the index is the one recomputed from the set of acceptable names, whatever their order |
| NamespaceIndex.KeyInjective | src/object_manager.cc:126-126 | a slash-joined key identifies its path among all paths that names can have |
| NamespaceIndex.WalkIsPrefix | src/object_manager.cc:293-304 | the paths one can walk from "/" by asking for children are exactly the prefixes of the registered component paths |
| NamespaceIndex.ComponentsShape | src/object_manager.cc:110-114 | the components of any name are non-empty and free of slashes, except that the last may be "/" |
| NamespaceIndex.ComponentsExact | src/object_manager.cc:110-114 | for every name: its non-blank pieces without outer spaces; a component "/" follows if and only if there are three pieces or more and the last two are blank |
| NamespaceIndex.ComponentsOfName | src/object_manager.cc:110-114 | a name of plain components gives them back |
| NamespaceIndex.TrailingSlash | src/object_manager.cc:110-114 | one slash at the end of a name changes nothing |
| NamespaceIndex.TrailingDoubleSlash | src/object_manager.cc:110-114 | two slashes at the end add a component "/" |
| ObjectManager.NodeName.AddNodeName | src/object_manager.h:41-47 | the child set gains exactly the name |
| ObjectManager.NodeName.GetNodeList | src/object_manager.h:49-58 | the children in ascending order |
| ObjectManager.ObjectManager.RegisterData | src/object_manager.cc:84-135 | accepted if and only if there is a channel and the name starts with a slash, is longer than that, and is not taken; exactly when each refusal is given; an accepted name is added to the flat map, a refused one changes nothing; the index always equals the one recomputed from the accepted names |
| ObjectManager.ObjectManager.RegisterAll | src/object_manager.cc:84-135 | over any run of registrations, refused ones included, the names entered are the acceptable ones not yet taken, and the index is the one their order does not matter for |
| ObjectManager.EnteredAt | src/object_manager.cc:103-107 | each such name leads to the channel of the first attempt with it that has one, and a name taken before leads where it led |
| ObjectManager.ObjectManager.IndexTokens | src/object_manager.cc:110-127 | the loop over the tokens, empty ones skipped, makes the node objects hold the specified index |
| ObjectManager.ObjectManager.CreateAlias | src/object_manager.cc:222-254 | the alias is inserted unless it exists, even for an unknown object, and the index is untouched; when it warns |
| ObjectManager.ObjectManager.GetChannelNodeList | src/object_manager.cc:293-304 | the recorded children of a key in order, none for an unknown key |
| ObjectManager.ObjectManager.GetDatas | src/object_manager.cc:335-350 | exactly the named channels with that node number and non-zero numbers |
| ObjectManager.ObjectManager.BindChannel | src/driver.cc:24-65 | the handlers of the channel's own type and mode, and the driver |
| ObjectManager.ObjectManager.RegistChannels | src/driver.cc:16-67 | all channels of the driver's node are bound to it, all others unchanged, and no channel's value state is touched |
| ObjectManager.ObjectManager.StartNamespace | src/object_manager.cc:352-361 | every channel ends with the binding its last matching driver gives, value states untouched |
| ObjectManager.BoundToLastDriver | src/object_manager.cc:352-361 | a bindable channel ends bound to the driver of its node with the greatest name, with the handlers of its type and mode |
| ObjectManager.OthersUnbound | src/driver.cc:16-67 | a channel that cannot be bound, or whose node no driver has, is as it was |
| ObjectManager.LastDriverIsGreatest | src/object_manager.cc:353-360 | in map order the last matching driver is the one with the greatest name |
| ObjectManager.PollAll | src/object_manager.cc:495-539 | the sweep in name order, channels under several names visited once by each, leaves every channel in the state its visits give |
| ObjectManager.ObjectManager.Sweep | src/object_manager.cc:490-546 | one pass over a heterogeneous map with aliases leaves every channel settled and every subscriber of every covered channel with its current value |
| ObjectManager.VisitedSettles | src/object_manager.cc:495-539 | the visits of a sweep keep every channel settled and leave the visited covered ones coherent, later visits through aliases included |
| OrderedKeys.OrderedUnique | src/object_manager.cc:495-496 | iteration order over a map is a function of its keys: the only ascending listing of them |
| OrderedKeys.LessExact | src/object_manager.cc:495-496 | the order of the keys: a proper prefix comes first, and otherwise the first difference decides |
| Tokenizer.TrimSpaces | src/cmd_target.cc:200-215 | both in-place loops remove exactly the outer spaces |
| Tokenizer.Split | src/cmd_target.cc:178-198 | the shrinking loop returns the polished pieces of the whole text, or its words for the separator space |
| Tokenizer.ConverterSplit | src/converter.h:22 | the shrinking loop returns the polished pieces with the exact treatment of an empty end |
| Tokenizer.TokensExact | src/cmd_target.cc:178-198 | no token for "", else one more than there are separators; each is the piece without leading spaces, the last also without trailing ones |
| Tokenizer.WordsOfJoin | src/cmd_target.cc:178-198 | splitting at a space gives back any list of words from their space-joined text |
| Tokenizer.WordsKeepText | src/cmd_target.cc:178-198 | for every text the words are non-empty, hold no space, and together hold all other characters in order |
| Tokenizer.WordsExact | src/cmd_target.cc:178-198 | the words of two texts with a space between them are those of the one and then of the other, and a text without spaces is one word; this determines the words of every text |
| Tokenizer.ConverterTokensOfPieces | src/converter.h:22 | joined pieces without leading spaces come back, up to the treatment of an empty end |
| Escape.EncodeData | src/ick_storm_service_socket.cc:156-175 | the loop computes the encoding |
| Escape.DecodeData | src/control_object.cc:350-373 | the loop computes the left-to-right decoding, and fails with out of range exactly on "%" |
| Escape.EncodeExact | src/ick_storm_service_socket.cc:156-175 | the first character decides: a colon becomes "%3A", a comma "%2C", any other stays |
| Escape.DecodeExact | src/control_object.cc:350-373 | the two triplets become colon and comma, and any character but the percent sign stays |
| Escape.RoundTrip | src/ick_storm_service_socket.cc:156-200 | for every text: decoding its encoding gives it back if and only if it holds neither "%3A" nor "%2C" and is not "%" |
| Escape.RoundTripLength | src/ick_storm_service_socket.cc:177-200 | the decoded encoding is shorter by two for each such occurrence |
| Escape.EncodedIsFree | src/ick_storm_service_socket.cc:156-175 | encoded text holds no ':' and no ',', and no other character that was not there or in a triplet |
| Conversions.AtoiShow | src/converter.h:14 | `atoi` reads back every integer that `convertToString` writes |
| Conversions.AtoiReads | src/cmd_target.cc:120-121 | blanks, at most one sign and digits, followed by anything that is no digit, read as the signed number of the digits |
| Conversions.AtofReads | src/cmd_target.cc:144-145 | the same for a decimal text: its whole part plus its fraction, signed |
| Conversions.PointMoves | src/cmd_target.cc:150-151 | a decimal point one digit further on multiplies by ten, which with `AtofShow` fixes the fraction |
| Conversions.AtofShow | src/converter.h:14 | `atof` reads back every printed integer, with or without a point behind it |
| Services.ServiceInfo.AddServiceParam | src/service_info.cc:15-32 | the name is declared with the number of names before the call as index and the type its text stands for, anew if it was declared before; an invalid type changes nothing and throws |
| Services.TypeOfExact | src/service_param.cc:22-40 | "I" and "int", "D" and "double", "S" and "string" are the three types, and every other text is refused |
| Services.ServiceInfo.InsertParamInfo | src/control_object.cc:331-348 | the parameter is declared and a copy of the info replaces the service's entry or is appended |
| Services.PutPlace | src/control_object.cc:331-348 | an entry of the name keeps its place, a new name goes to the end |
| Services.ServiceInfo.InsertServiceInfo | src/control_object.cc:291-309 | a copy of the info is appended unless the service is listed |
| Services.ListedPlace | src/control_object.cc:291-309 | a new entry goes behind the others and is what its name then finds; an old one stays what it was |
| Services.IndexedOnceIffDistinct | src/service_info.cc:15-32 | after any declarations the indices are 0 to n-1, one each, if and only if no name was declared twice |
| Services.RepeatedDropsArgument | src/control_object.cc:129-151 | if a name was declared twice, some argument position of a call with the right count belongs to no parameter |
| Services.DistinctDeclarations | src/service_info.cc:15-32 | distinct declarations: parameter i has index i, its own type and name |
| Services.ControlObject.RegisterList | src/control_object.cc:311-325 | the list of a class replaces any earlier one |
| Services.ControlObject.RegisterService | src/control_object.cc:230-261 | the entry is appended to the class's list, a new list if there is none |
| Services.ControlObject.FindServiceInfo | src/control_object.cc:97-109 | the first entry of the service name in the class's list |
| Services.FoundIff | src/control_object.cc:97-109 | none exactly if no entry has the name, otherwise the one with no other before it |
| Services.ControlObject.StoreArgument | src/control_object.cc:131-151 | the inner loop stores the converted text in the first declared parameter with that index, or throws |
| Services.SlotExact | src/control_object.cc:131-151 | the parameter an argument goes to is the one of that index with the least name, none exactly if no parameter has the index |
| Services.StoreKeeps | src/control_object.cc:135-149 | an argument goes into the value field of the parameter's type, a string as it is, and changes nothing else of the parameter |
| Services.ControlObject.Call | src/control_object.cc:86-153 | each failure with what it leaves; without a service entry or its info nothing runs and no parameter changes; success runs the service exactly once on the filled parameters; no other service is touched |
| ServiceTables.TableHolds | src/control_object.cc:291-348 | however the declaration macros of a class's services are interleaved, its table holds for each service exactly the parameters declared for it, in order |
| ServiceTables.AppendFinds | src/control_object.cc:230-243 | an appended entry is found only if no earlier one has the name |
| ServiceTables.DeclaredServiceExecutes | src/control_object.cc:311-325 | a service so declared, without repeated names, executes on as many clean arguments with argument i in the parameter declared i-th |
| ArgumentPassing.TokensOfArguments | src/control_object.cc:120-120 | `call` sees one token per argument, each the encoding of the trimmed argument |
| ArgumentPassing.FillStores | src/control_object.cc:129-151 | when the tokens decode, filling stores text i in the i-th declared parameter |
| ArgumentPassing.ArgumentsArrive | src/control_object.cc:86-153 | as many clean arguments as distinctly named parameters: the call executes with argument i, converted, in the i-th parameter and all other parameters as before |
| ArgumentPassing.OneFieldChanges | src/control_object.cc:135-149 | and of a parameter the service had, only the value of the declared type changes; one it did not have starts blank |
| ArgumentPassing.StringsArriveIffClean | src/control_object.cc:86-153 | for string parameters exactly: the arguments arrive if and only if they are clean (no outer space that is trimmed, no "%3A", "%2C", "%", not the single empty text) |
| ArgumentPassing.WrongCountIff | src/control_object.cc:120-127 | the call is refused for its count if and only if the number of arguments, the single empty text counting as none, is not the number of declared parameters; then no parameter changes and nothing runs |
| ArgumentPassing.ThrowsIff | src/control_object.cc:129-141 | with the right count, decoding throws exactly if some token is "%"; the tokens before the first such one have been stored by then |
| AnyDeclarations.CallExact | src/control_object.cc:120-153 | any declarations, repeated names included: refused exactly for the count, throwing exactly if an argument that goes to a parameter does not decode, executing otherwise; then a parameter that no argument goes to is as before, and any other holds its own |
| Wire.ParseOfBody | src/ick_storm_service_socket.cc:38-38 | the server reads back the request that was written if and only if service name and parameters are not both empty |
| Wire.CallsOfBodies | src/ick_storm_service_socket.cc:72-106 | the messages of a conversation parse to its requests in order, heart beats left out |
| Wire.ParseExact | src/ick_storm_service_socket.cc:72-106 | which messages are calls, heart beats or malformed, and which piece is object, service and parameters |
| Wire.BodyText | src/ick_storm_service_socket.cc:38-38 | the text of a request: keyword, object, service and parameters between colons |
| ReceiveLoop.CarryKeptIff | src/ick_storm_service_socket.cc:71-122 | a full receive with d messages and a tail keeps the tail if and only if d is 1, or the tail is as long as the previous carry, or there was no carry and d is odd; otherwise it carries nothing |
| ReceiveLoop.CarryOverExact | src/ick_storm_debugger_socket.cc:35-63 | the same as one statement about both loops, for tokens that end in an incomplete tail: the debugger socket always keeps it, and both handle all messages before it in order |
| ReceiveLoop.FairReceive | src/ick_storm_service_socket.cc:61-124 | one fair receive handles the complete messages and carries the rest |
| ReceiveLoop.WholeIffFair | src/ick_storm_service_socket.cc:61-124 | and conversely: any receive that fits handles exactly the complete messages and carries the rest if and only if it is fair and, for the service socket, one whose tail it keeps |
| ReceiveLoop.FullBehindSemicolon | src/ick_storm_debugger_socket.cc:39-57 | a receive that fills the buffer right behind a semicolon: every complete message but the last is handled, and the debugger socket carries that one without its semicolon |
| ReceiveLoop.Reassembled | src/ick_storm_service_socket.cc:61-124 | over any run of fair receives the messages handled are exactly the complete messages of the text so far, and the carry is the rest |
| ReceiveLoop.ReassembledIff | src/ick_storm_debugger_socket.cc:35-63 | and conversely, for both loops: that holds after every receive of a run if and only if every receive is fair |
| ServiceSocket.Client.AddService | src/ick_storm_service_socket.cc:131-140 | the request joins the queue; history remains sent plus queue |
| ServiceSocket.Client.SendAll | src/ick_storm_service_socket.cc:34-43 | the queue is sent up to the first failure, which stays at the head; the requests sent followed by the queue remain the whole history in order, and the text on the wire is theirs |
| ServiceSocket.Client.SendQueue | src/ick_storm_service_socket.cc:29-52 | queue, then a heart beat if one is due; the mutex stays locked exactly after a failed send |
| ReceiveLoop.ShortReceive | src/ick_storm_service_socket.cc:61-124 | a receive that does not fill the buffer: its last piece is handled as a whole message, whatever it ends with, and nothing is carried |
| ReceiveLoop.ShortReceivesIff | src/ick_storm_debugger_socket.cc:35-63 | over any run of short receives of a stream both loops handle exactly its complete messages if and only if every receive ends behind a semicolon |
| ReceiveLoop.WholeMessagesAreFair | src/ick_storm_service_socket.cc:61-73 | receives that end on ';' without filling the buffer are fair for both loops |
| ServiceSocket.HandleMessage | src/ick_storm_service_socket.cc:74-106 | a message causes one acknowledgement and the call it parses to, or neither; no call if the acknowledgement cannot be sent; `AckReads` says what it reads |
| ServiceSocket.AckReads | src/ick_storm_service_socket.cc:84-84 | for names without colon and semicolon the acknowledgement is one complete message that, cut at the colons, reads RunService, Success, object name, service name |
| ServiceSocket.MessageLoop | src/ick_storm_service_socket.cc:71-123 | the loop with the carry update inside it: the carry, the buffer and the calls after all its turns, or after those before a failed acknowledgement |
| ServiceSocket.ServeRequests | src/ick_storm_service_socket.cc:55-125 | over any run of receives and failed acknowledgements the 4096-character buffer loop makes exactly the calls of the specified run, one acknowledgement each |
| ServiceSocket.OldTextShowsIff | src/ick_storm_service_socket.cc:61-123 | after any run of receives, failed acknowledgements included, the next one is seen behind the carry with what it does not cover of the rest of older text; it is seen alone if and only if it is no shorter than that rest |
| ServiceSocket.ReceiptLeaves | src/ick_storm_service_socket.cc:71-123 | one receive on any such buffer: a completed turn resets it to the carry, otherwise the carry stays and the text is laid over the rest |
| ServiceSocket.RestIsLastTurn | src/ick_storm_service_socket.cc:71-123 | after one more receive nothing of older text is left if and only if it completed a turn |
| ServiceSocket.NoTurnIff | src/ick_storm_service_socket.cc:71-88 | no turn is completed if and only if there is no complete message, or the first is a call whose acknowledgement cannot be sent |
| ServiceSocket.AllSentIsPlain | src/ick_storm_service_socket.cc:61-124 | if every acknowledgement is sent the run is the plain reassembly |
| ServiceSocket.ServeDebugger | src/ick_storm_debugger_socket.cc:27-64 | the same for the loop with the carry update after the messages |
| ServiceSocket.FairIsReceivable | src/ick_storm_service_socket.cc:61-73 | every fair cutting of a stream can be received by both loops |
| ServiceSocket.RequestsArrive | src/ick_storm_service_socket.cc:29-124 | however the sent text is cut into fair receives, the reassembled calls are the requests sent, in order |
| ServiceSocket.ServeConversation | src/ick_storm_service_socket.cc:29-124 | the buffer loop itself, on any fair cutting of any sent items, makes exactly the calls sent, in order, each acknowledged; the acknowledgements, one behind the other, cut into one record per request, in the order sent |
| ServiceSocket.AcksReassemble | src/ick_storm_service_socket.cc:84-86 | any acknowledgements of calls with such names, joined, cut into one such record per call, in order |
| ServiceSocket.ServeDebuggerText | src/ick_storm_debugger_socket.cc:27-64 | the debugger's loop, on any fair cutting, handles exactly the complete messages of its text |
| EndToEnd.CallsArrive | src/ick_storm_service_socket.cc:29-124 | the reassembled calls are those sent with encoded arguments, with heart beats mixed in and any fair cutting |
| EndToEnd.RemoteCallExecutes | src/control_object.cc:86-153 | the i-th remote call executes with argument j, converted, in the j-th declared parameter |
| EndToEnd.ConversationExecutes | src/control_object.cc:86-153 | over a whole conversation, to services that are there or not, exactly the calls that fit execute, once each and in order, each with its own arguments in the parameters of their positions |
| EndToEnd.ServeRemoteCalls | src/ick_storm_service_socket.cc:29-124 | the whole path: the buffer loop makes the calls sent, the acknowledgements read as one record per call, and on any server the calls execute as a conversation does |
| EndToEnd.NumbersArrive | src/converter.h:14 | a number written with `convertToString` is a clean argument and arrives as that number |
| EndToEnd.DecimalsArrive | src/control_object.cc:131-151 | a decimal text is a clean argument and arrives as its whole part plus its fraction, signed |
| HexCodec.ToString | src/protocol.cc:105-123 | the loop prints the text form of the bytes |
| HexCodec.ToBytes | src/protocol.cc:86-103 | the number of bytes stored, each token as decimal and truncated, zeros in the rest of the room, nothing beyond it; all bytes of the text if there is room |
| HexCodec.DecimalToken | src/protocol.cc:97-100 | a printed integer is stored as its residue modulo 256, itself from 0 to 255 |
| HexCodec.HexReaderInverts | src/protocol.cc:105-123 | a hexadecimal reader of the words gives the bytes back; the text form is injective |
| HexCodec.AtoiHexWord | src/protocol.cc:97-100 | what `toBytes` makes of a byte 16h+l: 10h+l if both digits are below ten, h if only h is, else 0 |
| HexCodec.ToBytesInvertsIff | src/protocol.h:74-81 | `toBytes` returns what `toString` printed if and only if every byte is below ten |
| Dispatch.DispatchMsg | src/cmd_target.cc:35-176 | both pointer loops end and give the outcome of the specified lookup and delivery, which the rows below pin down |
| Dispatch.FindIsOverriding | src/cmd_target.cc:38-46 | the lookup resolves as in the map built from the base class up, each class overriding its base |
| Dispatch.NotFoundIff | src/cmd_target.cc:170-175 | "not found" if and only if no class of the chain defines the name |
| Dispatch.DeliversToOverriding | src/cmd_target.cc:38-60 | otherwise the tokens of the parameters are delivered to the overriding entry |
| Dispatch.HandsOverOne | src/cmd_target.cc:114-122 | the types of one parameter: what the handler is given for B, S and I; D is accepted and ignored |
| Dispatch.HandsOverTwo | src/cmd_target.cc:123-134 | the types of two: strings and ints in the order the type names them; the five types with a double are ignored |
| Dispatch.HandsOverThree | src/cmd_target.cc:135-155 | the types of three: what seven of them hand over, in order; fourteen others are ignored |
| Dispatch.Arities | src/cmd_target.cc:47-110 | by name, which types are refused for another count than one, two or three, and which eight are not supported at all |
| Dispatch.InvokesIff | src/cmd_target.cc:44-161 | a handler is called if and only if the overriding entry is callable with the tokens; it is that entry's, with one argument per token |
| Dispatch.ThrowsOrIgnores | src/cmd_target.cc:47-161 | corollary of the two before, for calls that are not made: exactly when the type is rejected, the count is wrong, or the entry is accepted and nothing is called |

`Converter::split` (lines 182-206 of `src/converter.cc`) and the two pairs of `IMutex` bodies (lines
35-47 and 58-64 of `src/mutex.cc`) are modelled from those files, which are not UTF-8 text; the table
cites the declaration or the caller instead.

"Clean" arguments, "covered" kinds and "fair" receives are defined in `ArgumentPassing.Clean`,
`Channels.Covered` and `ReceiveLoop.FairChunk` with `ReceiveLoop.KeptChunk`; "up to date" and "round" in
`ChannelRounds`.

## Left out

- The six channel subclasses: one class tagged by data type and access mode. `m_valid` (`valid` is
  `m_isValid`), time stamps, value info, minimum and maximum are not modelled; no operation here reads
  them.
- The default constructor of `ReadOnlyDouble`, which leaves fields uninitialised.
- Floating-point rounding and NaN: doubles are reals. Integers are unbounded, so overflow in
  `atoi` is not modelled.
- Conversions.Atof: reads decimal fractions only, not exponents, hexadecimal, infinity or NaN.
- Tokenizer.TrimSpaces: requires a text that is not all spaces; on such a text the source reads
  before the start of the string. The same restriction stands wherever a text is split.
- Separators are one character, as in every call in the repository.
- Interleaving.NoChangeMissed: one writer thread, for `ReadWriteDouble` only; memory is sequentially
  consistent and a subscriber does not call back into its channel.
- Interleaving.NoSubscriptionMissed: one client thread. With the lock that does nothing, two clients
  subscribing the same object can both find it unlisted and list it twice; the scan of the list
  and the insertion are one action here.
- WriteOverlap.OverlappingWriteLostIff: one write and one visit of the poll thread; the stores of
  `getValue` itself are one step, and the list of subscribers does not change meanwhile.
- Channels.Channel.SetSimulated: may be called between any operations; the invariant is proved for a
  fixed mode, and `Channels.ModeSwitch` says exactly when no run after a switch loses a change.
- ServiceSocket.ServeRequests: requires receives whose text is not all spaces, as the tokenizer does. A
  call is a record of object, service and parameters; looking the object up is in `EndToEnd.Called`.
- ServiceSocket.ServeDebugger: a receive that leaves no text before the first NUL is excluded; the
  source would index an empty vector.
- ServiceSocket.Client.SendQueue: a send either takes the whole text or fails; partial sends are not
  modelled, and waiting for the mutex that was left locked is a precondition of the next call.
- Services.ControlObject.RegisterService: the static service map, shared by all objects in the source,
  is a field of one object here. A macro with an unknown type throws during static initialisation;
  `ServiceTables.Macro` has recognised types only.
- Services.ControlObject.Call: does not model the threads of `start`, nor the order in which a blank
  parameter entry is created when decoding throws. A blank entry has
  the type int here; the source leaves its type uninitialised.
- EndToEnd.ConversationExecutes: a call that throws while decoding would end the server's handler; the
  conversations here are of calls that do not.
- ObjectManager.ObjectManager.RegisterData: `setFullName` and log lines; node numbers do not change
  after the start; drivers use the `registChannels` of `IDriver`.
- ObjectManager.ObjectManager.StartNamespace: the binding loop only. The later phases, callbacks,
  shutdown and memory lifetime are left out.
- Registration and aliases of control objects, which repeat those of data points.
- Sockets, gRPC, HTTP, MySQL, XML, configuration, logging, timers and audio.
