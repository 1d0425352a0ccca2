# Verified model of mini_ros2

A Dafny model of the parts of mini_ros2 that everything else in it relies on, with proofs about all inputs, all runs and
all interleavings:

- the JSON codec: printer, recursive-descent parser, and the `JsonValue` object with its deep copy and path writes;
- the topic registry: the table with its slot arithmetic, its JSON text in shared memory, and what other processes read there;
- messages: publish, the segment a message is written to, and the copy a subscriber makes;
- event delivery: publishers, the 1024 shared bits and any number of spin loops, one step per lock-protected section;
- the thread pool as a monitor, and the order in which all of these take their mutexes.

Text is `string`, one `char` per byte; every result holds for arbitrary characters. `std::stod` and the way a stream
prints a double are parameters (`Stod`, `Format`), so nothing depends on rounding. Clock readings are parameters.

| files | content |
|---|---|
| `JsonValues` `JsonText` `JsonPrinter` `JsonParser` | values, ordered objects, lexemes, what printing and each parse function return |
| `JsonCodec` | the loops of `json.cpp`, proved against those functions |
| `JsonGrammar` `JsonSound` `JsonComplete` `JsonPrinted` `JsonTheorems` | derivation trees of the dialect, and the parser and the printer related to them |
| `JsonRfc` `JsonBlanks` `JsonEscapes` `JsonErrors` | RFC 8259 written down by itself, and what blanks, first characters, escapes and exceptions are in terms of character codes |
| `JsonHeap` | `JsonValue` as an owning object |
| `EventBits` `TopicTable` `TopicRuns` `TopicWorld` | the shared bits; the table of one manager, runs of calls on it, and subscribing when there are several tables |
| `TopicShm` `TopicText` `TopicAgreement` | the table as text in shared memory, its size, and its readers |
| `PublisherLink` `Messages` `MessageDelivery` | publisher objects and their segments, subscribers, and the message between them |
| `SpinProtocol` `SpinDelivery` `SpinExact` `SpinRound` | the step machine, its theorems, the set-ups that lose nothing, and the loop as code |
| `EndToEnd` | the protocol and the messages together: what a subscriber holds after a run |
| `ThreadPool` `LockOrder` `Deadlocks` | the pool; the mutexes each call takes; which mixes of calls can deadlock |

## What turned out false

Each of these is proved below: with the exact condition under which the code does what it should, or with the runs in
which it does not.

- A publisher object is bound to the segment of its first event. A message of a second event goes there, so the bit of
  the second event is set while its own segment stays as it was (`SecondEventUnheard`, `GoesToItsSegmentIff`).
- Segments are created exclusively: an object whose first event already has a segment throws, and never publishes
  (`FirstPublishDecides`, `Publish`).
- No update of an event is ever lost exactly when one node subscribes to it, once, and its publisher objects use that
  node's manager and publish nothing else (`NothingLostIff`). Otherwise some run from the start loses one: to a second
  node (`SecondNodeLoses`), to stop() between two copies (`StoppedNodeLoses`), to a trigger from another node between
  copy and clear (`RemotePublisherLoses`), to a second event of the object (`SecondEventLoses`).
- `createSubscriber` throws unless the segment is there; if it is, and the node's table does not list the name, the node
  keeps an id that the publishers of its own table never trigger. Those of another table trigger it exactly when the id
  that table has for the name, or gives when it comes to list it, is the same (`SubscribesIff`, `SubscriberHearsIff`,
  `SubscriberHearsLater`). Both cases are reached from the start (`InterleavedSubscriberIsDeaf`, `StaleSubscriberIsDeaf`).
- A message shorter than the first one of its segment is read together with what is left behind it. Anything but a
  number is then not received. An integer is received only if it is 0 and nothing but zeros follow, a double only if it
  makes a token of the same value with what follows (`DeliveredIff`); an integer with digits behind it is received as
  another `int`, or not at all if that does not fit one (`NumbersMix`). So even in a set-up that loses no update,
  and numbers aside, a subscriber ends with the newest message exactly when that is as long as the first one and has at
  least four characters (`HoldsNewestIff`).
- A message longer than the segment with its header is not written. One that exceeds the data area by no more than the
  header's size passes the check, and leaves in the data area as many of its bytes as fit there (`Write`, `Publish`).
- A first message of fewer than four characters never reaches a new subscriber (`TinyFirstMessage`).
- Threads can deadlock exactly when their calls include `createSubscriber` and a spin round of one node, or callbacks that
  publish around a cycle of nodes whose spin rounds serve them; a callback that publishes through the node that serves it
  is such a cycle already (`DeadlocksIff`).
- Different topics can share a name, and so an id: exactly when one of them goes on, after an underscore, with what the
  other's event begins with (`NamesCollideIff`). Two events of one topic never do (`EventsDiffer`).
- A double that prints without point and exponent comes back as something else (`WholeDoubleChanges`).

## Model

| member | source | states |
|---|---|---|
| JsonCodec.EscapeString | src/message/json.cpp:77-92 | the escaping loop computes `Escape`: one more character for each of the seven of the table, and no control character left that has an escape |
| JsonCodec.Serialize | src/message/json.cpp:37-75 | the printer writes `Print` of the value, the text the grammar derives |
| JsonCodec.SerializeArray | src/message/json.cpp:55-62 | the array loop writes the elements in order, separated by commas |
| JsonCodec.SerializeObject | src/message/json.cpp:63-72 | the object loop writes the members in key order |
| JsonCodec.SkipWhitespace | src/message/json.cpp:95-99 | passes over the codes 20, 09, 0A and 0D (hexadecimal) only, and stops at the first other character or at the end |
| JsonCodec.ParseString | src/message/json.cpp:102-150 | the string loop, its escapes and its errors, with NUL one past the end |
| JsonCodec.ParseNumber | src/message/json.cpp:152-205 | the three digit loops, int bounds and the stod branch |
| JsonCodec.ParseArray | src/message/json.cpp:208-241 | the array loop with its separator errors |
| JsonCodec.ParseObject | src/message/json.cpp:244-291 | the member loop; a later duplicate key overwrites |
| JsonCodec.ParseValue | src/message/json.cpp:294-333 | dispatch on the first character |
| JsonCodec.Deserialize | src/message/json.cpp:336-346 | a value and nothing but blanks after it |
| JsonParser.Value | src/message/json.cpp:294-333 | total: on every input it terminates, and a success advances the index and stays within the text |
| JsonSound.ValueSound | src/message/json.cpp:294-333 | every accepted stretch is derived by the grammar, with the value returned |
| JsonComplete.ValueComplete | src/message/json.cpp:294-333 | every derivation whose numbers convert is accepted with its meaning, and fails otherwise |
| JsonSound.DocumentSound | src/message/json.cpp:336-346 | an accepted document has a derivation |
| JsonComplete.DocumentComplete | src/message/json.cpp:336-346 | a derived document succeeds exactly when its numbers convert |
| JsonTheorems.AcceptsExactlyTheGrammar | src/message/json.cpp:95-346 | deserialize returns v exactly when the grammar derives the text with value v |
| JsonTheorems.ConsumesExactlyTheDerivedSpan | src/message/json.cpp:294-333 | parseValue returns (v, j) exactly when the stretch up to j is derived with value v and nothing extends it |
| JsonTheorems.Unambiguous | src/message/json.cpp:95-346 | no text has two values |
| JsonGrammar.LastDuplicateWins | src/message/json.cpp:267-269 | the object of a member list finds under each key its last binding |
| JsonPrinted.Printed | src/message/json.cpp:37-75 | every printed value is derived, at any place in a text, by its own tree |
| JsonTheorems.ParsesInContext | src/message/json.cpp:37-346 | a printed value inside a text is parsed back, ending where it ends, unless the next character extends a number |
| JsonTheorems.RoundTrip | src/message/json.cpp:37-346 | deserialize undoes serialize exactly on the values all of whose doubles read back unchanged |
| JsonTheorems.DoubleFreeRoundTrip | src/message/json.cpp:37-346 | without doubles it always does, for any strings, keys and nesting |
| JsonTheorems.WholeDoubleChanges | src/message/json.cpp:49-51 | a double printed as an integer never comes back |
| JsonTheorems.PrintInjective | src/message/json.cpp:37-92 | different stable values have different texts |
| JsonTheorems.NormalizedIsCanonical | src/message/json.cpp:37-346 | printing what was parsed keeps the value and is idempotent |
| JsonTheorems.PrintIgnoresInsertionOrder | src/message/json.cpp:63-72 | member lists with the same last bindings print the same |
| JsonTheorems.IntegerTokens | src/message/json.cpp:152-205 | sign and digits, leading zeros included, are an Int exactly when the value fits 32 bits; else the exception is invalid_argument within 64 bits and out_of_range beyond |
| JsonTheorems.DoubleTokens | src/message/json.cpp:152-197 | a token with fraction or exponent is a Double of what std::stod makes of all of it, or its out_of_range |
| JsonTheorems.TokenReads | src/message/json.cpp:152-205 | a text that begins as a number, without blanks around it, reads as v exactly when it is one number token of value v |
| JsonRfc.RfcTextsAccepted | src/message/json.cpp:95-346 | texts of RFC 8259, spelled out in character codes with their blanks, without `\u` and `\/`, are accepted with the value they denote exactly when their numbers convert |
| JsonRfc.DigitsByPlaces | src/message/json.cpp:152-205 | any digits, leading zeros included, are worth what their decimal places say |
| JsonBlanks.LeadingBlank | src/message/json.cpp:95-99 | each of the four blanks before any text changes neither value nor exception |
| JsonBlanks.OtherStart | src/message/json.cpp:294-333 | an empty text, or one that begins with a character that is no blank and begins no value, raises invalid_argument |
| JsonBlanks.StartsIff | src/message/json.cpp:294-333 | a character begins some accepted text exactly when it is one of those four blanks or of the codes that begin a value |
| JsonEscapes.EscapesByTable | src/message/json.cpp:77-92 | a character is printed with a backslash and its mark exactly when the table of codes has it |
| JsonEscapes.UnescapesByTable | src/message/json.cpp:102-150 | the parser takes exactly these marks back, for these characters |
| JsonEscapes.EscapedCharacter | src/message/json.cpp:102-150 | a literal of one escape is read as the character of the table, and with no other mark |
| JsonEscapes.RawStrings | src/message/json.cpp:102-150 | any other characters, control characters included, may stand in a literal as they are |
| JsonEscapes.PrintHasNoControl | src/message/json.cpp:37-92 | no printed text contains a backspace, tab, line feed, form feed or carriage return |
| JsonEscapes.PrintAddsNoSpace | src/message/json.cpp:37-75 | a printed text has exactly the spaces of the strings and keys of the value |
| JsonErrors.OutOfRangeShowsNumber | src/message/json.cpp:95-346 | only a text with a number that std::stod refuses, or an integer beyond 64 bits, raises out_of_range |
| JsonValues.ObjectExtensional | include/mini_ros2/message/json.h:342-351 | an object is determined by what its keys find |
| JsonValues.FindPut | include/mini_ros2/message/json.h:342-351 | insertion changes what its own key finds and nothing else |
| JsonValues.LessIff | include/mini_ros2/message/json.h:342-351 | keys are ordered by their first difference, and a key comes before its own extensions |
| JsonHeap.JsonValue.CopyData | src/message/json.cpp:4-28 | the copy has the value of the original and consists of new objects only |
| JsonHeap.JsonValue.Copy | include/mini_ros2/message/json.h:75-77 | the copy constructor yields an equal, wholly new tree |
| JsonHeap.JsonValue.Assign | include/mini_ros2/message/json.h:137-144 | assignment takes the other value, self-assignment included |
| JsonHeap.JsonValue.PushBack | include/mini_ros2/message/json.h:293-298 | appends a copy to an array, even of the array itself; throws otherwise |
| JsonHeap.JsonValue.Slot | include/mini_ros2/message/json.h:342-351 | null becomes an object, a missing key gets a null at its place in key order, other kinds throw |
| JsonHeap.JsonValue.Store | include/mini_ros2/message/json.h:320-351 | a write through any path of `[]` changes the tree as `Stored` says, also when it throws half-way, and succeeds exactly when the path is `Writable` |
| JsonHeap.StoredIff | include/mini_ros2/message/json.h:320-351 | that is: at every index of the path the walk meets an array longer than it, at every key an object, a null or a missing key |
| JsonHeap.ReadableIsWritable | include/mini_ros2/message/json.h:310-351 | what can be read can be written over |
| JsonHeap.FailedWrite | include/mini_ros2/message/json.h:320-351 | a failing write leaves the place it had reached as it was, or null under a key that was missing |
| JsonHeap.StoredFetched | include/mini_ros2/message/json.h:310-351 | a successful write is read back, and no write shows on a path that parts from its own |
| JsonHeap.JsonValue.Fetch | include/mini_ros2/message/json.h:310-340 | the const operators along a path return the value that `Fetched` reads, or throw |
| JsonHeap.JsonValue.IsMember | src/message/json.cpp:30-35 | whether an object finds the key |
| JsonHeap.JsonValue.FromBool | include/mini_ros2/message/json.h:103-105 | the value constructed |
| JsonHeap.JsonValue.FromInt | include/mini_ros2/message/json.h:107-109 | the value constructed |
| JsonHeap.JsonValue.FromDouble | include/mini_ros2/message/json.h:111-113 | the value constructed |
| JsonHeap.JsonValue.FromString | include/mini_ros2/message/json.h:115-121 | the value constructed |
| JsonHeap.JsonValue.FromArray | include/mini_ros2/message/json.h:123-125 | an array of copies of the elements, new objects only |
| JsonHeap.JsonValue.AsBool | include/mini_ros2/message/json.h:236-241 | the bool, or the domain_error for any other kind |
| JsonHeap.JsonValue.AsInt | include/mini_ros2/message/json.h:243-248 | the same for an int |
| JsonHeap.JsonValue.AsDouble | include/mini_ros2/message/json.h:250-255 | the same for a double |
| JsonHeap.JsonValue.AsString | include/mini_ros2/message/json.h:257-262 | the same for a string |
| JsonHeap.JsonValue.Size | include/mini_ros2/message/json.h:300-307 | the number of elements or members, or the domain_error |
| JsonHeap.WriteToCopy | include/mini_ros2/message/json.h:75-77 | writing through a copy leaves the original's value |
| JsonHeap.WriteToOriginal | include/mini_ros2/message/json.h:137-144 | writing to, pushing on and assigning over the original leaves an earlier copy's value |
| EventBits.EventNotification.TriggerEvent | src/communication/event_notification_shm.cpp:141-178 | sets one valid bit |
| EventBits.EventNotification.WaitForEvent | src/communication/event_notification_shm.cpp:180-231 | reports the bits and clears none |
| EventBits.EventNotification.ClearEvents | src/communication/event_notification_shm.cpp:307-328 | clears one bit |
| TopicTable.Registry.FindOrCreateTopicEvent | src/communication/shm_manager.cpp:486-509 | the id found, or a new one whose entry goes to slot count + 1 while the count grows by one |
| TopicTable.Registry.AddSubTopic | src/communication/shm_manager.cpp:358-377 | the same on the table |
| TopicTable.Registry.RegisterTopicEvent | src/communication/shm_manager.cpp:512-520 | the same on the table, with the id returned |
| TopicTable.Registry.AddPubTopic | src/communication/shm_manager.cpp:379-405 | writes slot count once more and counts again |
| TopicTable.Registry.GetTopicEventId | src/communication/shm_manager.cpp:523-535 | the id of the first listed entry of that name, else -1 |
| TopicTable.Registry.IsTopicExist | src/communication/shm_manager.cpp:581-591 | whether an entry of that name is in the scanned range |
| TopicTable.EventsDiffer | src/communication/shm_manager.cpp:488-488 | different events of one topic have different names |
| TopicTable.NamesCollideIff | src/communication/shm_manager.cpp:488-488 | two pairs have one name exactly when they are equal or overlap around an underscore |
| TopicRuns.IdsNeverShared | src/communication/shm_manager.cpp:358-535 | over any mix of calls, two that obtain the same id were made with the same name |
| TopicRuns.LookupStable | src/communication/shm_manager.cpp:486-535 | a name once found is found with the same id after any further calls |
| TopicRuns.ExistsAgreesWithLookup | src/communication/shm_manager.cpp:523-591 | isTopicExist and getTopicEventId agree in every reachable table |
| TopicRuns.CreatedIsFoundIff | src/communication/shm_manager.cpp:486-509 | a name just created is found exactly when it was listed or left over just past the range |
| TopicRuns.PublishedIsFound | src/communication/shm_manager.cpp:379-405 | addPubTopic always makes the name visible, with the id it obtained unless a leftover comes first |
| TopicRuns.SubscriberHearsPublisherIff | include/mini_ros2/node.h:80-90 | of the two registrations: the id kept is the one that publishers with the same table trigger later exactly when the name was listed, or left over, before; a full table that does not list it gives -1 |
| TopicRuns.FirstSubscriberIsDeaf | include/mini_ros2/node.h:80-90 | of the two registrations: on a fresh table they keep 2, and lookups find 1 |
| TopicWorld.SubscribesIff | include/mini_ros2/node.h:71-90 | createSubscriber throws and changes nothing exactly when the segment does not exist; else it keeps the id its table leads to |
| TopicWorld.SubscriberHearsIff | include/mini_ros2/node.h:71-90 | whatever follows, publishers with the same table trigger the kept id exactly when that table listed the name, or had it left over, unless it was full; publishers whose own table lists it exactly when their id is the kept one |
| TopicWorld.SubscriberHearsLater | include/mini_ros2/node.h:71-90 | publishers of another manager, whose table comes to list the name only after the subscription, trigger the kept id exactly when that table gives it at the call that lists the name |
| TopicWorld.InterleavedSubscriberIsDeaf | include/mini_ros2/pubsub/publisher.h:44-54 | a subscription between Create and addPubTopic of the first publish keeps 2, and the publisher triggers 1 |
| TopicWorld.StaleSubscriberIsDeaf | include/mini_ros2/node.h:71-90 | a subscription with a table read before the first publish keeps 2, and the publisher triggers 1 |
| TopicRuns.PublishFitsIff | include/mini_ros2/pubsub/publisher.h:51-54 | guarded publishes fit the table exactly when at most 512 names differ |
| TopicRuns.PublishedIds | include/mini_ros2/pubsub/publisher.h:51-54 | the k-th distinct name keeps id 2k + 1, and only the 512th takes the reserved bit |
| TopicShm.ShmBase.Write | src/communication/shm_base.cpp:89-131 | succeeds exactly with a mapping and within data area and header; then overlays what fits the data area and updates the time, else changes nothing |
| TopicShm.ShmBase.Read | src/communication/shm_base.cpp:169-207 | the bytes of the data area in the range, or the exception |
| TopicShm.ShmManager.WriteTopicsInfo | src/communication/shm_manager.cpp:279-295 | the segment begins with the table's text, without a NUL, and is otherwise as before; it throws for a text that exceeds it |
| TopicShm.ShmManager.WriteRegistry | src/communication/shm_manager.cpp:346-351 | the topic text from the beginning of the segment on, and the node text from the end of the topic region on; what is written when one of them throws |
| TopicShm.ShmManager.AddSubTopic | src/communication/shm_manager.cpp:358-377 | table and whole segment (`Image`) after one call; only the node text is written |
| TopicShm.ShmManager.AddPubTopic | src/communication/shm_manager.cpp:379-405 | table and whole segment (`Image`) after one call, node text included, also when a write throws |
| TopicShm.ShmManager.EnsurePublished | include/mini_ros2/pubsub/publisher.h:51-54 | the same under the isTopicExist guard, which leaves both alone for a listed name |
| TopicShm.ShmManager.RegisterTopicEvent | src/communication/shm_manager.cpp:512-520 | table and whole segment (`Image`) after one call; nothing is written without a valid id or when the write throws |
| TopicShm.ImageByBytes | src/communication/shm_manager.cpp:346-351 | byte by byte: node text at 4 + 1024 * 68, topic text at 0, and the old bytes elsewhere |
| TopicShm.ShmManager.ReadTopicsInfo | src/communication/shm_manager.cpp:131-167 | the cache becomes `Recover` of the text before the first NUL; every exception leaves a count of 0 |
| TopicText.EntryIsStored | src/communication/shm_manager.cpp:286-289 | an entry's JSON is what the two path writes make of a null |
| TopicText.TableIsStored | src/communication/shm_manager.cpp:279-290 | the table's JSON is what all the path writes of the writer build from null |
| TopicText.RecoveredIff | src/communication/shm_manager.cpp:131-167 | any text: the count becomes the announced one, with these entries, exactly when each has both fields with their types, else 0 |
| TopicText.FieldIsFetched | src/communication/shm_manager.cpp:151-158 | a field read from the text is what the operators read along its path |
| TopicText.CStringIs | src/communication/shm_manager.cpp:139-139 | the text read ends at the first NUL |
| TopicText.TextGrows | src/communication/shm_manager.cpp:279-295 | the text of a table that keeps all entries of another is at least as long |
| TopicText.TextNulFree | src/communication/shm_manager.cpp:279-295 | no text contains a NUL |
| TopicText.TextRecovers | src/communication/shm_manager.cpp:131-167 | reading the text of a table recovers its entries over any cache |
| TopicAgreement.NodesLieBehind | src/communication/shm_manager.cpp:346-351 | where the region shows a topic text, it still does with any node text written behind it |
| TopicAgreement.ReaderAgrees | src/communication/shm_manager.cpp:131-167 | at any point of one writer's run, which writes any node texts besides, a reader recovers the last written table, and registering a name found there gives the id the writer triggers |
| TopicAgreement.SyncedSubscriberHears | include/mini_ros2/node.h:80-90 | a subscription made with the recovered table keeps the id the writer triggers |
| TopicAgreement.OddTextFits | include/mini_ros2/communication/shm_manager.h:18-30 | with up to 512 names of at most 63 characters when escaped the text is shorter than the topic region |
| TopicAgreement.PublishedNamesReachReaders | include/mini_ros2/pubsub/publisher.h:51-61 | from guarded publishes alone, of names with at most 63 characters when escaped, every reader obtains the triggered id of every published name |
| TopicAgreement.CallAll | src/communication/shm_manager.cpp:358-535 | any calls of one manager leave in memory the table and the segment of these theorems |
| TopicAgreement.WriteThenRead | src/communication/shm_manager.cpp:131-167 | after any calls of a writer, another manager on the segment that reads the table finds exactly the names listed at the last write, and registering one returns the id of the writer's getTopicEventId |
| TopicAgreement.PublishThenRead | include/mini_ros2/pubsub/publisher.h:51-61 | after the guarded publishes of any events with names of at most 63 characters when escaped, it finds each, and registering it returns the id that the writer triggers |
| Messages.Subscriber.GetMessage | include/mini_ros2/pubsub/subscriber.h:132-143 | the message becomes what the whole segment parses to, and stays on every exception |
| Messages.Subscriber.CreateTaskFromSubEvent | include/mini_ros2/pubsub/subscriber.h:124-129 | the closure to be enqueued works on a copy of that message, which later publishes do not change |
| Messages.SegmentDirectory.Create | src/communication/shared_memory.cpp:13-42 | exclusive: a taken name leaves an object without a mapping and the other segment alone |
| PublisherLink.FirstPublishDecides | include/mini_ros2/pubsub/publisher.h:44-48 | over any publishes of an object: it has a segment exactly when none of its first event's name existed then, and keeps that one |
| Messages.Publisher.Open | include/mini_ros2/pubsub/publisher.h:44-48 | only an unused object creates a segment; what it is left with when that throws |
| Messages.Publisher.Send | include/mini_ros2/pubsub/publisher.h:51-61 | registers, writes, triggers the id found; what is done and what is not when the registration or the write throws |
| Messages.Publisher.Publish | include/mini_ros2/pubsub/publisher.h:37-65 | which exception, if any, and table, segment and bits after it; an object without a mapping publishes nothing and changes neither bits nor segment |
| Messages.PublishAll | include/mini_ros2/pubsub/publisher.h:37-65 | over any publishes of one object, with segments of others created in between, it is left with what `AttachAll` tells, and some publish ends well only if that is a segment of its own |
| Messages.Subscriptions.CreateSubscriber | include/mini_ros2/node.h:65-96 | throws before the table when the segment does not exist; else registers twice and keeps the second id |
| MessageDelivery.ReadsBackIff | include/mini_ros2/message/message_serializer.h:41-51 | after any messages the segment reads as the last one exactly when that is as long as the first, or is 0 with nothing but zeros behind it, or is a double that makes a token of the same value with what is behind it |
| MessageDelivery.DeliveredIff | include/mini_ros2/pubsub/subscriber.h:132-143 | a subscriber that does not hold it yet receives it exactly then, if what it holds is no longer than the segment; else it keeps what it holds, unless the last is an integer or a double whose token is continued |
| MessageDelivery.RestRefused | src/message/json.cpp:336-346 | a printed text followed by a rest that does not end in a blank and does not continue a number is refused |
| MessageDelivery.TinyFirstMessage | include/mini_ros2/message/message_serializer.h:41-51 | a segment of fewer than four bytes delivers nothing to a new subscriber |
| MessageDelivery.IntWithRest | src/message/json.cpp:152-205 | an integer text with a solid rest reads back as itself exactly when it is 0 and the rest zeros |
| MessageDelivery.NumbersMix | include/mini_ros2/pubsub/subscriber.h:132-143 | after any messages, a shorter integer with digits behind it is received as the number they form together, further from 0, if that is an int, and else not at all |
| SpinProtocol.NextValid | src/node.cpp:148-260 | every step keeps that a round processes only subscribed events of its snapshot |
| SpinDelivery.StepKeeps | src/node.cpp:164-240 | a step loses no message unless it is a late trigger, a stop that leaves a subscription with an older message, or a message gone astray |
| SpinDelivery.LossIsConfined | src/node.cpp:164-240 | with one subscribing node, in every run without these steps each subscription has the newest triggered message or the bit is set |
| SpinDelivery.NoLostUpdate | src/node.cpp:179-235 | in process, where triggers need the registry mutex, and with objects used for this event alone: nothing is lost in any run whose stops leave no subscription with an older message |
| SpinDelivery.OnceUninterrupted | src/node.cpp:276-288 | stop() is harmless where the node subscribes to the event once |
| SpinDelivery.GoesToItsSegmentIff | include/mini_ros2/pubsub/publisher.h:44-55 | a message reaches the segment of its event exactly when the object was first used for it, or is unused while there is no such segment |
| SpinDelivery.SecondEventUnheard | include/mini_ros2/pubsub/publisher.h:44-61 | else that segment stays as it was while the bit is set, and shows an older message than was triggered |
| SpinDelivery.LateTriggerLoses | src/node.cpp:202-232 | after a late trigger the rest of the round loses the message |
| SpinDelivery.InterruptLoses | src/node.cpp:207-232 | so it does after a stop that leaves a subscription with an older message |
| SpinExact.NothingLostIff | src/node.cpp:164-240 | over all runs from the start: no update of a subscribed event is ever lost exactly when one node subscribes to it, once, and its objects use that node's manager and no other event, or nobody publishes it |
| SpinExact.SecondNodeLoses | src/node.cpp:229-232 | any set-up with two subscribing nodes has a run in which the second, waiting, loses the message |
| SpinExact.StoppedNodeLoses | src/node.cpp:207-232 | any set-up with two subscriptions in one node has a run in which stop() loses one |
| SpinExact.RemotePublisherLoses | src/node.cpp:202-232 | any set-up with an object on another node has a run with a losing late trigger |
| SpinExact.SecondEventLoses | include/mini_ros2/pubsub/publisher.h:44-55 | any set-up with an object for two events has a run in which the second takes the place of the first |
| SpinDelivery.ClearsOnlyProcessed | src/node.cpp:227-239 | a bit a round did not process is never cleared, except the reserved one |
| SpinDelivery.NoSpuriousDelivery | src/node.cpp:164-235 | for any number of nodes and publishers, tasks for a subscription never exceed the triggers of its event |
| SpinRound.Node.ScanSubscriptions | src/node.cpp:186-225 | one task per subscription whose bit was set, in order, and the ids to clear |
| SpinRound.Node.ClearProcessed | src/node.cpp:227-232 | clears exactly those ids |
| SpinRound.Node.SpinOnce | src/node.cpp:164-239 | one round: its tasks, and all bits but the subscribed and the reserved ones left |
| SpinRound.TasksAre | src/node.cpp:186-225 | each task of a round belongs to a subscription whose bit was set, with what its segment shows |
| SpinRound.TasksInOrder | src/node.cpp:186-225 | they come in the order of the subscriptions, never two for one |
| SpinRound.TaskFor | src/node.cpp:186-225 | and every subscription whose bit was set has one |
| SpinRound.UndisturbedRound | src/node.cpp:151-239 | a run of the node's own loop steps alone does what the code's round does |
| SpinRound.RoundDelivers | src/node.cpp:151-239 | from a state in which nothing is lost and the segment is current, the node's own steps alone hand over the newest triggered message |
| EndToEnd.RunTold | src/node.cpp:179-225 | in a set-up that loses nothing, after any run, the subscriber holds the message of the version last copied to it, if that version can be received at all |
| EndToEnd.HoldsNewestIff | include/mini_ros2/pubsub/subscriber.h:118-143 | over all runs from the start of such a set-up: once all messages are written and triggered, none a number, and the bit is clear, the subscriber holds the last one exactly when it is as long as the first and has at least four characters |
| ThreadPool.PoolConserves | include/mini_ros2/thread_pool.h:19-33 | in every interleaving, started followed by queued tasks are the enqueued ones in order, each started one is finished or running, and every queued task has a wake-up on its way while a worker sleeps |
| ThreadPool.LastExitFinishesAll | include/mini_ros2/thread_pool.h:61-72 | when the last worker leaves, the finished tasks are exactly those enqueued so far |
| ThreadPool.LateTasksNeverRun | include/mini_ros2/thread_pool.h:74-80 | what is enqueued after that stays in the queue for ever |
| ThreadPool.NotStuck | include/mini_ros2/thread_pool.h:23-32 | with a queued task or a stop request, some worker can go on or be woken |
| ThreadPool.WorkIsBound | include/mini_ros2/thread_pool.h:21-33 | every worker step uses up one unit of the work |
| ThreadPool.StopBegins | include/mini_ros2/thread_pool.h:61-72 | the first stop() of a pool with workers, after any run, leads to a stopping state |
| ThreadPool.StopReturns | include/mini_ros2/thread_pool.h:61-72 | once stopping (see `StopBegins`), any worker steps can be continued to exactly Work(s) in all, after which all workers have left, the queue is empty and every task has finished |
| ThreadPool.Pool.EnqueueTask | include/mini_ros2/thread_pool.h:74-80 | the locked section of enqueue |
| ThreadPool.Pool.RequestStop | include/mini_ros2/thread_pool.h:62-66 | the locked section of stop |
| ThreadPool.Pool.TakeOrLeave | include/mini_ros2/thread_pool.h:23-31 | the locked section of a worker: leave, sleep or take the front |
| ThreadPool.Pool.WorkerLoop | include/mini_ros2/thread_pool.h:21-33 | alone, a worker runs the whole queue in order, then leaves if stopping and else sleeps |
| LockOrder.NeatCall | src/node.cpp:179-240 | every call, the ones that can deadlock included, takes each mutex only within those its mix allows (`Edge`), and gives all back |
| LockOrder.EdgesRise | src/node.cpp:179-240 | without set-up and publishing callbacks these follow one order: registry, node, subscriber, and then the rest |
| Deadlocks.DeadlocksIff | src/node.cpp:179-240 | threads, any number of them, making calls of a mix in any order and interleaving can come to wait for each other in a cycle exactly when the mix sets a node up while it spins, or its callbacks publish around a cycle of nodes that serve them |
| Deadlocks.CycleShowsMix | src/communication/shm_manager.cpp:538-550 | a cycle of waiting in any state that can be reached shows one of these |
| Deadlocks.SetUpDeadlocks | include/mini_ros2/node.h:77-83 | a set-up and a spin round of one node can reach such a cycle |
| Deadlocks.CallbacksDeadlock | include/mini_ros2/pubsub/subscriber.h:118-129 | so can the spin rounds and the callbacks of any cycle of nodes, one node included |
| Deadlocks.SomeoneCanStep | src/node.cpp:179-240 | in a mix without either, no cycle in any reachable state, and some thread can go on as long as one has work left |
| Deadlocks.DeadlockFree | src/node.cpp:179-240 | the same where nothing is set up while spinning and no callback publishes |
| Deadlocks.CycleIsForEver | include/mini_ros2/node.h:77-83 | the threads of a cycle never move again, whatever the others do |
| Deadlocks.RoundHolds | src/node.cpp:179-235 | from its first copy to its last clear a spin round holds the registry's mutex |
| Deadlocks.NoTriggerInRound | src/communication/shm_manager.cpp:538-550 | so in no reachable state is another thread about to trigger through that node meanwhile, which is the guard of a trigger in the protocol |

## Left out

- Double values: `std::stod` and stream formatting are arbitrary functions; the format must write a number token, which a finite double does. NaN and infinities are not modelled.
- Exceptions of the parser keep their type and lose their message.
- JsonHeap.JsonValue.Assign: the argument is the value itself or shares nothing with it; the original destroys the old elements before it copies an argument that is one of them or contains them.
- JsonHeap.JsonValue.Store: the argument contains no value on the path, and is not inside the value written to; the original then reads what it has just destroyed. Any other part of the same tree is allowed.
- Move construction and move assignment: they hand over ownership and leave the source null. Construction from a map, and assignment from plain values, which are a construction and an assignment.
- The escapes `\u` and `\/` of RFC 8259: the parser refuses them, as `EscapedCharacter` says.
- TopicTable.Registry.FindOrCreateTopicEvent: a new name at a count of 1023 is excluded; the original writes slot 1024 of 1024.
- TopicTable.Registry.AddSubTopic: the same.
- TopicTable.Registry.RegisterTopicEvent: the same.
- TopicTable.Registry.AddPubTopic: a new name at a count of 1023 or more, and any name at 1024, are excluded; the original writes past the array.
- TopicShm.ShmBase.Write: what a write that passes the check leaves behind the data area is not modelled.
- TopicShm.ShmBase.Read: the bytes that a read takes from behind the data area are not specified.
- TopicShm.ShmManager.ReadTopicsInfo: a text that announces a negative count or more entries than the table has is excluded; the original writes out of bounds.
- Messages.Publisher.Send: a new name on a table that is too full is excluded.
- Messages.Publisher.Publish: the same; the message is given by its serialized text.
- Messages.Subscriptions.CreateSubscriber: a registration that would write slot 1024 is excluded; on a table that is already full it keeps -1, as the original does.
- Messages.PublishAll: the table has two free slots for each publish.
- TopicAgreement.WriteThenRead: the writer's calls stay inside the table, and each topic text written is shorter than the topic region.
- Names of 64 bytes or more and names with a NUL: the name buffers are not modelled as arrays of 64 bytes.
- Several processes that write the topic table from stale caches: agreement is stated for one writer.
- The node table: its text is a parameter; heartbeats and removal are left out but for the trigger of the reserved bit.
- MessageDelivery.DeliveredIff: messages longer than the first of their segment, which are cut off or not written; every last message must be one that reads back from its own text.
- EndToEnd.HoldsNewestIff: numbers among the messages, which can be received as other numbers; `DeliveredIff` and `NumbersMix` cover them for one copy. The last message is not null, which a subscriber holds from the beginning.
- Message types other than JsonValue, which are copied byte by byte.
- Torn reads: one copy of a message is one step of the protocol, although the original copies without the segment's mutex.
- SpinDelivery.NoLostUpdate: subscriptions are fixed before spinning and their ids are the ones publishers trigger; when they are is the subject of `SubscriberHearsIff`. The reserved event is excluded.
- Two threads in the first publish of one object at once, and the end of a publisher object, which removes its segment's name: in the protocol an object attaches in one step and lives as long as the run.
- Whether a task that stop() drains or a late enqueue is run is stated for the pool only, not together with the spin loop.
- The registry synchronisation in the spin loop: the protocol keeps its steps and the clearing of the reserved bit, not its effect on the tables.
- Timers beyond their mutexes and enqueues, executor, service and client, socket registry, epoll event manager, signal handling, logging.
- Joining: stop() waits for workers to leave; that wait is not a mutex and is covered by `StopReturns` alone.
