# A verified model of Zenbedded

Zenbedded connects a microcontroller to a ROS 2 host over Zenoh: robot state goes up, commands go
down. This project models the code that decides what the bytes on the wire are and who sees them
when, from the CDR templates up to the control loops of the inverted pendulum demo, and proves what
that code promises. It is self-contained Dafny 4.11; `dafny verify dfyconfig.toml` checks all of it.

## How it is built

- **The Tier 1 codec.** `Cdr` is a plain sequential CDR_LE encoder and decoder (section 15.3 of CORBA
  3.0.3 with the encapsulation header of section 10 of DDSI-RTPS) and serves as the reference.
  `Serialization` is the code's "lay out once, patch later" codec over byte arrays, and
  `CdrConformance` proves the two agree, and exactly when they do not.
- **The double buffer.** `DoubleBuffer` holds the class with its sequential contract and the same code
  as a machine in which every byte the writer stores and every byte a reader copies is a step of its
  own.
- **The client.** `StateChannel`, `RawChannel` and `CommandChannel` run the codecs over that machine,
  `StatePath` follows a Tier 2 state to the host; `Client` is the object with its fields, `Pacing` the
  control thread's clock arithmetic.
- **The transport.** `Transport` gives the meaning of every call on the reference count, the two pools
  and the entities declared with Zenoh; `ZenohTransport` is the code, step by step under its re-entrant
  mutex, proved equal to it. `KeyExpr` prints the key expressions and takes them apart again.
- **The schema.** `Schema` is the C++ parser, `StructHeader` both header generators, `FieldAccess` the
  field accessors, `HardwareModel` and `ZenbeddedHardware` the host's hardware component.
- **The pendulum.** `FirmwareModel` and `FirmwareLoop` (watchdog, integrator, travel limit, stepper),
  `Encoder` (angle and velocity filter), `Controller` (mode machine and ramp), `MockPlant` and
  `MockPendulumHardware` (the simulated plant) and `PendulumEnergy` (what a substep and the swing-up do to
  its energy), all over the reals with `RealMath`'s rounding functions.

Classes carry the fields the code updates; their methods are proved against functions on values, and
the theorems about runs and interleavings are lemmas about those functions. What the outside world
decides (whether Zenoh or a driver call succeeds, when threads run, noise, clocks, what controllers
command) is a parameter, so every theorem holds for all of its choices.

Where the code and its comments differ the model follows the code:

- With no joints the codec still pads to eight after the count of an empty array, which CDR does not;
  the conformance lemmas say exactly when that shows.
- `wrap_angle` is described as mapping to the closed interval from -pi to pi, but never returns -pi.
- The controller's header comment has balancing start at `|q2| <= catch_angle`; the code asks for less
  than.
- The command timeout is described as 200 ms; the last command acts in the cycle that accepts it and in
  20 more, and the stop happens in the 21st silent cycle.
- `accepted_command_count` is called monotonic; it wraps at 2^32 and every `init` resets it.

Behaviours the proofs bring out, each with its exact condition or the run that shows it:

- A reference count that wraps leaves the session open with a count of zero, and destroys are ignored
  then (`Transport.CountKeptUnlessItWraps`, `Transport.WrappedCountLosesTheSession`).
- A client's `destroy` gives its pool entries back only when it drops the last reference
  (`Client.DetachFreesOnlyWithTheLastReference`), and a refused `init` may leave a publisher entry taken
  (`Client.RefusedAttachMayKeepAPublisher`).
- An old handle whose slot was reused undeclares the new owner's entity
  (`Transport.UndeclarePublisherOutcome`, `Transport.ReusedPublisherHandleTakesTheNewOwner`).
- A command accepted after `init` but before the control loop stores its first count is counted and
  never read, unless another one follows; apart from that only a counter that comes round by 2^32
  between two polls can hide an update (`CommandChannel.AnEarlyCommandIsNeverRead`,
  `CommandChannel.OnlyEarlyCommandsAreOutOfReach`, `CommandChannel.AnUpdateCanBeLost`).
- The announced topic differs from the published one when it starts with two slashes or contains `%`
  (`KeyExpr.ReadingALivelinessKey`).
- The Python generator leaves a blank line in an empty struct, where the C++ one leaves none
  (`StructHeader.HeadersAgree`).

## Model

| member | source | states |
|---|---|---|
| `Bytes.WordsAreLittleEndian` | zenbedded_transport/src/serialization.c:99-100 | a 32-bit word on the wire is the sum of its bytes times 1, 2^8, 2^16 and 2^24, for every word |
| `Cdr.JointStateRoundTrip` | zenbedded_transport/src/serialization.c:30-153 | the reference codec: decoding an encoded JointState, whatever its padding holds and whatever follows, gives the message back and stops at its end |
| `Cdr.JointCommandRoundTrip` | zenbedded_transport/src/serialization.c:155-259 | the same for JointCommand |
| `Serialization.InitJointState` | zenbedded_transport/src/serialization.c:30-93 | for any old buffer contents the layout loop leaves exactly the template of this frame and these names, records the offsets and size the alignment rules give, and touches nothing behind the payload |
| `Serialization.InitJointCommand` | zenbedded_transport/src/serialization.c:155-220 | the same for commands, with the interface string |
| `Serialization.StateTemplateLength` | zenbedded_transport/src/serialization.c:30-93 | payload_size is header plus template, for every frame and name list |
| `Serialization.SerializeJointState` | zenbedded_transport/src/serialization.c:95-116 | the buffer afterwards is the old one under the stamp copies and the copies of the arrays that are not null, in that order |
| `Serialization.SerializeJointCommand` | zenbedded_transport/src/serialization.c:222-233 | the same for commands |
| `CdrConformance.StateTemplateConforms` | zenbedded_transport/src/serialization.c:71-93 | a template filled with a message's bytes is its reference encoding if and only if there is at least one joint |
| `CdrConformance.CommandTemplateConforms` | zenbedded_transport/src/serialization.c:211-220 | for commands if and only if there is a joint or the count happens to end on a multiple of eight |
| `CdrConformance.PatchingATemplate` | zenbedded_transport/src/serialization.c:95-116 | patching keeps a template a template: it shows the new stamp and supplied arrays and, untouched, everything else |
| `CdrConformance.LayoutOffsets` | zenbedded_transport/src/serialization.c:71-93 | the recorded windows are disjoint, in order, and the last one ends at payload_size |
| `CdrConformance.InitThenSerialize` | zenbedded_transport/src/serialization.c:25-116 | init on a zeroed buffer, then serialize, gives the from-scratch CDR_LE bytes of the message, which begin 00 01 00 00 and then the stamp, least significant byte first; a sequential decoder recovers every field and consumes exactly payload_size |
| `CdrConformance.EncodeOnce` | zenbedded_rcl/include/zenbedded_rcl/codecs.hpp:149-160 | the codec's init and write on a zeroed buffer, run one after the other, return the reference encoding: 00 01 00 00, the seconds in two's complement and the nanoseconds, each least significant byte first, and the rest |
| `CdrConformance.StateReadsBack` | zenbedded_transport/src/serialization.c:118-153 | the offset-based reader recovers stamp, as the little-endian numbers behind the header, and arrays from any conforming encoding with the configured frame and names |
| `CdrConformance.AnyCommandOfTheRightSize` | zenbedded_transport/src/serialization.c:235-259 | any well-formed CDR_LE command of exactly payload_size bytes is read with its own stamp, the little-endian numbers behind the header, whatever its frame, names and interface string, and with its own values if and only if it carries one per joint |
| `CdrConformance.OwnCommandsAreAdmitted` | zenbedded_rcl/src/zenbedded_client.cpp:270-282 | a command encoded with the configured frame, names and interface string has exactly the admitted size and is read with its own stamp and values |
| `DoubleBuffer.DoubleByteBuffer.Reset` | zenbedded_rcl/include/zenbedded_rcl/double_buffer.hpp:32-39 | both slots are zero |
| `DoubleBuffer.DoubleByteBuffer.Write` | zenbedded_rcl/include/zenbedded_rcl/double_buffer.hpp:55-66 | it fails exactly on null or oversized data and then changes nothing; otherwise the data is the front of the visible slot and the slot visible before becomes the next one written |
| `DoubleBuffer.DoubleByteBuffer.ReadLatest` | zenbedded_rcl/include/zenbedded_rcl/double_buffer.hpp:68-76 | it fails exactly on a null or oversized request; otherwise the output starts with the visible slot's bytes and is unchanged behind them |
| `DoubleBuffer.InvOverRun` | zenbedded_rcl/include/zenbedded_rcl/double_buffer.hpp:44-76 | every legal interleaving of byte steps keeps: the visible slot is the last committed version, the other is the one before with the stores done so far |
| `DoubleBuffer.ReadIsLatestCommit` | zenbedded_rcl/include/zenbedded_rcl/double_buffer.hpp:44-76 | a read that completes returns the most recently committed version, never a mix with bytes being stored |
| `DoubleBuffer.ReadsNeverGoBack` | zenbedded_rcl/include/zenbedded_rcl/double_buffer.hpp:44-76 | all reads of a run, by any readers: each is one whole version, and later ones never show an older one |
| `DoubleBuffer.ReadCanComplete` | zenbedded_rcl/include/zenbedded_rcl/double_buffer.hpp:68-76 | whenever the lock is free a read can run to completion, whatever the writer is in the middle of |
| `DoubleBuffer.WholeWriteShowsItsData` | zenbedded_rcl/include/zenbedded_rcl/double_buffer.hpp:55-66 | a version made by a whole-buffer write shows that write's data |
| `StateChannel.InitShowsZero` | zenbedded_rcl/include/zenbedded_rcl/zenbedded_client.hpp:127-132 | after init a slot is the encoding of the all-zero message with the configured frame and names |
| `StateChannel.PatchShown` | zenbedded_rcl/include/zenbedded_rcl/zenbedded_client.hpp:142-152 | patching a slot that shows a message leaves one that shows the updated message |
| `StateChannel.PublishedStateIsWellFormed` | zenbedded_rcl/include/zenbedded_rcl/zenbedded_client.hpp:127-152 | in every interleaving every published payload is a CDR encoding with the configured frame and names and the stamp of the last committed write_state, and decodes to it |
| `StateChannel.CarriedFromLastSupplier` | zenbedded_rcl/include/zenbedded_rcl/zenbedded_client.hpp:142-152 | an array passed as null carries the value of the last earlier write of the same slot parity that supplied it, or zeros |
| `RawChannel.Write` | zenbedded_rcl/include/zenbedded_rcl/codecs.hpp:113-113 | the slot starts with the struct and is unchanged behind it |
| `RawChannel.ReadsBackWhatWasWritten` | zenbedded_rcl/include/zenbedded_rcl/codecs.hpp:113-123 | what `Write` put into a slot is read back as the struct, whatever the slot held before and holds behind it, if and only if enough bytes of it arrive |
| `RawChannel.LoopHoldsASentStruct` | zenbedded_rcl/include/zenbedded_rcl/codecs.hpp:115-123 | in every reachable state what the control loop holds is read as one whole struct that was sent |
| `RawChannel.LoopReadsTheHostsValues` | zenbedded_rcl/include/zenbedded_rcl/zenbedded_client.hpp:154-166 | from host to firmware: when every payload is the packed struct of some values, the struct the loop reads gives back the values of one of them, field by field and converted |
| `RawChannel.PublishedStructIsTheLastWritten` | zenbedded_rcl/include/zenbedded_rcl/codecs.hpp:96-124 | in every interleaving a Tier 2 client publishes the struct of its last committed write_state, or zeros before the first |
| `StatePath.HostReportsAWrittenStruct` | zenbedded_hardware_interface/src/zenbedded_hardware.cpp:134-216 | from firmware to host: whatever the interleaving on the board and whatever the network loses, repeats or reorders, every field the host reports is that of one struct committed by write_state, or of zeros when it has taken none in |
| `StatePath.HostReportsTheWrittenValues` | zenbedded_rcl/include/zenbedded_rcl/zenbedded_client.hpp:142-152 | when each struct packs some values, what the host reports are those of one committed write_state, converted to the types of their fields |
| `StatePath.ReportsNeverGoBack` | zenbedded_rcl/include/zenbedded_rcl/double_buffer.hpp:44-76 | over a network that keeps the order what the host reports never goes back to an older write_state |
| `CommandChannel.CountedMeansCommitted` | zenbedded_rcl/src/zenbedded_client.cpp:270-298 | in every reachable state each counted command was committed, at most one committed command is not yet counted, and only payloads of the exact size got in |
| `CommandChannel.ReadIsAtLeastAsNewAsTheCount` | zenbedded_rcl/src/zenbedded_client.cpp:270-303 | a loop that saw count c and then read holds command number c or newer, bytes intact |
| `CommandChannel.QuietLoopHoldsTheLastCommand` | demos/inverted_pendulum/inverted_pendulum_tier2/src/main.cpp:561-570 | over every run: when the sender is quiet the loop holds the last command if and only if nothing was committed since it last completed a read |
| `CommandChannel.NothingNewMissesOnlyEarlyCommands` | demos/inverted_pendulum/inverted_pendulum_tier2/src/main.cpp:513-570 | when the sender is quiet, a poll finds nothing new and fewer than 2^32 commands came in since the count the loop last saw, the loop holds the last command if and only if some command was counted after the loop began, and none at all otherwise |
| `CommandChannel.AnUpdateCanBeLost` | demos/inverted_pendulum/inverted_pendulum_tier2/src/main.cpp:561-570 | the bound is tight: a run after which 2^32 commands are unread, the poll finds nothing new and the loop still holds the first command |
| `CommandChannel.ALateReadCatchesUp` | demos/inverted_pendulum/inverted_pendulum_tier2/src/main.cpp:561-570 | the bound is not necessary: with as many commands since the count it last saw, a loop whose read was only completed after them holds the last one |
| `CommandChannel.QuietLoopCanCatchUp` | demos/inverted_pendulum/inverted_pendulum_tier2/src/main.cpp:513-570 | progress: from every reachable state with a quiet sender and a free lock some run of the loop's own steps leads to its holding the last command if and only if it holds it already, a read is due, or the loop has begun and its counter differs from the one it saw |
| `CommandChannel.OnlyEarlyCommandsAreOutOfReach` | demos/inverted_pendulum/inverted_pendulum_tier2/src/main.cpp:513-570 | so with fewer than 2^32 commands since the count the loop last saw it can get to the last one if and only if it has begun and some command was counted after that |
| `CommandChannel.AnEarlyCommandIsNeverRead` | demos/inverted_pendulum/inverted_pendulum_tier2/src/main.cpp:472-570 | a run in which a command is accepted between init and the loop's start: polls find nothing new and no run of the loop's own steps reads it |
| `CommandChannel.QuietReadGetsTheLastCommand` | demos/inverted_pendulum/inverted_pendulum_tier2/src/main.cpp:561-570 | and if the poll does find something new, completing the read gets the last command |
| `CommandChannel.LoopHoldsASentCommand` | zenbedded_rcl/include/zenbedded_rcl/zenbedded_client.hpp:154-166 | whatever the loop holds decodes to the stamp and values one sender encoded |
| `Client.AttachKeeps` | zenbedded_rcl/src/zenbedded_client.cpp:57-86 | connecting a client, with every failure and its roll-back, keeps the transport consistent |
| `Client.RefusedAttachMayKeepAPublisher` | zenbedded_rcl/src/zenbedded_client.cpp:57-86 | a refused connect leaves count and session as they were, and gives the pools back if and only if no publisher was granted or no one else held the session; otherwise the subscriber entries are as before and a publisher entry that was free stays taken |
| `Client.DetachFreesOnlyWithTheLastReference` | zenbedded_rcl/src/zenbedded_client.cpp:98-111 | a client's connect followed by destroy gives the pools back if and only if no one else held the session; otherwise both its entries stay taken |
| `Client.ZenbeddedClient.WriteState` | zenbedded_rcl/include/zenbedded_rcl/zenbedded_client.hpp:142-152 | the slot that was invisible, patched, becomes visible and the visible one stays behind untouched; nothing happens before init |
| `Client.ZenbeddedClient.OnTransportCommand` | zenbedded_rcl/src/zenbedded_client.cpp:270-298 | only a payload of the exact size becomes visible and is counted, modulo 2^32; any other leaves buffer and counter alone |
| `Client.ZenbeddedClient.ReadCommand` | zenbedded_rcl/include/zenbedded_rcl/zenbedded_client.hpp:154-166 | it returns what the codec reads from the visible command slot, and nothing before init |
| `Client.ZenbeddedClient.PublishState` | zenbedded_rcl/src/zenbedded_client.cpp:136-155 | while its handle's slot is in use one message goes out, the first payload_size bytes of the visible slot, for the entity that owns the slot |
| `Client.ZenbeddedClient.InitBase` | zenbedded_rcl/src/zenbedded_client.cpp:30-96 | which error each failure gives and what it leaves; an initialised client is left alone; otherwise it is initialised exactly when both sizes fit and both handles were granted, so with a frequency of 0 it reports an error and stays initialised |
| `Client.ZenbeddedClient.Init` | zenbedded_rcl/include/zenbedded_rcl/zenbedded_client.hpp:118-140 | a second init changes nothing and reports success; a first one leaves both state slots showing the all-zero message, the command layout of these names and interface, no command counted and, when it gets both handles, the frequency |
| `Client.ZenbeddedClient.Destroy` | zenbedded_rcl/src/zenbedded_client.cpp:98-111 | it drops one reference and the handles, and only on an initialised client |
| `Client.ZenbeddedClient.StartThread` | zenbedded_rcl/src/zenbedded_client.cpp:157-194 | its two refusals leave the thread as it was |
| `Transport.RunConsistent` | zenbedded_transport/src/zenoh_transport.c:153-605 | in every run of calls, stale handles included, each entity ever declared is live and owned by exactly one slot in use or the node token, or was undeclared once; nothing is in use without a session |
| `Transport.HandlesAreDistinct` | zenbedded_transport/src/zenoh_transport.c:361-605 | no two handles in use stand for one entity |
| `Transport.InitOutcome` | zenbedded_transport/src/zenoh_transport.c:153-245 | init fails exactly when there is no session and none can be opened; with a session it adds a reference and nothing else, without one it opens it for one reference and announces the node in Tier 1 |
| `Transport.DestroyOutcome` | zenbedded_transport/src/zenoh_transport.c:297-342 | without a reference nothing happens, with several one goes, and the last one leaves no session, no entity and no slot in use; nothing is ever sent |
| `Transport.DeclareOutcome` | zenbedded_transport/src/zenoh_transport.c:361-467 | a publisher is granted if and only if there is a session, a free slot and Zenoh and the ledger agree; it then gets a new entity in a slot nobody held; a refusal leaves everything as it was |
| `Transport.DeclareSubscriberOutcome` | zenbedded_transport/src/zenoh_transport.c:510-605 | the same for subscribers, with the callback installed; a refusal takes no slot and no entity |
| `Transport.GrantedPublisherIsAnnounced` | zenbedded_transport/src/zenoh_transport.c:413-465 | a granted publisher slot owns a new live entity and, in Tier 1 exactly when Zenoh accepts it, a liveliness token besides; nothing else is declared |
| `Transport.GrantedSubscriberIsAnnounced` | zenbedded_transport/src/zenoh_transport.c:565-603 | the same for subscribers |
| `Transport.UndeclarePublisherOutcome` | zenbedded_transport/src/zenoh_transport.c:247-270 | a handle is refused, and nothing happens, if and only if there is no session or its slot is free now; otherwise the entity that owns the slot now goes, whoever declared it, and every other slot in use keeps its own |
| `Transport.UndeclareSubscriberOutcome` | zenbedded_transport/src/zenoh_transport.c:272-295 | the same for subscribers |
| `Transport.ReusedPublisherHandleTakesTheNewOwner` | zenbedded_transport/src/zenoh_transport.c:247-270 | after one user has undeclared and another declared, from any consistent state, the second has the first's handle, and the first's old handle takes down the second's live publisher |
| `Transport.ReusedSubscriberHandleTakesTheNewOwner` | zenbedded_transport/src/zenoh_transport.c:272-295 | the same for subscribers |
| `Transport.LastDestroy` | zenbedded_transport/src/zenoh_transport.c:297-342 | the last destroy leaves nothing live and has undeclared every entity exactly once |
| `Transport.CountKeptUnlessItWraps` | zenbedded_transport/src/zenoh_transport.c:153-342 | every call keeps "session open exactly when the count is positive", except, and exactly, an init at the maximum count |
| `Transport.SessionOpenExactlyWhenCounted` | zenbedded_transport/src/zenoh_transport.c:153-342 | hence it holds in every run whose count never wraps |
| `Transport.WrappedCountLosesTheSession` | zenbedded_transport/src/zenoh_transport.c:157-163 | after 2^32 inits the session is open with count zero and destroy is ignored |
| `Transport.PublishOutcome` | zenbedded_transport/src/zenoh_transport.c:469-508 | through a handle in use exactly one message with the caller's payload goes out for the entity that owns the slot, in Tier 1 with its next number, and 0 is returned if and only if Zenoh accepts it; any other handle sends nothing and gives -1 |
| `Transport.EveryServedPublishIsSent` | zenbedded_transport/src/zenoh_transport.c:469-508 | over every run, in both tiers: what Zenoh was handed for an entity is, in order, exactly what was published through its slot while it owned it |
| `Transport.SequenceNumbersCountUp` | zenbedded_transport/src/zenoh_transport.c:469-494 | in every Tier 1 run the messages of each publisher carry 1, 2, 3, ..., as many as were published through its slot, across reuse of the slot |
| `ZenohTransport.Service.Initialize` | zenbedded_transport/src/zenoh_transport.c:153-245 | the code takes the model's step and returns with the lock depth it was called with, on every path |
| `ZenohTransport.Service.FindFree` | zenbedded_transport/src/zenoh_transport.c:371-380 | the scan stops at the first free entry, or at the pool's size when there is none |
| `ZenohTransport.Service.DeclarePub` | zenbedded_transport/src/zenoh_transport.c:361-467 | claiming an entry first and giving it back on failure amounts to the model's all-or-nothing step; lock depth restored |
| `ZenohTransport.Service.DeclareSub` | zenbedded_transport/src/zenoh_transport.c:510-605 | the same for subscribers |
| `ZenohTransport.Service.UndeclarePub` | zenbedded_transport/src/zenoh_transport.c:247-270 | token, then entity, then the flag; refused for null, for a slot that is free and without a session, whoever asks; lock depth restored |
| `ZenohTransport.Service.UndeclareSub` | zenbedded_transport/src/zenoh_transport.c:272-295 | token, then entity, then the flag; refused for null, for a slot that is free and without a session, whoever asks; lock depth restored |
| `ZenohTransport.Service.Shutdown` | zenbedded_transport/src/zenoh_transport.c:297-342 | one reference less, or everything undeclared and the session closed, with the undeclare calls taking the mutex again inside |
| `ZenohTransport.Service.PublishOn` | zenbedded_transport/src/zenoh_transport.c:469-508 | a handle in use appends one message with the payload and the owner's entity, numbered in Tier 1 even when Zenoh refuses it; any other sends nothing |
| `ZenohTransport.Live` | zenbedded_transport/src/zenoh_transport.c:153-508 | after any calls from static storage on the mutex is free, the fields are the model's after the same calls and every entity is accounted for |
| `KeyExpr.MangleTopic` | zenbedded_transport/src/zenoh_transport.c:346-358 | the copying loop leaves, up to its terminator, the topic without one leading slash, cut to the buffer, with `/` turned into `%` |
| `KeyExpr.KeysFit` | zenbedded_transport/src/zenoh_transport.c:57-75 | for every 32-bit domain and names within the configured lengths snprintf cuts none of the three keys |
| `KeyExpr.DecimalRoundTrip` | zenbedded_transport/src/zenoh_transport.c:408-410 | a printed domain number reads back |
| `KeyExpr.DecimalDigits` | zenbedded_transport/src/zenoh_transport.c:408-410 | the i-th digit from the right counts 10^i |
| `KeyExpr.HexRoundTrip` | zenbedded_transport/src/zenoh_transport.c:223-228 | a printed session id reads back |
| `KeyExpr.HexDigits` | zenbedded_transport/src/zenoh_transport.c:223-228 | bytes are printed in order, the high digit of each first |
| `KeyExpr.ReadingATopicKey` | zenbedded_transport/src/zenoh_transport.c:408-410 | splitting the key a topic is published under gives back domain, topic without its leading slash, type and hash, for any slashes inside the topic |
| `KeyExpr.ReadingANodeKey` | zenbedded_transport/src/zenoh_transport.c:223-228 | splitting the node token gives back domain, session id and node name |
| `KeyExpr.ReadingALivelinessKey` | zenbedded_transport/src/zenoh_transport.c:449-456 | splitting the key on `/` and undoing `%` recovers domain, session id, kind, node, type and hash; and the topic if and only if it has no `%` and no second leading slash |
| `KeyExpr.LivelinessKeysTellApart` | zenbedded_transport/src/zenoh_transport.c:449-456 | so two keys are equal if and only if domain, session, kind, node, type, hash and the topic without its leading slash are; two publishers of one node on the same topic and type share a key |
| `KeyExpr.TwoSlashesAreLost` | zenbedded_transport/src/zenoh_transport.c:388-443 | a topic "//a" is announced as another topic than it is published on |
| `Pacing.ControlThread` | zenbedded_rcl/src/zenbedded_client.cpp:232-247 | each requested sleep is between 1 ms and the period, publishing starts at exact times, and k iterations take at least k periods, across wraps of the 32-bit clock |
| `Pacing.ElapsedAcrossWrap` | zenbedded_rcl/src/zenbedded_client.cpp:243-243 | the wrapped difference of two clock readings is the time between them when that is below 2^32 ms |
| `Pacing.PeriodIsTheFrequency` | zenbedded_rcl/src/zenbedded_client.cpp:232-232 | the period is the longest whole number of milliseconds of which freq fit into a second, and 1 ms beyond 1000 Hz |
| `Schema.ParseComponentFields` | zenbedded_hardware_interface/src/interface_schema.cpp:55-76 | the loop appends the component's fields to a back-to-back layout or stops at its first unknown type, naming it |
| `Schema.FromYaml` | zenbedded_hardware_interface/src/interface_schema.cpp:78-134 | valid if and only if both sections are there and every type is known; then both layouts are back to back, otherwise the error names the first obstacle |
| `Schema.LayoutTiles` | zenbedded_hardware_interface/src/interface_schema.cpp:71-73 | the parsed fields start at 0, leave no gap, do not overlap and end at the buffer size |
| `Schema.EveryByteHasOneField` | zenbedded_hardware_interface/src/interface_schema.cpp:71-73 | every byte of the buffer belongs to exactly one field |
| `StructHeader.TypeTablesAgree` | zenbedded_transport/tools/generate_tier2_payload.py:24-32 | the C++ and Python type tables know the same names and give each the same C type, of the size both count |
| `StructHeader.OffsetsAreStructOffsets` | zenbedded_hardware_interface/src/interface_schema.cpp:55-76 | field i of the parser is member i of the generated struct: same name, same size, and byte_offset is the packed-struct offset |
| `StructHeader.SizesAgree` | zenbedded_transport/tools/generate_tier2_payload.py:39-60 | the buffer size is the sizeof of the packed struct |
| `StructHeader.WriteCHeader` | zenbedded_hardware_interface/src/interface_schema.cpp:183-224 | the printing loops produce the header of the parsed document, which reads back as its two structs, and nothing for an invalid schema |
| `StructHeader.GenerateHeader` | zenbedded_transport/tools/generate_tier2_payload.py:35-83 | the gathering loops exit exactly on an unknown type, treat a missing section as empty, and with both sections present accept the same documents as the C++ parser; the text reads back as the two structs |
| `StructHeader.HeadersDescribeTheStructs` | zenbedded_hardware_interface/src/interface_schema.cpp:198-221 | a reader of the lines recovers from either header, for every schema: each byte size as the packed size of that struct, its members in order with type and name, and one-byte packing of both |
| `StructHeader.HeadersAgree` | zenbedded_transport/tools/generate_tier2_payload.py:62-83 | the two headers are the same text if and only if neither struct is empty |
| `FieldAccess.FieldRoundTrip` | zenbedded_hardware_interface/src/interface_schema.cpp:302-385 | for every type a written value reads back converted to the type, negative integers and the whole 64-bit range included |
| `FieldAccess.IntegerFieldsAreLittleEndian` | zenbedded_hardware_interface/src/interface_schema.cpp:276-300 | integer fields hold the truncated value in two's complement, least significant byte first, and are read as the number their bytes stand for |
| `FieldAccess.NaNPattern` | zenbedded_hardware_interface/src/zenbedded_hardware.cpp:231-231 | a double counts as NaN if and only if its eleven exponent bits are set and its 52-bit fraction is not zero |
| `FieldAccess.ExactValuesSurvive` | zenbedded_hardware_interface/src/interface_schema.cpp:302-385 | an integer of the field's range, up to 2^53 in magnitude, comes back from an integer field as the same double, and every double from a float64 field |
| `FieldAccess.WriteCommandField` | zenbedded_hardware_interface/src/interface_schema.cpp:349-385 | the array changes in the field's window only, and not at all for an index out of range |
| `FieldAccess.WriteThenRead` | zenbedded_hardware_interface/src/interface_schema.cpp:302-385 | writing one field gives it the converted value and leaves every other reading as it was |
| `FieldAccess.ReadsLastWrite` | zenbedded_hardware_interface/src/interface_schema.cpp:302-385 | after any run of writes a field reads as the last value written to it, converted, or as before when there was none |
| `FieldAccess.WritingEveryField` | zenbedded_hardware_interface/src/interface_schema.cpp:349-385 | once every field was written, in any order, the buffer is the packed struct of the last values, whatever it held before |
| `FieldAccess.PackedReadsBack` | zenbedded_hardware_interface/src/interface_schema.cpp:255-300 | the packed struct of a list of values reads back field by field |
| `HardwareModel.HeldIsLastSeen` | zenbedded_hardware_interface/src/zenbedded_hardware.cpp:155-240 | in every run of activations (failing at any step), deactivations, reads and writes, the component holds per interface the last number the interface showed an accessible write with a publisher, 0.0 once it has been active, NaN before; what an interface shows follows from the calls alone |
| `HardwareModel.CommandReachesTheWire` | zenbedded_hardware_interface/src/zenbedded_hardware.cpp:218-240 | once connected, a number set on an accessible interface is held and published by the next write, converted to its field's type; a NaN or an inaccessible interface leaves the held value |
| `HardwareModel.ActivationShowsNumbers` | zenbedded_hardware_interface/src/zenbedded_hardware.cpp:155-180 | a complete activation turns held NaNs into 0.0, keeps numbers and shows them on every accessible interface; an incomplete one changes no value |
| `HardwareModel.PublishedPayload` | zenbedded_hardware_interface/src/zenbedded_hardware.cpp:218-240 | every published payload is the packed struct of those values, holds no NaN, and decodes to them |
| `HardwareModel.PublisherMeansActive` | zenbedded_hardware_interface/src/zenbedded_hardware.cpp:125-195 | there is a publisher only after an activation that got through |
| `HardwareModel.ConnectedAsCalled` | zenbedded_hardware_interface/src/zenbedded_hardware.cpp:125-195 | session, subscription and publisher are there exactly as far as the activations since the last deactivation got |
| `HardwareModel.ReadReportsLastSample` | zenbedded_hardware_interface/src/zenbedded_hardware.cpp:134-216 | a read that gets the lock reports the fields of the last payload of the right size received while subscribed; other sizes leave no trace |
| `ZenbeddedHardware.Component.OnInit` | zenbedded_hardware_interface/src/zenbedded_hardware.cpp:31-104 | it succeeds exactly when the base class does, the four parameters are there and the schema is valid, and starts with NaN held and zeroed buffers |
| `ZenbeddedHardware.Component.OnActivate` | zenbedded_hardware_interface/src/zenbedded_hardware.cpp:125-186 | the three Zenoh steps and the two loops take the model's step, also when a step throws |
| `ZenbeddedHardware.Component.OnDeactivate` | zenbedded_hardware_interface/src/zenbedded_hardware.cpp:188-195 | the connections go, the held values stay |
| `ZenbeddedHardware.Component.OnSample` | zenbedded_hardware_interface/src/zenbedded_hardware.cpp:136-149 | the callback's size gate |
| `ZenbeddedHardware.Component.Read` | zenbedded_hardware_interface/src/zenbedded_hardware.cpp:197-216 | the field-by-field loop reports the whole buffer at once or not at all |
| `ZenbeddedHardware.Component.Write` | zenbedded_hardware_interface/src/zenbedded_hardware.cpp:218-240 | with a publisher each held value becomes the number its accessible interface shows and stays otherwise, and the packed struct of the held values is published; without one nothing happens |
| `FirmwareModel.LimitIsThreeEighths` | demos/inverted_pendulum/inverted_pendulum_tier2/src/main.cpp:508-511 | the limit is three eighths of a turn in microsteps, whatever value pi has |
| `FirmwareModel.TargetsStayInRange` | demos/inverted_pendulum/inverted_pendulum_tier2/src/main.cpp:173-186 | each move_to target lies within the boot position plus or minus the limit, whatever position was read, or 0 when reading it failed |
| `FirmwareModel.MotorFollowsTheCommand` | demos/inverted_pendulum/inverted_pendulum_tier2/src/main.cpp:173-186 | when the driver accepts a move, the motor is sent, from where it was seen last inside its travel, in the commanded direction and, where the limits do not cut it, to within half a microstep of two control periods' travel |
| `FirmwareModel.MotorNeverStepsTooFast` | demos/inverted_pendulum/inverted_pendulum_tier2/src/main.cpp:142-191 | in every run, whatever driver calls fail, a motor that has a target steps at an interval within the stepper's limits and never shorter than that of the maximum velocity |
| `FirmwareModel.NeverLeavesTheTravel` | demos/inverted_pendulum/inverted_pendulum_tier2/src/main.cpp:142-191 | in every run, whichever driver calls fail and wherever between two of those calls the driver steps, motor and target stay within the travel |
| `FirmwareModel.TravelInRadians` | demos/inverted_pendulum/inverted_pendulum_tier2/src/main.cpp:98-117 | that travel is 135 degrees either way, to within half a microstep |
| `FirmwareModel.VelocityIsBounded` | demos/inverted_pendulum/inverted_pendulum_tier2/src/main.cpp:582-588 | in every run the integrated velocity stays within plus or minus 7 rad/s |
| `FirmwareModel.VelocityRamps` | demos/inverted_pendulum/inverted_pendulum_tier2/src/main.cpp:582-588 | away from the travel limit n cycles of the same acceleration a give clamp(v + 0.01 * a * n, -7, 7) |
| `FirmwareModel.OnePeriodIntegrates` | demos/inverted_pendulum/inverted_pendulum_tier2/src/main.cpp:571-588 | one control period adds a hundredth of the acceleration to the velocity, or to 0 when stale, limits it to 7 rad/s and zeroes it exactly when it points outward at 135 degrees or beyond |
| `FirmwareModel.ObservedAngle` | demos/inverted_pendulum/inverted_pendulum_tier2/src/main.cpp:527-533 | the loop's angle times the microsteps per turn is 2 pi times the distance from the boot position, and stays when the position cannot be read |
| `FirmwareModel.RateIsTheSpeed` | demos/inverted_pendulum/inverted_pendulum_tier2/src/main.cpp:150-150 | the microstep rate times 2 pi is the speed times the microsteps per turn |
| `FirmwareModel.DriveOutcome` | demos/inverted_pendulum/inverted_pendulum_tier2/src/main.cpp:142-171 | the motor is stopped exactly at velocity 0 or when a step would take less than 60 us or more than a second, and otherwise gets the interval that turns it at the velocity, to within a nanosecond |
| `FirmwareModel.MotorStartsFromTheReading` | demos/inverted_pendulum/inverted_pendulum_tier2/src/main.cpp:173-186 | the next target is reckoned from the position just read, however far the driver steps meanwhile |
| `FirmwareModel.StepOutcome` | demos/inverted_pendulum/inverted_pendulum_tier2/src/main.cpp:101-104 | a driver step takes the position one nearer to the target and leaves it there |
| `FirmwareModel.StaleCommandsStop` | demos/inverted_pendulum/inverted_pendulum_tier2/src/main.cpp:561-589 | in every run the acceleration is that of the last accepted command for 20 silent cycles and zero, with zero velocity, from the 21st to the next accepted command |
| `FirmwareModel.ActsForTwentySilentCycles` | demos/inverted_pendulum/inverted_pendulum_tier2/src/main.cpp:571-580 | k silent cycles after an accepted acceleration it acts if and only if k is at most 20 (or it is zero) |
| `FirmwareModel.NeverPushesIntoTheLimit` | demos/inverted_pendulum/inverted_pendulum_tier2/src/main.cpp:216-224 | in every state of every run in which the loop has acted on the angle it saw last, a loop at its limit commands no velocity further out |
| `FirmwareLoop.ControlLoop.constructor` | demos/inverted_pendulum/inverted_pendulum_tier2/src/main.cpp:493-520 | the boot position becomes the zero and the centre of the travel |
| `FirmwareLoop.ControlLoop.SetStepperAngularVel` | demos/inverted_pendulum/inverted_pendulum_tier2/src/main.cpp:142-191 | its early returns and driver calls, with any number of driver steps between them, are the model's events in that order |
| `FirmwareLoop.ControlLoop.TakeCycle` | demos/inverted_pendulum/inverted_pendulum_tier2/src/main.cpp:525-589 | one turn of the main loop, with the driver stepping between its calls, is a run of the model's events and ends where the next turn begins |
| `FirmwareLoop.ControlLoop.StopOrSetInterval` | demos/inverted_pendulum/inverted_pendulum_tier2/src/main.cpp:142-171 | the function's first part goes on exactly when the velocity is not zero, its interval is allowed and the driver took it |
| `FirmwareLoop.Stepper.Tick` | demos/inverted_pendulum/inverted_pendulum_tier2/src/main.cpp:101-104 | the driver's own step, one towards the target and none without one, taken any number of times between the loop's calls |
| `Encoder.EncoderAngleIsPrincipal` | demos/inverted_pendulum/inverted_pendulum_tier2/src/main.cpp:120-131 | for every raw reading and offset the angle lies in (-pi, pi] and is raw - offset + pi up to whole turns |
| `Encoder.WrappedDifference` | demos/inverted_pendulum/inverted_pendulum_tier2/src/main.cpp:256-268 | between readings less than half a turn apart the wrapped difference is the distance travelled, across any wrap |
| `Encoder.FilterShrinksError` | demos/inverted_pendulum/inverted_pendulum_tier2/src/main.cpp:269-272 | one update shrinks the error by tau / (tau + dt) and keeps its sign |
| `Encoder.FilterAtNominalRate` | demos/inverted_pendulum/inverted_pendulum_tier2/src/main.cpp:67-69 | at 400 Hz the new velocity counts 0.35 and the old one 0.65 |
| `Encoder.VelocityErrorDecays` | demos/inverted_pendulum/inverted_pendulum_tier2/src/main.cpp:252-293 | at constant speed, over any irregular and partly failing sample times and clock wraps, the error times (tau + elapsed) is at most the initial error times tau |
| `Encoder.DecayAsQuotient` | demos/inverted_pendulum/inverted_pendulum_tier2/src/main.cpp:269-272 | the same bound as the initial error times tau / (tau + elapsed) |
| `Encoder.SampleOutcome` | demos/inverted_pendulum/inverted_pendulum_tier2/src/main.cpp:252-293 | a working reading becomes the reported and the previous angle, ready comes with a second one at another time, the first leaves the velocity, and a failed one changes nothing |
| `Encoder.ReportsTheLastAngle` | demos/inverted_pendulum/inverted_pendulum_tier2/src/main.cpp:252-293 | over any readings the reported angle is the wrapped one of the last that worked |
| `Encoder.EncoderThread.TakeSample` | demos/inverted_pendulum/inverted_pendulum_tier2/src/main.cpp:252-293 | a pass takes the model's step, leaves the newest state alone in the one-message queue and signals readiness once |
| `Controller.ConfiguredAngles` | demos/inverted_pendulum/inverted_pendulum_ros/src/inverted_pendulum_controller.cpp:169-194 | after configuration the fall angle exceeds the catch angle if and only if one of the declared angles is not zero; a larger declared fall angle is kept |
| `Controller.CentringDissipates` | demos/inverted_pendulum/inverted_pendulum_ros/src/inverted_pendulum_controller.cpp:311-328 | beyond the arm zone the command takes 0.5 * k_arm * q1^2 + 0.5 * q1'^2 down at the rate k_arm_vel * q1'^2, wherever and however fast the arm is |
| `Controller.BalancingEpisode` | demos/inverted_pendulum/inverted_pendulum_ros/src/inverted_pendulum_controller.cpp:267-340 | for every declared catch angle other than zero and every trace: a controller that balances began to at a cycle out of swing-up, below the catch angle, with a feasible command; the j-th cycle since put out the saturated LQR command scaled by min(j / steps, 1); and the next cycle ends it if and only if the angle exceeds the fall angle, which lies above the catch angle |
| `Controller.TraceFollowsEpisodes` | demos/inverted_pendulum/inverted_pendulum_ros/src/inverted_pendulum_controller.cpp:248-340 | over every trace the j-th cycle of each episode puts out the saturated LQR command scaled by min(j / steps, 1), also when the episode before fell mid-ramp, and every other cycle the saturated swing-up command; all of it within the actuator's limit |
| `Controller.ModeChangesExactly` | demos/inverted_pendulum/inverted_pendulum_ros/src/inverted_pendulum_controller.cpp:259-281 | for every trace and all declared parameters: balancing starts exactly within the catch angle with a feedback below its limit and ends exactly beyond the fall angle |
| `Controller.BalancingCommand` | demos/inverted_pendulum/inverted_pendulum_ros/src/inverted_pendulum_controller.cpp:259-332 | in the j-th cycle of balancing the output is -(k_q1 q1 + k_q1_vel q1' + k_q2 q2 + k_q2_vel q2') with q2 taken to [-pi, pi] by whole turns, times min(j / steps, 1), within the limit |
| `Controller.SwingUpCommand` | demos/inverted_pendulum/inverted_pendulum_ros/src/inverted_pendulum_controller.cpp:302-334 | otherwise it is the pump minus the centring, within the limit: no pump beyond the arm zone, upwards at a dead start, else of full size against energy excess times velocity times cosine |
| `Controller.InvertedPendulumController.OnConfigure` | demos/inverted_pendulum/inverted_pendulum_ros/src/inverted_pendulum_controller.cpp:140-225 | a controller is configured with the fixed-up angles, gains and limits |
| `Controller.InvertedPendulumController.OnActivate` | demos/inverted_pendulum/inverted_pendulum_ros/src/inverted_pendulum_controller.cpp:227-233 | a trace starts over |
| `Controller.InvertedPendulumController.Update` | demos/inverted_pendulum/inverted_pendulum_ros/src/inverted_pendulum_controller.cpp:248-348 | one update is one cycle; when the command interface cannot be set it reports an error with the mode already changed |
| `MockPlant.TamedIsOk` | demos/inverted_pendulum/inverted_pendulum_ros/src/mock_pendulum_hardware.cpp:97-143 | whatever the parameters, initialisation leaves settings the plant can run on, and a positive declared inertia is never lost |
| `MockPlant.UsableParametersAreKept` | demos/inverted_pendulum/inverted_pendulum_ros/src/mock_pendulum_hardware.cpp:97-143 | parameters already in range are kept as they are, the number of substeps by its whole part |
| `MockPlant.ArmFollowsTheCommand` | demos/inverted_pendulum/inverted_pendulum_ros/src/mock_pendulum_hardware.cpp:288-341 | without step loss the arm follows the limited command and the jitter, within its top speed, up to the stops, where it turns round with its restitution |
| `MockPlant.DemandedTorque` | demos/inverted_pendulum/inverted_pendulum_ros/src/mock_pendulum_hardware.cpp:301-308 | the torque is inertia times acceleration, with the pendulum's mass at its distance from the arm's axis, plus its reaction and the bearing's friction |
| `MockPlant.StepsAreLostExactly` | demos/inverted_pendulum/inverted_pendulum_ros/src/mock_pendulum_hardware.cpp:301-315 | steps are lost exactly when that is modelled with a holding torque and the commanded acceleration asks for more than it |
| `MockPlant.SubstepsRespectTheTorque` | demos/inverted_pendulum/inverted_pendulum_ros/src/mock_pendulum_hardware.cpp:288-356 | with step loss modelled, a substep that ends short of top speed and of the stops has accelerated the arm by what the holding torque allows, by exactly that torque in the direction asked for when it reports lost steps and as commanded when it does not |
| `MockPlant.PositiveInertiasAreOk` | demos/inverted_pendulum/inverted_pendulum_ros/src/mock_pendulum_hardware.cpp:301-315 | positive inertias and masses see to it that no equation of the plant divides by zero at any angle |
| `PendulumEnergy.TorqueBalance` | demos/inverted_pendulum/inverted_pendulum_ros/src/mock_pendulum_hardware.cpp:266-286 | hinge inertia times acceleration is gravity, plus what the arm's acceleration and velocity do, minus friction |
| `PendulumEnergy.PendulumFeelsTheRealisedMotion` | demos/inverted_pendulum/inverted_pendulum_ros/src/mock_pendulum_hardware.cpp:341-345 | the pendulum is accelerated by what the arm's velocity change over the substep asks, whatever limited it, plus the noise |
| `PendulumEnergy.EnergyOverASubstep` | demos/inverted_pendulum/inverted_pendulum_ros/src/mock_pendulum_hardware.cpp:343-351 | for any command, noise and arm motion one substep changes the pendulum's energy by h times its rate plus h^2 times an exact second-order term, up to half the weight times the square of the angle covered |
| `PendulumEnergy.StillArmDissipates` | demos/inverted_pendulum/inverted_pendulum_ros/src/mock_pendulum_hardware.cpp:266-356 | with the arm held still a substep takes h * friction * velocity from the energy, and what it can add is bounded by the terms of order h^2 |
| `PendulumEnergy.HangingSubstepClimbs` | demos/inverted_pendulum/inverted_pendulum_ros/src/mock_pendulum_hardware.cpp:343-351 | those terms are real: a frictionless substep from the hanging point raises the energy by exactly the height it climbs |
| `PendulumEnergy.SwingUpApproachesUpright` | demos/inverted_pendulum/inverted_pendulum_ros/src/inverted_pendulum_controller.cpp:302-332 | pump, arm-centring and saturation put through the frictionless plant: the energy error times the energy's time derivative is at most minus the pump's authority times the magnitude of error * velocity * cosine, so it is not positive wherever the pump outweighs centring, saturation and the arm's own motion |
| `MockPlant.IntegrateKeepsInv` | demos/inverted_pendulum/inverted_pendulum_ros/src/mock_pendulum_hardware.cpp:288-356 | a substep keeps arm position, arm velocity and pendulum angle within their limits, for any noise and command, and moves the arm at most at top speed |
| `MockPlant.StepsAreShort` | demos/inverted_pendulum/inverted_pendulum_ros/src/mock_pendulum_hardware.cpp:418-424 | the substeps add up to the simulated time, none is longer than max_substep unless the cap on their number binds, and there are no more than that takes |
| `MockPlant.ReadAdvances` | demos/inverted_pendulum/inverted_pendulum_ros/src/mock_pendulum_hardware.cpp:404-447 | one read advances simulated time by exactly dt * sim_speed, or max_cycle_dt * sim_speed for a longer dt, and moves the arm at most top speed times that |
| `MockPlant.RunsStayInside` | demos/inverted_pendulum/inverted_pendulum_ros/src/mock_pendulum_hardware.cpp:288-447 | in every run of reads the plant stays within its limits and simulated time is the sum of the cycles' times |
| `MockPlant.ReportsAreNear` | demos/inverted_pendulum/inverted_pendulum_ros/src/mock_pendulum_hardware.cpp:362-398 | the reported motor position is within half a microstep of the arm and the reported pendulum angle is wrapped |
| `MockPlant.PendulumReportIsNear` | demos/inverted_pendulum/inverted_pendulum_ros/src/mock_pendulum_hardware.cpp:362-398 | the reported pendulum angle is, up to whole turns, within half a count of the angle the encoder sees plus the reporting offset; the motor velocity is the arm's plus its noise |
| `MockPlant.QuotientIsTheShortestWay` | demos/inverted_pendulum/inverted_pendulum_ros/src/mock_pendulum_hardware.cpp:373-378 | the raw velocity times the time is the difference of the angles the shortest way round |
| `MockPlant.VelocityFollowsTheEncoder` | demos/inverted_pendulum/inverted_pendulum_ros/src/mock_pendulum_hardware.cpp:362-398 | over any number of publications, while the encoder's difference quotients stay within a distance of some velocity the reported velocity does, too, up to the excess of its initial error, which each publication scales by 1 - alpha |
| `MockPendulumHardware.DrawnIsNear` | demos/inverted_pendulum/inverted_pendulum_ros/src/mock_pendulum_hardware.cpp:216-234 | a drawn parameter is off its nominal value by its share of the randomization; the hinge inertia is the drawn one moved by the drawn length |
| `MockPendulumHardware.StartsNear` | demos/inverted_pendulum/inverted_pendulum_ros/src/mock_pendulum_hardware.cpp:236-241 | the pendulum starts at its initial angle up to whole turns and at rest, off by the drawn jitter and half of it |
| `MockPendulumHardware.Component.OnActivate` | demos/inverted_pendulum/inverted_pendulum_ros/src/mock_pendulum_hardware.cpp:216-253 | an activation draws a new body and starts the plant over, within its limits, for every draw that leaves no division by zero |
| `MockPendulumHardware.Component.LimitTorque` | demos/inverted_pendulum/inverted_pendulum_ros/src/mock_pendulum_hardware.cpp:301-315 | the branch reduces the acceleration to the feasible one and flags step loss exactly then |
| `MockPendulumHardware.Component.Integrate` | demos/inverted_pendulum/inverted_pendulum_ros/src/mock_pendulum_hardware.cpp:288-356 | the field updates, in the code's order, are one substep of the model and keep its limits |
| `MockPendulumHardware.Component.Read` | demos/inverted_pendulum/inverted_pendulum_ros/src/mock_pendulum_hardware.cpp:404-447 | the loop runs exactly the model's substeps, publishes once, and does neither for a period that is not positive |
| `RealMath.FmodRange` | demos/inverted_pendulum/inverted_pendulum_tier2/src/main.cpp:259-260 | fmod stays strictly within one divisor of zero and differs from its argument by whole divisors |
| `RealMath.TiesAreRounded` | demos/inverted_pendulum/inverted_pendulum_tier2/src/main.cpp:186-186 | halves are rounded away from zero by lround and to the even integer by remainder |
| `RealMath.RemainderIsSmall` | demos/inverted_pendulum/inverted_pendulum_ros/src/mock_pendulum_hardware.cpp:264-264 | remainder is at most half a divisor away from zero |
| `RealMath.RemainderIsWhole` | demos/inverted_pendulum/inverted_pendulum_ros/src/mock_pendulum_hardware.cpp:264-264 | and differs from its argument by whole divisors |

## Left out

- Floating point: the pendulum code is modelled over the reals, so rounding, overflow and, except for held commands, NaN do not occur; a double in a message or a packed field is its eight bytes.
- FieldRoundTrip: the conversions between double, float and integers are parameters; that integers up to 2^53 convert exactly is a hypothesis where it is used (`ExactValuesSurvive`), and what a float32 field keeps of a double is not stated; an out-of-range cast, which C++ leaves undefined, is excluded by a precondition.
- Integer widths: 32-bit wrap-around is modelled for the reference count, the command counter, the clocks, `8 * num_joints` and the codec's lengths; payload sizes are assumed below 2^32, and the stepper's boot position plus or minus its limit, the substep count and a publisher's 64-bit sequence number are assumed to fit.
- ZenbeddedClient.Init: the code writes the slots before it checks the sizes, which for larger payloads is a write outside the buffer with no defined outcome, so the payloads are assumed to fit the configured capacities.
- ZenbeddedClient: the class is instantiated with the Tier 1 codecs; for Tier 2 only what the codec does, what a client publishes with it and what reaches the host is stated (`RawChannel`, `StatePath`), and the command channel holds for any payloads.
- ArrayFits: arrays handed to the codec hold one value per joint, as the C interface assumes without checking.
- Big-endian hosts: the codec and the field accessors copy memory as it is, as the source notes.
- Several writers of one buffer, and a reset that runs beside a writer or reader: the design has one writer and resets before it starts.
- The spinlock is taken as mutual exclusion and the mutex as re-entrant; publishing takes no lock, so an undeclare that runs while a publish is between its check and its send is not modelled.
- zenoh-pico, zenoh C++ and Zephyr: each call is an abstract step that may succeed or fail; tasks, QoS, locators and the attachment's timestamp and random id are not modelled.
- The receive buffer of `internal_sub_handler` and its length gate, which only drops payloads.
- The file-scope variables of the transport are fields of one object, so that there is exactly one transport is not stated.
- The lookup of type hashes in the ledger: a declaration is told whether the type is known.
- `DoubleBuffer<T>` and the compile-time `CheckCodec`: they add nothing to the byte buffer and the codecs.
- YAML text, duplicate keys and parse errors: both generators start from an ordered list of components and fields; a file that cannot be opened or written is not modelled, and neither are component and field names that make the generated C ambiguous, nor a section that is there but null, which the C++ parser takes as empty and the Python generator fails on.
- HeadersAgree: a header is its list of lines; names with line breaks in them are not considered.
- OnInit: that a missing `zenoh_mode` means "client", the exported interfaces and introspection are not modelled.
- The sine-wave demo, launch files, LEDs, Wi-Fi, USB and DHCP bring-up, logging, the measured motor velocity and loop frequency the firmware reports.
- FirmwareModel.StaleCommandsStop: a counter that moves by a multiple of 2^32 between two cycles looks unchanged, as in the code; commands are finite numbers.
- Encoder: the calibration wait and the sleep between samples; a sampler whose first reading failed starts with its second.
- MockPendulumHardware: draws with which some equation would divide by zero have no meaning over the reals and are excluded, and the microsteps and counts per revolution are positive.
- The LQR gains and whether balancing succeeds: the mode machine and its limits hold for any gains and any cosine. The swing-up's effect on the energy is stated for the time derivative without friction, not over whole swings; sine and cosine enter only through the slope, the bend and the period of the cosine.
