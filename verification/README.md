# A verified model of the Ninebot Proto2 client

The Home Assistant integration `ha-ninebot` talks to a kick scooter over Bluetooth LE. This project
models, in Dafny 4.11, the part of it that has to be right for the readings to be right, and proves
what that part promises:

- **Framing** (`Protocol`, `Framing`, `Crypto`, `Receiver`): packets are packed into frames, encrypted
  by a third-party cipher and notified in arbitrary pieces. The reassembly loop is proved to be a
  function of the whole byte stream, however it was cut, and that function is proved to be the only
  way of cutting the stream into frames, stray bytes and an unfinished tail.
- **Reading** (`RegisterRead`, `Registers`): requests and replies over a link that loses, delays,
  repeats and reorders; a register read in one bulk request or word by word.
- **Polling** (`Polling`, `Snapshots`, `Models`): one poll over a register table, when it is given
  up, what it records, and what a whole run of merged polls means.
- **Session** (`Links`, `Session`, `Client`, `Availability`, `Coordinator`): opening links, the
  INIT/PING/PAIR handshake, re-pairing, the stored key, the coordinator's polls, and the reports
  on availability.
- **Runs** (`Runs`, `Service`, `Witness`): what every method does to the client's world (receive
  path, link, clock, events still to come) as a function of that world, so that the events fix which
  error ends a run and when; where the errors that lead to pairing anew come from; and that a scooter
  that answers in time gets connected and polled.

`NinebotClient`, `ScooterState` and `NinebotCoordinator` are classes whose methods update their
fields as the Python objects do. Each loop and each state change is proved against a function or
relation of the modules above, and the results over all inputs and all runs are lemmas about those.
The contract of a method of the client ends with `Ran(AsWorld(), r) == Runs.M(...)`: the world it
leaves and the result or error it ends with are exactly those of the function of the same name.
`dafny verify dfyconfig.toml` checks everything. `hide` statements in method bodies only keep proof
contexts small.

## How the surroundings are modelled

- **The outside world** during a poll is any finite list of events: a notification with any bytes,
  time passing, the link dropping, an awaited link operation ending (working, refused with one of
  the handled errors, or raising anything else). Every `await` handles events until its own end.
  When the list is used up, operations fail and waits run out. Notifications are let in even while
  no link is up, which only gives the outside world more freedom.
- **The cipher** is unknown. An object of it is represented by the list of calls made on it, and
  everything assumed about it is the predicate `Lawful`: six bytes longer, first three bytes clear,
  whole frames decrypted in order give the plaintexts back (`StubIsLawful` shows that this can be
  met). `Lawful` is assumed only by the end-to-end lemmas.
- **The scooter's memory** is any byte string per board, addressed in words. A read reply is honest
  when its data is a prefix of the memory at its index and holds a whole word unless the memory
  ends there; `HalfWordsShift` shows why a whole word is needed.
- **Randomness** (a fresh pairing key), the register table, the scooter's name and the timeouts are
  parameters. Times are integers and only move forward.
- Private helper methods of the classes (`WalkRegister`, `PollRegister`, `OpenLink`, `Introduce`,
  `Authorize`, `PairingTurn`, `AwaitOperation`, `PollInto` and others) are consecutive pieces of one
  Python method each.

## Findings

- The buffer always keeps the last byte when there is no preamble, whatever that byte is
  (`custom_components/ninebot/pynebot/client.py:436-438`); the definition of a segmentation says so,
  and `KeptByteMatters` says when it makes a difference.
- `_cell_voltages` is documented to drop trailing empty slots and drops every empty slot.
  `CellsDropTrailingIff` gives the exact condition under which the two agree, `CellsDiffer` a
  payload on which they do not.
- Packing masks a packet's index to one byte and matching compares it unmasked, so a register
  request is answerable exactly when its index is below 256 (`AnswerableIff`).
- Errors other than timeouts neither add to nor reset the count that gives a poll up. A poll that
  reads nothing at all returns normally exactly when fewer than three of its reads timed out
  (`EmptyPollIff`, and `DeadLinkPollReturns` when every send fails); the coordinator then counts it
  as successful and clears the pairing flag (`NinebotCoordinator.AsyncPoll`).
- A failing path leaves the client without a link that is up, but not always the link itself down:
  a refused `start_notify` forgets a link without closing it, so does a `stop_notify` that raises
  something foreign, and a `disconnect` that does not work is not tried again.
  `RefusedSubscriptionLeaks` and `RefusedClosingLeaks` give the events, `ClosingLeaksIff`,
  `SubscribingLeaksIff` and `OpeningLeaksIff` the exact conditions for one step, `NothingOrphanedIff`
  the one for whole runs. "The link is up" elsewhere means what `is_connected` says.
- The queue is not emptied when the session key is installed, so a session can be closed and proven
  by replies that were decrypted before. `EarlyRepliesProve`: from any state of the cipher, five
  packets on the queue and writes that work are enough, and nothing is decrypted afterwards;
  `ProvenWithoutKeyIsReachable` is a whole run that gets there. `EstablishedUnderKey` and
  `SessionSafety` say, going by the calls on the cipher, exactly when it is not so: the closing reply
  was decrypted under the key exactly when no packet left on the queue at its installation answers a
  PAIR, the proving reply exactly when none of those still there when its request was sent answers that
  request, and so whenever none of them answers a read of the serial number.
- Updating a `ScooterState` with itself clears the failures of decoded registers; it is the same as
  merging an equal snapshot exactly when no decoded register is failing (`SelfMergeIff`).
- A preamble inside junk can swallow later bytes, but not for long: 267 quiet bytes end any false
  frame (`NoiseResyncs`), 266 do not (`ShortNoiseLosesFrame`).
- A register that reaches past index 255 can be read only in one bulk reply (`BulkAndWalkedAgree`).
- An empty supplied key is replaced by a fresh one and yet counts as supplied (`InitialKey`).

## Model

| member | source | states |
|---|---|---|
| Protocol.UnpackPack | custom_components/ninebot/pynebot/protocol.py:81-130 | packing succeeds up to 255 data bytes; unpacking it, with any bytes behind, gives the packet with its index masked, and the packet itself exactly when it fits a frame |
| Protocol.PackUnpack | custom_components/ninebot/pynebot/protocol.py:100-130 | whatever unpacks packs back to exactly its first 7 + length bytes |
| Protocol.UnpackAccepts | custom_components/ninebot/pynebot/protocol.py:100-130 | unpacking gives a packet if and only if the bytes start with that packet's packing |
| Protocol.CodesAre | custom_components/ninebot/pynebot/protocol.py:36-68 | which byte stands for which board and which command |
| Protocol.PackLayout | custom_components/ninebot/pynebot/protocol.py:81-97 | a packet of up to 255 data bytes packs to the preamble, its length, source, target and command bytes, the low byte of its index and its data, in this order, and a longer one is refused |
| Protocol.ReadOnTheWire | custom_components/ninebot/pynebot/protocol.py:81-97 | a read request of the main controller, byte by byte |
| Protocol.UnpackLayout | custom_components/ninebot/pynebot/protocol.py:100-130 | bytes unpack to a packet if and only if they begin with the preamble and hold, at these places, its length, source, target, command and index and then its data |
| Protocol.FrameLengthIs | custom_components/ninebot/pynebot/protocol.py:153-160 | the length of an encrypted frame as a number of bytes |
| Protocol.MatchesIff | custom_components/ninebot/pynebot/protocol.py:132-142 | which packets answer a request, by boards, command and index, with INIT, PING and PAIR answered each only by itself |
| Protocol.HandshakeAnswerDeterminesRequest | custom_components/ninebot/pynebot/protocol.py:132-142 | a packet that answers two handshake requests forces equal commands and boards |
| Protocol.AnswerableIff | custom_components/ninebot/pynebot/protocol.py:93-142 | some received packet can answer a request if and only if it is a handshake request or its index is below 256 |
| Protocol.ReadAnswerDeterminesRead | custom_components/ninebot/pynebot/protocol.py:132-142 | a packet that answers two register reads forces equal boards and indices |
| Framing.ScanIffSegments | custom_components/ninebot/pynebot/client.py:432-450 | the byte-by-byte parse of a stream is its one and only cutting into whole frames, stray bytes none of which begins a preamble, and an unfinished tail |
| Framing.ScanSegments | custom_components/ninebot/pynebot/client.py:432-450 | conservation: the stream is the frames and stray bytes in order, followed by the tail |
| Framing.ScanResumes | custom_components/ninebot/pynebot/client.py:432-450 | parsing `a` and then the kept bytes followed by `b` finds exactly what parsing `a + b` finds |
| Framing.ResidueBound | custom_components/ninebot/pynebot/client.py:432-450 | the bytes kept back are a suffix of the stream of at most 267 bytes |
| Framing.Resync | custom_components/ninebot/pynebot/client.py:434-450 | any list of well-framed messages with preamble-free noise around them is cut into exactly those frames in order; only noise is thrown away and at most the last noise byte is kept; nothing is assumed of what the frames hold |
| Framing.NoiseResyncs | custom_components/ninebot/pynebot/client.py:434-450 | after any bytes at all, even the head of a frame that never was one, 267 bytes of preamble-free noise in front of the messages are enough: at most one false frame is cut, then exactly the messages |
| Framing.ShortNoiseLosesFrame | custom_components/ninebot/pynebot/client.py:434-450 | with 266 bytes a false frame can swallow a real one |
| Framing.KeptByteMatters | custom_components/ninebot/pynebot/client.py:435-439 | a byte kept back can change what later bytes mean if and only if it is the first half of a preamble |
| Receiver.ChunkIndependence | custom_components/ninebot/pynebot/client.py:425-468 | any run of notifications leaves buffer, queue and cipher as one notification of all the bytes would |
| Receiver.CutsAgree | custom_components/ninebot/pynebot/client.py:425-468 | two ways of cutting the same bytes cannot be told apart |
| Receiver.DispatchCalls | custom_components/ninebot/pynebot/client.py:452-468 | the cipher is called exactly once per whole frame, in order; no key changes; the queue keeps what it had and its bound |
| Receiver.DispatchIs | custom_components/ninebot/pynebot/client.py:452-468 | a frame adds its decryption to the calls and, if that unpacks and fewer than 64 packets wait, its packet behind them, and changes nothing else |
| Receiver.ResyncRun | custom_components/ninebot/pynebot/client.py:425-468 | those messages, cut in any way and with a byte kept from before, are handed to the cipher frame by frame in order, whether or not they decrypt |
| Receiver.NoiseResyncsRun | custom_components/ninebot/pynebot/client.py:425-468 | the same for any run of notifications from any buffer: at most one false frame is decrypted before the messages |
| Receiver.EndToEnd | custom_components/ninebot/pynebot/client.py:402-468 | packets packed, encrypted and sent with preamble-free noise around them, cut in any way, are queued exactly and in order up to the 64th, the newest being lost; both cipher sides stay in step and the buffer is left so that the next stretch can follow |
| Receiver.SentIsReceived | custom_components/ninebot/pynebot/client.py:402-415 | the chunks of one sent packet are read back as that packet by a receiver in step |
| Crypto.StubIsLawful | tests/fake_scooter.py:81-120 | the assumed cipher contract is satisfiable |
| Client.NinebotClient.Dispatch | custom_components/ninebot/pynebot/client.py:452-468 | a frame is decrypted once; its packet, if any, is queued unless the queue is full |
| Client.NinebotClient.OnNotify | custom_components/ninebot/pynebot/client.py:425-450 | the in-place loop terminates and does to buffer, queue and cipher what the parse of buffer and new bytes says |
| Client.NinebotClient.HandleEvent | custom_components/ninebot/pynebot/client.py:425-468 | after any event buffer and decryptions are those of the whole stream since the link was opened, the queue is the untaken part of all packets ever queued, and each packet of this link is what the call noted for it decrypted |
| Client.NinebotClient.WriteChunks | custom_components/ninebot/pynebot/client.py:409-415 | the chunks written are all of the negotiated size but the last and joined are a prefix of the payload, all of it on success; it succeeds exactly when each of the writes the payload takes works, and the first that does not fixes the error |
| Client.NinebotClient.Send | custom_components/ninebot/pynebot/client.py:402-415 | a down link and oversized data are refused before anything is written; otherwise the chunks carry the encryption of the packing; the result is the one the events call for |
| Client.NinebotClient.Receive | custom_components/ninebot/pynebot/client.py:417-423 | the oldest queued packet, at once if there is one; a timeout only with an empty queue, not before its time and not later than the first event past it |
| Client.NinebotClient.Request | custom_components/ninebot/pynebot/client.py:387-400 | the answer is the first packet in arrival order that matches, everything before it was taken and did not match, the rest stays in order; no early timeout; a read above index 255 never succeeds; the events fix the result |
| Registers.SliceIs | custom_components/ninebot/pynebot/client.py:344-385 | what a true read is: the bytes of the board's memory from twice the register's index on, as many as the register has or the memory still holds |
| RegisterRead.ReadIsTrue | custom_components/ninebot/pynebot/client.py:344-385 | under honest replies, however stale or repeated, a read that returns returns the memory |
| RegisterRead.AnswersReadIff | custom_components/ninebot/pynebot/client.py:350-384 | the packets that answer some request of a register's read are exactly the read replies from its board with an index inside it |
| RegisterRead.ReadCost | custom_components/ninebot/pynebot/client.py:344-385 | a read makes at most one request more than half its length rounded up and waits out at most two of them; two only if it is longer than two bytes |
| RegisterRead.ReadAsks | custom_components/ninebot/pynebot/client.py:344-385 | the first request is the bulk one; a second goes out exactly when the bulk reply is short or, for more than two bytes, times out, and then word by word in order; otherwise the first exchange is the result, so a silent register of one or two bytes costs one request |
| RegisterRead.BulkAndWalkedAgree | custom_components/ninebot/pynebot/client.py:350-385 | a scooter that refuses bulk reads yields the same bytes as one that allows them, odd lengths and short memories included, at the cost of one timeout; a read succeeds if and only if the bulk reply holds it all or its indices fit a byte |
| RegisterRead.HalfWordsShift | custom_components/ninebot/pynebot/client.py:373-385 | with replies that stop inside a word a walked read returns wrong bytes |
| Client.NinebotClient.ReadRegister | custom_components/ninebot/pynebot/client.py:344-385 | the requests and result are a run of the dialogue relation, every reply used was on the queue and answers its request, the last one is the first packet taken since its request was sent that answers it, and with honest traffic the result is the memory |
| Registers.CellsDropTrailingIff | custom_components/ninebot/pynebot/registers.py:67-70 | for every payload, the decoder's cells are the slots without the trailing empty ones if and only if no empty slot precedes a nonempty one |
| Registers.CellsDiffer | custom_components/ninebot/pynebot/registers.py:67-70 | a payload on which the decoder and its comment differ |
| Registers.CellsAreNonzeroSlots | custom_components/ninebot/pynebot/registers.py:67-70 | the decoder yields exactly the nonzero slots, in order |
| Registers.U32IsLittleEndian | custom_components/ninebot/pynebot/registers.py:38-40 | the word-wise decoder reads up to four bytes as one little-endian number |
| Registers.S16IsTwosComplement | custom_components/ninebot/pynebot/registers.py:33-35 | for payloads of any length, the signed decoder gives n if and only if n is in the range of the bytes read and equals the unsigned value modulo their modulus |
| Registers.PollTableSelects | custom_components/ninebot/pynebot/client.py:290-292 | a poll reads each register of its kind once and no other |
| Registers.PollTableOrder | custom_components/ninebot/pynebot/client.py:290-292 | a poll reads the static registers before the others, each kind in the order of the table |
| Polling.AbortIff | custom_components/ninebot/pynebot/client.py:294-323 | a poll is given up at a read exactly when that read completes three timeouts in a stretch without a good read (or raises something foreign) and no earlier one does |
| Polling.TimeoutsBounded | custom_components/ninebot/pynebot/client.py:294-323 | a poll that returns with m good reads timed out at most 2(m + 1) times |
| Polling.EmptyPollIff | custom_components/ninebot/pynebot/client.py:294-323 | a poll that reads nothing, with nothing foreign raised, returns if and only if fewer than three of its reads timed out, and then every register is failing |
| Polling.DeadLinkPollReturns | custom_components/ninebot/pynebot/client.py:311-317 | a poll whose every read fails to send returns normally, with every register failing for that reason and nothing else changed |
| Polling.PollPartition | custom_components/ninebot/pynebot/client.py:294-323 | every register read is in exactly one of values and failures with the entry its outcome calls for; raw and failing exactly means undecodable |
| Polling.PollIsCoherent | custom_components/ninebot/pynebot/client.py:294-323 | a poll's values are its raw payloads decoded, and its raw payloads are the memory if its reads were true |
| Client.NinebotClient.PollRegisters | custom_components/ninebot/pynebot/client.py:294-323 | the poll loop is a run of the poll relation over its reads, and with honest traffic every good read is the memory |
| Client.NinebotClient.AsyncPoll | custom_components/ninebot/pynebot/client.py:275-323 | a poll needs a link that is up and reads the static registers exactly when asked to |
| Snapshots.MergeAssociative | custom_components/ninebot/pynebot/models.py:51-58 | merging snapshots is associative |
| Snapshots.SelfMergeIff | custom_components/ninebot/pynebot/models.py:51-58 | updating a state with itself is merging an equal snapshot if and only if no decoded register is failing |
| Snapshots.MergeAnyGrouping | custom_components/ninebot/pynebot/models.py:51-58 | a run of polls may be merged in any grouping |
| Snapshots.MergedValues | custom_components/ninebot/pynebot/models.py:51-58 | after any run of polls a key has a value exactly when some poll decoded it, and it is the latest such value |
| Snapshots.MergedFailures | custom_components/ninebot/pynebot/models.py:51-58 | after any run of polls a key is failing exactly when the latest poll that tried it failed on it, for that reason |
| Polling.RunIsCoherent | custom_components/ninebot/pynebot/models.py:51-58 | after any run of polls every value that is not failing is its raw payload decoded |
| Models.ScooterState.Update | custom_components/ninebot/pynebot/models.py:51-58 | the in-place update is the merge, the other state is untouched; updating a state with itself only clears failures |
| Client.NinebotClient.constructor | custom_components/ninebot/pynebot/client.py:69-104 | a new client has no link, a buffer, queue, cipher and histories that are empty, the default write size, no link operations and the initial key |
| Client.NinebotClient.ResetReceiver | custom_components/ninebot/pynebot/client.py:172-176 | every link starts with a fresh cipher, an empty buffer and an empty queue |
| Client.NinebotClient.Subscribe | custom_components/ninebot/pynebot/client.py:183-194 | the write size is settled on success; a refusal is a connection error and forgets the link, and the other errors are those the events call for; a link is left behind exactly when the subscription is refused while it is up, or closing it leaves it behind |
| Client.NinebotClient.ConnectTransport | custom_components/ninebot/pynebot/client.py:170-194 | at most one link is opened, nothing heard before counts on it, a connection error leaves the client without a link, and the result and the links left behind are exactly those the events call for |
| Client.NinebotClient.Disconnect | custom_components/ninebot/pynebot/client.py:261-273 | the client holds no link afterwards, whatever is raised; a link that is down is left alone; one that is up is left behind exactly when unsubscribing raises something foreign or closing does not work while it is up; something foreign is raised exactly when one of the two raises it |
| Links.SubscribingLeaksIff | custom_components/ninebot/pynebot/client.py:180-193 | for any events, whether subscribing on a link that is up leaves it behind, as a condition on how the operations end |
| Links.OpeningLeaksIff | custom_components/ninebot/pynebot/client.py:170-194 | opening a link leaves one behind exactly when it opens and, before it drops, the subscription is refused or there is no write characteristic and closing it fails; never more than one |
| Links.RefusedSubscriptionLeaks | custom_components/ninebot/pynebot/client.py:179-186 | two events after which a link is up that the client no longer refers to |
| Links.ClosingLeaksIff | custom_components/ninebot/pynebot/client.py:261-273 | for any events, closing a link that is up leaves it behind exactly when unsubscribing raises something foreign or closing does not work before it drops |
| Links.RefusedClosingLeaks | custom_components/ninebot/pynebot/client.py:266-273 | two events after which a link whose closing was refused is still up |
| Client.NinebotClient.AwaitPairing | custom_components/ninebot/pynebot/client.py:227-251 | pairing ends with the first packet taken that is a PING or PAIR with status one or, at the first look at the clock past the pairing timeout, for want of one; PAIR is sent once per turn |
| Client.NinebotClient.VerifySession | custom_components/ninebot/pynebot/client.py:253-259 | success means that the last packet taken is the first since the last one was sent to answer it, and that this was a request of a read of the serial number; timeouts and protocol errors become an authentication error and other errors stay |
| Client.NinebotClient.Handshake | custom_components/ninebot/pynebot/client.py:196-225 | against any replies, success means an established session under the client's key, having sent INIT, PING with the key, the pairing requests and the closing PAIR with the challenge that follows the key in this session's INIT reply; the step that fails and its error are those the events call for |
| Client.NinebotClient.Connect | custom_components/ninebot/pynebot/client.py:143-168 | at most two links; the key is replaced exactly when it was supplied and the first session ended in an authentication error, and then the second session is tried unless closing the first link raises; success means an established session under the key then held, on a link opened by this call; every link left behind is accounted for |
| Session.AppKeyIsEarned | custom_components/ninebot/pynebot/client.py:196-214 | the session key is installed only after an INIT reply of at least 16 bytes from the dashboard and either a PING reply with a nonzero status or, that being zero, a later PING or PAIR with status one |
| Session.EstablishedMeans | custom_components/ninebot/pynebot/client.py:196-225 | an established session went through every step in order, with INIT, PING and PAIR replies of the dashboard to the host, installed that key and no other, and after its closing took a read reply from the board of the serial number with an index inside it |
| Session.HandshakePackets | custom_components/ninebot/pynebot/client.py:196-225 | the requests of a handshake written out, and exactly which packets answer each of them |
| Session.HandshakeSendsPackets | custom_components/ninebot/pynebot/client.py:196-225 | a handshake sends INIT, PING with the key and one PAIR with the challenge more than it asked to pair |
| Session.AcceptsIff | custom_components/ninebot/pynebot/client.py:246 | pairing is accepted by a PING or PAIR with status one and by nothing else |
| Session.KeysAtStart | custom_components/ninebot/__init__.py:28-34 | no text and the empty text store no key, bad hex is an error; a client without a key or with an empty one draws a fresh one |
| Session.EstablishedUnderKey | custom_components/ninebot/pynebot/client.py:211-225 | by the calls on the cipher, the closing reply was decrypted under the key if and only if no packet still on the queue at its installation answers a PAIR, the proving reply if and only if none of those still there when its request was sent answers that request |
| Session.RestartKeepsKey | custom_components/ninebot/__init__.py:28-34 | setting up from the stored text of a nonempty key rebuilds that key, marked as supplied |
| Hex.FromHexToHex | custom_components/ninebot/coordinator.py:105-110 | reading back the hex text of a byte string gives the byte string |
| Hex.ToHexAt | custom_components/ninebot/coordinator.py:105-110 | two digits a byte, the upper half first, small or capital as asked |
| Hex.FromHexAccepts | custom_components/ninebot/__init__.py:28-34 | a text is read if and only if it is an even number of hex digits of either case |
| Coordinator.NinebotCoordinator.PersistAppKey | custom_components/ninebot/coordinator.py:103-111 | afterwards the stored key is the client's key in hex |
| Coordinator.NinebotCoordinator.AsyncUpdate | custom_components/ninebot/coordinator.py:85-101 | one more snapshot is merged on success and none on failure; it includes the static registers exactly when the state was empty or the link was down; the stored key changes only to the key of an established session; an update over a link that is up only polls, and the events fix the result |
| Coordinator.NinebotCoordinator.AsyncPoll | custom_components/ninebot/coordinator.py:113-155 | keeps everything that holds between polls, for any events during the poll; how it ends is fixed by the events, and every failing path leaves the client without a link that is up; a poll that reads nothing is noted as good if and only if fewer than three reads timed out; a good poll clears the pairing flag, an error sets it exactly when it is the one that asks for pairing, and the report added is the one that tells the error, if the last poll was good; links left behind are accounted for |
| Coordinator.NinebotCoordinator.SessionSafety | custom_components/ninebot/coordinator.py:85-155 | between polls, a link that is up has on that link a complete handshake in order, the client's key as the only session key, a reply to a read of the serial number taken after that, the packet on record that asked for it, the exact condition under which it and the closing reply were decrypted under the key, and a completed poll with the static registers on record; its key is stored and a restart would rebuild it |
| Coordinator.NinebotCoordinator.NothingOrphanedIff | custom_components/ninebot/coordinator.py:113-155 | after any run no link is left behind if and only if every refused subscription, every unsubscription that raised something foreign and every closing that did not work ended after its link had dropped |
| Coordinator.NinebotCoordinator.StateIsLatest | custom_components/ninebot/coordinator.py:95 | after any run of the coordinator the state holds the latest values, and the failures of the latest tries with their reasons |
| Coordinator.NinebotCoordinator.StateIsTrue | custom_components/ninebot/coordinator.py:95 | after any run, if all read replies were honest, every value that is not failing is the conversion of the true memory |
| Coordinator.NinebotCoordinator.StandingIsEarned | custom_components/ninebot/coordinator.py:113-148 | after any run the reports alternate, the last poll counts as good exactly when it succeeded, and pairing is required exactly when some poll ended in the error that asks for it and none has succeeded since |
| Availability.PairingFlag | custom_components/ninebot/coordinator.py:96-126 | pairing is required exactly when a poll ended in the error that asks for it and none has succeeded since |
| Availability.ReportsAlternate | custom_components/ninebot/coordinator.py:118-146 | going-down and back-online reports alternate, the first and the last one as the start and the last poll call for |
| Availability.ReportAdded | custom_components/ninebot/coordinator.py:113-146 | which report each end of a poll adds, error by error, and what it does to both flags |
| Runs.ReceiveIffArrives | custom_components/ninebot/pynebot/client.py:417-423 | waiting for a packet succeeds if and only if one arrives before an event handled past the deadline |
| Runs.WriteErrors | custom_components/ninebot/pynebot/client.py:409-415 | writing fails exactly when a write does, as a connection error if it was refused and foreign otherwise |
| Runs.ChunksHold | custom_components/ninebot/pynebot/client.py:409-415 | as many writes as pieces of the negotiated size it takes to hold the bytes, and not one more |
| Runs.TransportEnds | custom_components/ninebot/pynebot/client.py:170-194 | the result of opening a link, and whether the client then holds one, by how opening, subscribing and, without a write characteristic, closing end |
| Runs.PairingTimesOutIff | custom_components/ninebot/pynebot/client.py:227-251 | pairing is given up if and only if, up to the deadline, every request to pair is written and no packet taken for it accepts |
| Runs.PairingSucceedsIff | custom_components/ninebot/pynebot/client.py:227-251 | pairing succeeds if and only if, after some requests in vain, one is written before the deadline and the packet taken for it is a PING or PAIR with status one |
| Runs.HandshakeErrorsIff | custom_components/ninebot/pynebot/client.py:196-259 | a handshake ends in an authentication error if and only if the INIT reply is too short or, everything else having worked, the proving read times out or is malformed; in a pairing error if and only if the PING status is zero and pairing was asked for in vain until the deadline |
| Runs.ReplacesIff | custom_components/ninebot/pynebot/client.py:143-168 | a key gives way to a fresh one if and only if it was supplied, the link opened and the handshake ended in one of those ways |
| Runs.UpdateNeedsPairingIff | custom_components/ninebot/coordinator.py:85-126 | an update ends for want of pairing if and only if there was no link and the last session asked for pairing in vain until the deadline |
| Service.RequestServed | custom_components/ninebot/pynebot/client.py:387-415 | a request whose writes work and whose reply arrives in time is answered with that reply, any stale packets before it being skipped |
| Service.ReadIsServed | custom_components/ninebot/pynebot/client.py:344-385 | a register whose bulk request is answered in full, cut short or refused is read, in the last two cases word by word |
| Service.HandshakeIsServed | custom_components/ninebot/pynebot/client.py:196-259 | a scooter that answers in time gets a session, and so does one that has to be paired if the button is pressed in time |
| Service.PollIsServed | custom_components/ninebot/pynebot/client.py:275-323 | a poll whose every register is answered in time, in whichever way, reads every register and keeps the link |
| Service.ResponsiveIsPolled | custom_components/ninebot/coordinator.py:85-101 | from no link at all, such a scooter is connected and polled, every register is recorded, and the link stays up under the client's key |
| Service.ForgetfulIsRepaired | custom_components/ninebot/pynebot/client.py:143-168 | a scooter that forgot a supplied key is found out, the key replaced, the scooter paired anew, polled and left connected under the fresh key, all in one update |
| Service.EarlyRepliesProve | custom_components/ninebot/pynebot/client.py:196-259 | with five packets on the queue the handshake succeeds on writes alone, and the cipher decrypts nothing from then on |
| Service.WaitingRefuses | custom_components/ninebot/pynebot/client.py:234-250 | a waiting packet whose status is not one is taken without accepting and pairing is asked for again |
| Witness.ConnectedIsReachable | tests/fake_scooter.py:81-261 | for every register table that single replies can answer there is a run after which the coordinator's link is up and its session proven |
| Witness.ProvenWithoutKeyIsReachable | custom_components/ninebot/pynebot/client.py:170-259 | for every client without a link there is a run that ends with a session up and proven under a key that nothing was decrypted with |

## Left out

- Bleak, the connection helper and GATT services: reduced to link operations that work, are refused or raise.
- The cipher's internals: third-party; only its documented contract is used.
- Receiver.EndToEnd: covers stretches of notifications one after the other; where the client sends in between, that both sides are still in step is a premise of the next stretch, because the cipher's contract says nothing about one object encrypting and decrypting in turn.
- Task cancellation, the client's lock and the scheduling of the event loop below the level of one event at a time.
- What becomes of a link that was left behind: it is counted when it is let go of, and may drop by itself later.
- Service.ResponsiveIsPolled: packets that do not answer may be waiting when a request goes out and may come behind a reply, but none comes between a request's writes and its reply, and nothing waits when pairing is asked for; the contracts of the client cover those runs.
- `ScooterState.get`: a dictionary lookup.
- The base coordinator: it is not part of this model, so `_async_poll_data` is taken to call `_async_update`, and nothing is said about when polls happen.
- The `timeout` override of `_request`: no caller passes one.
- Exceptions of a decoder other than ValueError and IndexError, and of encryption.
- `async_read`, `build_info`, the device metadata and hardware identifiers: plumbing over what is modelled.
- Scaling, rounding, temperature and text decoders: a register's conversion is an arbitrary partial function of its payload.
- Hex.FromHex: does not skip white space, which the stored text never contains.
- The concrete register table: any table is allowed, with unique keys where a lemma needs them.
- Entities, sensors, configuration and options flows, diagnostics, translations and the probe script.
