# FelicaSharp in Dafny

This project models FelicaSharp. FelicaSharp is a .NET library that reads FeliCa contactless cards through the Windows PC/SC smart-card subsystem. The model covers the library's core:

- **SmartCardResourceManager.** It holds the resource-manager context, connects to and disconnects from the subsystem, and lists the attached readers. The list arrives as a NUL-separated multi-string and is turned into reader objects.
- **FelicaReader.** It runs a polling loop over the reader's state bits. When a card is laid on the reader, it connects to the card and raises `FelicaCardSet`. It raises `FelicaReaderRemoved` when the reader is unplugged. Its operations are start and stop polling, connect and disconnect a card, and dispose.
- **FelicaCard.** It sends a command over the negotiated protocol into a 262-byte receive buffer. It splits off the status word and returns the payload when the status word is `90 00`.
- **FelicaService and FelicaBasicService.** They issue the PC/SC GET DATA pseudo-APDU (`FF CA P1 00 00`) for the IDm (P1 = 00), the PMm (P1 = 01) and the card-type name (P1 = F4). They check the 8-byte length of IDm and PMm and render these as hyphenated hex (`01-23-...`, as `BitConverter.ToString` does); the card-type name is rendered as ASCII text.
- **EasyFelicaReader.** This facade connects to the first reader whose name starts with a prefix. It re-raises card events only for cards whose type name is `FeliCa`, with IDm and PMm as text. It forgets the reader when the reader is removed, and it disposes everything once.
- **PersonalComputerSmartCard.** The model keeps the constants of this binding and the mapping from protocol to PCI descriptor.

## How native calls are modelled

Every native call is an input to the operation that makes it. The input is the status the call would return, plus the values it would write back. Examples:

- A card is a `Transmit` function: for each command sent to it, the `TransmitReply` it gives (the transmit status and the bytes answered). Because the reply is a function of the command, a contract that names the reply also names the command that was sent.
- `ConnectReply` carries the connect status, the card handle and the negotiated protocol.
- `EstablishReply`, `ListReply` and the release status play the same role for the context and the reader list.

A native handle is `Ptr`, which is either `Zero` or a non-zero id. .NET exceptions become the `Error` datatype, and each operation returns a `Result` or an `Outcome` instead of throwing.

## How the polling thread is modelled

The reader's thread is modelled as a pure state machine in module `Polling`:

- `Step` is one iteration of either loop.
- `Run` is the loop over a finite sequence of observations. Each observation is a status-query outcome plus the connect answer used if the loop connects.

The class `Reader.FelicaReader` is proved to follow this machine through `State()`: its `PollOnce` (split by phase into `PollFirstStatus` and `PollStatusChange`) and `Poll` move `State()` exactly as `Step` and `Run` say. The lemmas of `Polling` are about the properties of that machine.

## Module layout

| Module | File | Models |
|---|---|---|
| `Wrappers` | `wrappers.dfy` | `Option`, `Result` and `Outcome` |
| `Pcsc` | `pcsc.dfy` | constants, `byte`, `Ptr`, the protocol-to-PCI mapping |
| `Errors` | `errors.dfy` | the exceptions the library throws |
| `Card` | `card.dfy` | `FelicaCard` |
| `Text` | `text.dfy` | ASCII decoding and the hyphenated hex form |
| `Service` | `service.dfy` | `FelicaService` |
| `BasicService` | `basic_service.dfy` | `FelicaBasicService` |
| `Polling` | `polling.dfy` | the polling state machine |
| `Reader` | `reader.dfy` | `FelicaReader` |
| `ResourceManager` | `manager.dfy` | `SmartCardResourceManager` |
| `Easy` | `easy.dfy` | `EasyFelicaReader` |

Modules cannot import each other in a cycle. So the card's reference to its reader and the reader's reference to its manager are typed `object`. The card only stores its reader. The reader does use its manager: every native call it makes passes the manager's context. In the model those calls' replies are parameters, so the link between them and the manager's context is not captured (see "## Left out").

## Model

All source paths are under `FelicaSharp/`.

| member | source | states |
|---|---|---|
| Pcsc.StateBitsDistinct | FelicaSharp/PersonalComputerSmartCard.cs:31-35 | UNAWARE is 0; UNAVAILABLE, EMPTY, PRESENT and INUSE are distinct single bits, so the loop's bit tests are independent |
| Pcsc.ProtocolBitsDistinct | FelicaSharp/PersonalComputerSmartCard.cs:26-29 | UNDEFINED is 0; T0, T1 and RAW are distinct single bits; the requested protocol set holds T0 and T1 but not RAW |
| Pcsc.CardProtocol2Pci | FelicaSharp/PersonalComputerSmartCard.cs:204-225 | UNDEFINED maps to the null descriptor, and only UNDEFINED does; T0 and RAW map to their own descriptors; every other value, T1 included, maps to the T1 descriptor |
| Pcsc.NegotiatedProtocolHasOwnPci | FelicaSharp/FelicaReader.cs:131-147 | any protocol negotiated from a T0-or-T1 request gets a non-null descriptor: T0's own for T0, T1's otherwise |
| Card.Receive | FelicaSharp/FelicaCard.cs:51-64 | the transmit call succeeds exactly when its status is success and the response fits the buffer; it then yields the response unchanged; otherwise it yields a non-success status |
| Card.DecodeResponse | FelicaSharp/FelicaCard.cs:66-88 | fewer than 2 bytes fail the transmission; success means the received bytes are the payload followed by 90 00; any other trailer fails with SW1 and SW2 |
| Card.SendCommandSpec | FelicaSharp/FelicaCard.cs:45-89 | checks run in order: a null command, then an empty command, then a zero handle; then a failed transmit status, or an answer too long for the buffer or shorter than 2 bytes, is a transmission failure; a returned payload is at most 260 bytes |
| Card.DecodeFramedResponse | FelicaSharp/FelicaCard.cs:73-84 | payload followed by SW1 SW2 decodes to the payload exactly when SW is 90 00, and to an error carrying SW1 and SW2 otherwise |
| Card.SendCommandSucceeds | FelicaSharp/FelicaCard.cs:56-88 | a valid command on a live handle succeeds if and only if the card's answer to that command has success status, 2 to 262 bytes and ends in 90 00; the result is the answer without its last two bytes; any other complete answer fails with its SW1 and SW2; an incomplete one is a transmission failure |
| Card.EightBytesThenSuccess | FelicaSharp/FelicaCard.cs:79-84 | eight data bytes followed by 90 00 yield exactly those eight bytes |
| Card.FelicaCard.Init | FelicaSharp/FelicaCard.cs:27-36 | a card stores its reader, handle and protocol |
| Card.FelicaCard.Create | FelicaSharp/FelicaCard.cs:27-36 | a null reader is an argument-null error and an UNDEFINED protocol an out-of-range error; otherwise a fresh card holding exactly the given values |
| Card.FelicaCard.SendCommand | FelicaSharp/FelicaCard.cs:45-89 | the method transmits the command's contents, copies the answer into a 262-byte buffer, and returns exactly SendCommandSpec of those contents and the card's handle |
| Text.AsciiString | FelicaSharp/FelicaBasicService.cs:83 | one character per byte; bytes below 0x80 keep their code and the others become '?' |
| Text.AsciiRoundTrip | FelicaSharp/FelicaBasicService.cs:83 | decoding 7-bit bytes and encoding the text again gives the bytes back |
| Text.HexDigitValue | FelicaSharp/FelicaBasicService.cs:41 | every hex digit reads back as its value and is never the separator |
| Text.HexString | FelicaSharp/FelicaBasicService.cs:41 | empty input gives the empty string; n bytes give 3n-1 characters |
| Text.HexStringAt | FelicaSharp/FelicaBasicService.cs:35-41 | position k of the hex form is the high digit of byte k/3, its low digit, or '-', according to k mod 3 |
| Text.HexStringRoundTrip | FelicaSharp/FelicaBasicService.cs:35-41 | parsing the hex form gives back the original bytes, so the text determines the IDm or PMm |
| Text.HexSeparators | FelicaSharp/FelicaBasicService.cs:35-41 | a hyphen stands at position k exactly when k mod 3 is 2 |
| Service.GetDataApdu | FelicaSharp/FelicaService.cs:41-44 | the GET DATA command has 5 bytes and carries P1 at index 2 |
| Service.GetDataSpec | FelicaSharp/FelicaService.cs:41-44 | GET DATA never fails on a null or empty command; on a zero handle it is an invalid operation; an incomplete answer to FF CA P1 00 00 is a transmission failure |
| Service.GetDataSendsApdu | FelicaSharp/FelicaService.cs:43 | GET DATA transmits exactly FF CA P1 00 00: two cards that answer that command alike give the same result |
| Service.GetDataReturnsPayload | FelicaSharp/FelicaService.cs:41-44 | a live card answering FF CA P1 00 00 with data and 90 00 yields that data |
| Service.SizeValidated | FelicaSharp/FelicaService.cs:53-57 | errors pass through unchanged; data is kept exactly when its length equals the expected size, and any other length gives no data |
| Service.FelicaService.GetData | FelicaSharp/FelicaService.cs:41-44 | the method sends the array FF CA P1 00 00 and returns exactly GetDataSpec, which depends only on the card's answer to that command |
| Service.FelicaService.GetDataWithSizeValidate | FelicaSharp/FelicaService.cs:53-57 | the result is GetDataSpec passed through SizeValidated |
| Service.NewService | FelicaSharp/FelicaService.cs:20-24 | a service is created if and only if the card is not null, and it holds that card; a null card is an argument-null error |
| BasicService.CardTypeNameText | FelicaSharp/FelicaBasicService.cs:77-87 | no text if and only if the answer is empty; otherwise n-1 characters, each the ASCII decoding of the byte at the same position, with the last byte dropped |
| BasicService.CardTypeNameSpec | FelicaSharp/FelicaBasicService.cs:77-87 | a failing GET DATA F4 gives its error; a successful one gives the ASCII text of its answer |
| BasicService.HexText | FelicaSharp/FelicaBasicService.cs:39-42 | errors pass through; a wrong-length answer (null) is an argument-null error for `value`; otherwise the text is the hex form of the bytes and parses back to them |
| BasicService.IdmAsText | FelicaSharp/FelicaBasicService.cs:27-42 | a live card answering GET DATA P1=00 with 8 bytes and 90 00 gives those bytes' hex form; any other length gives the argument-null error |
| BasicService.EightBytesHexForm | FelicaSharp/FelicaBasicService.cs:32-42 | an 8-byte IDm or PMm renders as 23 characters, with hyphens exactly at positions 2, 5, ..., 20 |
| BasicService.FelicaBasicService.GetIdm | FelicaSharp/FelicaBasicService.cs:27-30 | GET DATA P1=00 validated against 8 bytes; any data returned has 8 bytes |
| BasicService.FelicaBasicService.GetIdmAsString | FelicaSharp/FelicaBasicService.cs:39-42 | the IDm in hex form, always 23 characters when it succeeds |
| BasicService.FelicaBasicService.GetPmm | FelicaSharp/FelicaBasicService.cs:47-50 | GET DATA P1=01 validated against 8 bytes; any data returned has 8 bytes |
| BasicService.FelicaBasicService.GetPmmAsString | FelicaSharp/FelicaBasicService.cs:59-62 | the PMm in hex form, always 23 characters when it succeeds |
| BasicService.FelicaBasicService.GetCardTypeName | FelicaSharp/FelicaBasicService.cs:68-71 | GET DATA P1=F4 with no length check |
| BasicService.FelicaBasicService.GetCardTypeNameAsString | FelicaSharp/FelicaBasicService.cs:77-87 | returns CardTypeNameSpec: the ASCII text without the last byte, or no text for an empty answer |
| BasicService.NewBasicService | FelicaSharp/FelicaBasicService.cs:22 | a basic service is created if and only if the card is not null, and it holds that card |
| Polling.ConnectCard | FelicaSharp/FelicaReader.cs:125-150 | the slot holds a card if and only if the connect call succeeded, and the card has the handle the call returned |
| Polling.DispatchCardSet | FelicaSharp/FelicaReader.cs:234-245 | CardSet is raised if and only if there is a card and a listener; otherwise nothing is raised |
| Polling.DispatchReaderRemoved | FelicaSharp/FelicaReader.cs:250-260 | ReaderRemoved is raised if and only if the reader is removed and there is a listener |
| Polling.Step | FelicaSharp/FelicaReader.cs:170-228 | one iteration raises at most one event and never changes the listeners or the disposed flag; the poller is running or has exited, and it exits only with the slot empty and the reader removed; `removed` becomes true only by exiting; ReaderRemoved implies exit; CardSet implies a successful connect whose card is in the slot, while observing |
| Polling.Run | FelicaSharp/FelicaReader.cs:170-228 | the polling thread over a finite sequence of observations: one Step per observation while the poller runs, events in order. It has no contract of its own; RunAppend, RunKeepsFlags, NoEventAfterReaderRemoved, ExitedIffReaderRemoved, RemovedOnlyByUnavailable and the present-run lemmas state its properties, and Reader.FelicaReader.Poll is proved against it |
| Polling.Start | FelicaSharp/FelicaReader.cs:84-96 | an idle poller starts in the first-status phase; any other state is unchanged; the slot and the flags are kept |
| Polling.Stop | FelicaSharp/FelicaReader.cs:102-117 | the poller becomes idle; the card slot and the flags are kept |
| Polling.Dispose | FelicaSharp/FelicaReader.cs:327-349 | a second dispose changes nothing; the first stops polling, marks the reader disposed and zeroes the handle of an attached card, which stays in the slot |
| Polling.Initial | FelicaSharp/FelicaReader.cs:66-77 | a new reader is not connected, not removed and holds no card |
| Polling.IsConnected | FelicaSharp/FelicaReader.cs:28-43 | connected means a live polling thread and a reader not removed; Initial, StartIdempotent, StopThenStart and the reader's StartPolling and StopPolling state when it holds |
| Polling.StartIdempotent | FelicaSharp/FelicaReader.cs:84-96 | starting twice is starting once; after the loop exited, starting does nothing and the reader stays disconnected |
| Polling.StopThenStart | FelicaSharp/FelicaReader.cs:84-117 | stop then start gives one new poller in the first-status phase with the card slot untouched; stopping twice is stopping once |
| Polling.DisposeIdempotent | FelicaSharp/FelicaReader.cs:327-349 | dispose is idempotent, and the first dispose leaves either no card or a card with a zero handle |
| Polling.UnavailableWins | FelicaSharp/FelicaReader.cs:196-207 | while observing, UNAVAILABLE beats every other bit: the loop exits, the slot is emptied, the reader is marked removed, and ReaderRemoved goes to a listener |
| Polling.PresentBeforeEmpty | FelicaSharp/FelicaReader.cs:209-225 | without UNAVAILABLE, PRESENT beats EMPTY: with a card held nothing happens; with none the loop connects, keeps polling, and announces a connected card to a listener |
| Polling.FirstStatusSnapshot | FelicaSharp/FelicaReader.cs:175-190 | the first successful status query moves to observing; with EMPTY clear it connects and announces a connected card to a listener; with EMPTY set nothing else changes |
| Polling.EmptyDetaches | FelicaSharp/FelicaReader.cs:220-225 | while observing, EMPTY without UNAVAILABLE or PRESENT empties the slot and raises nothing |
| Polling.OtherBitsAreIgnored | FelicaSharp/FelicaReader.cs:196-226 | while observing, a snapshot without UNAVAILABLE, PRESENT or EMPTY changes nothing |
| Polling.FailedQueryIsNoOp | FelicaSharp/FelicaReader.cs:175-196 | a failed or timed-out status query changes nothing in either phase |
| Polling.RunAppend | FelicaSharp/FelicaReader.cs:193-227 | running on a+b is running on a and then on b, for states and for events |
| Polling.RunKeepsFlags | FelicaSharp/FelicaReader.cs:170-228 | the loop never changes the listeners or the disposed flag, and removal is sticky |
| Polling.NoEventAfterReaderRemoved | FelicaSharp/FelicaReader.cs:198-207 | every event but the last is CardSet, so ReaderRemoved is raised at most once and only last |
| Polling.ExitedIffReaderRemoved | FelicaSharp/FelicaReader.cs:198-207 | the loop ends running or exited; exiting implies removed with an empty slot; with a listener, ReaderRemoved is raised if and only if the loop exited |
| Polling.RemovedOnlyByUnavailable | FelicaSharp/FelicaReader.cs:199-204 | after the loop the reader is removed if and only if it was removed before or the loop exited on UNAVAILABLE |
| Polling.AttachedPresentRunIsQuiet | FelicaSharp/FelicaReader.cs:209-218 | while a card is held, PRESENT snapshots and failed queries change nothing and raise nothing |
| Polling.AtMostOneCardSetPerPresentRun | FelicaSharp/FelicaReader.cs:209-218 | a card that stays on the reader is announced at most once, with no ReaderRemoved, and the loop keeps running |
| Polling.ScenarioPresent | FelicaSharp/FelicaReader.cs:209-218 | one PRESENT snapshot gives one CardSet and the card in the slot |
| Polling.ScenarioPresentUnavailable | FelicaSharp/FelicaReader.cs:196-218 | PRESENT then UNAVAILABLE gives CardSet then ReaderRemoved, and later snapshots change nothing |
| Polling.ScenarioEmptyPresentEmpty | FelicaSharp/FelicaReader.cs:209-225 | EMPTY, PRESENT, EMPTY gives exactly one CardSet and ends with no card |
| Reader.FelicaReader.constructor | FelicaSharp/FelicaReader.cs:66-77 | a new reader stores its manager and name, is in the initial state and has raised nothing |
| Reader.FelicaReader.IsConnected | FelicaSharp/FelicaReader.cs:28-43 | the class's connected flag: a running poller and not removed; IsConnectedMatchesState ties it to Polling.IsConnected of State() |
| Reader.FelicaReader.IsConnectedMatchesState | FelicaSharp/FelicaReader.cs:28-43 | the reader is connected exactly when its poller is alive and it is not removed |
| Reader.FelicaReader.SubscribeCardSet | FelicaSharp/FelicaReader.cs:18 | subscribing sets the CardSet listener and changes nothing else in the state |
| Reader.FelicaReader.SubscribeReaderRemoved | FelicaSharp/FelicaReader.cs:19 | subscribing sets the ReaderRemoved listener and changes nothing else in the state |
| Reader.FelicaReader.StartPolling | FelicaSharp/FelicaReader.cs:84-96 | the state moves as Polling.Start; an idle reader that is not removed becomes connected |
| Reader.FelicaReader.StopPolling | FelicaSharp/FelicaReader.cs:102-117 | the state moves as Polling.Stop and the reader is no longer connected |
| Reader.FelicaReader.ConnectCard | FelicaSharp/FelicaReader.cs:125-150 | null if and only if the connect call failed; otherwise a fresh card of this reader with the returned handle and protocol |
| Reader.FelicaReader.DisconnectCard | FelicaSharp/FelicaReader.cs:158-165 | a non-null card gets a zero handle |
| Reader.FelicaReader.DispatchEventCardSet | FelicaSharp/FelicaReader.cs:234-245 | the event log grows by this card's CardSet exactly when the card is not null and there is a listener |
| Reader.FelicaReader.DispatchEventReaderRemoved | FelicaSharp/FelicaReader.cs:250-260 | the event log grows by ReaderRemoved exactly when the reader is removed and there is a listener |
| Reader.FelicaReader.PollOnce | FelicaSharp/FelicaReader.cs:170-228 | one iteration moves State() as Polling.Step; the old log is kept as a prefix and the events added are Step's; a CardSet carries the card now held; a card released while observing has a zero handle |
| Reader.FelicaReader.PollFirstStatus | FelicaSharp/FelicaReader.cs:174-189 | an iteration of the first loop moves State() as Polling.Step; the old log is kept as a prefix and the events added are Step's; a CardSet carries the card just connected |
| Reader.FelicaReader.PollStatusChange | FelicaSharp/FelicaReader.cs:192-226 | an iteration of the second loop moves State() as Polling.Step; the old log is kept as a prefix and the events added are Step's; a card released from the slot has a zero handle |
| Reader.FelicaReader.PollAt | FelicaSharp/FelicaReader.cs:174-226 | one turn of the loop extends the run on the first i observations to the first i + 1, for the state and the event log; the old log is kept as a prefix and every CardSet added carries a card of this reader |
| Reader.FelicaReader.Poll | FelicaSharp/FelicaReader.cs:170-228 | the polling thread over a sequence of observations moves State() as Polling.Run; the old log is kept as a prefix and the events added are Run's, each CardSet carrying a card of this reader; so every Polling lemma holds of the class |
| Reader.FelicaReader.Dispose | FelicaSharp/FelicaReader.cs:327-349 | State() moves as Polling.Dispose; the held card stays but its handle is zeroed; no event is raised |
| ResourceManager.SplitNames | FelicaSharp/SmartCardResourceManager.cs:201-203 | splits the multi-string on NUL and drops the empty pieces, carrying the partial name; SplitNamesWellFormed and SplitNamesKeepOrder state its properties |
| ResourceManager.ReaderNames | FelicaSharp/SmartCardResourceManager.cs:201-203 | the reader names of a buffer, in buffer order; ReaderNamesWellFormed and ReaderNamesRoundTrip state that they are non-empty, NUL-free, keep every other character in order, and give back the names a multi-string was built from |
| ResourceManager.SplitNamesWellFormed | FelicaSharp/SmartCardResourceManager.cs:201-203 | splitting on NUL and dropping empty entries yields only non-empty names without NUL |
| ResourceManager.SplitNamesKeepOrder | FelicaSharp/SmartCardResourceManager.cs:201-203 | the names, concatenated, are the buffer without its NULs: nothing is lost or reordered |
| ResourceManager.ReaderNamesWellFormed | FelicaSharp/SmartCardResourceManager.cs:201-203 | the reader names are well-formed and concatenate to the buffer without NULs |
| ResourceManager.ReaderNamesRoundTrip | FelicaSharp/SmartCardResourceManager.cs:201-203 | parsing the double-NUL-terminated multi-string of well-formed names gives back exactly those names |
| ResourceManager.ListReaderNames | FelicaSharp/SmartCardResourceManager.cs:172-206 | the listing fails, with the listing error, if and only if either native call fails; the names are well-formed |
| ResourceManager.SmartCardResourceManager.constructor | FelicaSharp/SmartCardResourceManager.cs:53-56 | a new manager holds no context and is not disposed |
| ResourceManager.SmartCardResourceManager.IsConnected | FelicaSharp/SmartCardResourceManager.cs:32-41 | a disposed manager gives the disposed error, and only a disposed one; otherwise connected exactly when a context is held |
| ResourceManager.SmartCardResourceManager.EstablishContext | FelicaSharp/SmartCardResourceManager.cs:86-110 | disposed is an error; a held context is kept; otherwise a failing call is an error with no context, and a successful call stores the returned context |
| ResourceManager.SmartCardResourceManager.ReleaseContext | FelicaSharp/SmartCardResourceManager.cs:119-137 | disposed is an error; with no context nothing happens; a failing release is an error and keeps the context; a successful release zeroes it |
| ResourceManager.SmartCardResourceManager.Connect | FelicaSharp/SmartCardResourceManager.cs:64-70 | release, then establish: a failed release keeps the old context; otherwise success depends only on the establish call, and on success the manager holds the new context and reports connected |
| ResourceManager.SmartCardResourceManager.Disconnect | FelicaSharp/SmartCardResourceManager.cs:75-78 | a held context is released exactly when the native release succeeds; a failed release keeps it and reports the failure |
| ResourceManager.SmartCardResourceManager.GetReadersAsString | FelicaSharp/SmartCardResourceManager.cs:172-206 | disposed is an error; otherwise the result is exactly ListReaderNames |
| ResourceManager.SmartCardResourceManager.GetReaders | FelicaSharp/SmartCardResourceManager.cs:146-163 | fails if and only if listing fails; otherwise a fresh array with one fresh reader per listed name, in list order, each bound to this manager, valid, initial and silent |
| ResourceManager.SmartCardResourceManager.Dispose | FelicaSharp/SmartCardResourceManager.cs:229-244 | a second dispose changes nothing; the first releases the context and marks the manager disposed, unless the release fails, in which case nothing changes and the error is reported |
| Easy.FirstWithPrefix | FelicaSharp/EasyFelicaReader.cs:139-156 | the index found starts with the prefix and no earlier name does; no index means no name does |
| Easy.EmptyPrefixSelectsFirst | FelicaSharp/EasyFelicaReader.cs:48-54 | the empty prefix selects the first reader listed |
| Easy.ForwardedCardSet | FelicaSharp/EasyFelicaReader.cs:161-188 | without a listener nothing is raised; an event is raised if and only if there is a listener, the type name is `FeliCa` and both IDm and PMm render; the event carries the card and the IDm and PMm texts; another type name raises nothing; a failing type-name, IDm or PMm query, in that order, ends the handler with its error |
| Easy.EasyFelicaReader.constructor | FelicaSharp/EasyFelicaReader.cs:39-43 | a new facade has a fresh manager with no context, holds no reader and is not disposed |
| Easy.EasyFelicaReader.IsConnected | FelicaSharp/EasyFelicaReader.cs:123-129 | connected means a reader is held (the manager is a constant and never null); Connect, ConnectTo, Disconnect and OnReaderRemoved state how it changes |
| Easy.EasyFelicaReader.SubscribeCardSet | FelicaSharp/EasyFelicaReader.cs:28 | subscribing sets the FelicaCardSet listener |
| Easy.EasyFelicaReader.SubscribeReaderRemoved | FelicaSharp/EasyFelicaReader.cs:33 | subscribing sets the FelicaReaderRemoved listener |
| Easy.EasyFelicaReader.GetReader | FelicaSharp/EasyFelicaReader.cs:139-156 | disposed or not connected are errors; otherwise fails exactly when listing fails; null exactly when no name starts with the prefix; otherwise the fresh reader for the first name that does |
| Easy.EasyFelicaReader.ConnectTo | FelicaSharp/EasyFelicaReader.cs:66-99 | disposed is an error; with a reader held nothing happens; a held context is kept; with no context, a failing establish is an error and a successful one leaves the manager holding the established context; with no context afterwards the call fails; otherwise it succeeds if and only if listing succeeds and some name matches, failing with the listing error or reader-not-found; on failure the reader is unchanged; on success the reader held is that of the first matching name, subscribed to both events and polling |
| Easy.EasyFelicaReader.Connect | FelicaSharp/EasyFelicaReader.cs:48-54 | disposed is an error; with a reader held nothing happens; on failure the reader is unchanged; a held context is kept; with no context, a failing establish is an error and a successful one leaves the manager holding the established context; once the manager holds a context it succeeds if and only if listing succeeds and lists some reader, failing with the listing error or reader-not-found; on success it holds the first reader listed, subscribed and polling |
| Easy.ConnectNewFacade | FelicaSharp/EasyFelicaReader.cs:39-99 | a new facade whose native calls all succeed connects: the manager holds the established context, and the facade holds the first reader listed, subscribed to both events and polling |
| Easy.EasyFelicaReader.Disconnect | FelicaSharp/EasyFelicaReader.cs:105-118 | the held reader is stopped, disposed (its card's handle zeroed) and forgotten; with none held nothing happens |
| Easy.EasyFelicaReader.OnReaderCardSet | FelicaSharp/EasyFelicaReader.cs:161-188 | disposed is an error; otherwise the handler appends exactly what ForwardedCardSet gives and fails with its error |
| Easy.EasyFelicaReader.OnReaderRemoved | FelicaSharp/EasyFelicaReader.cs:195-207 | with a reader held, the manager is disconnected and the reader forgotten, and a failed release stops the handler; ReaderRemoved is then re-raised to a listener |
| Easy.EasyFelicaReader.Dispose | FelicaSharp/EasyFelicaReader.cs:230-253 | a second dispose changes neither the reader nor the manager; the first stops, disposes and forgets the held reader, then disposes the manager, and it marks the facade disposed only when the context release succeeds |

## Left out

- The native PC/SC entry points (`SCardEstablishContext`, `SCardReleaseContext`, `SCardListReaders`, `SCardConnect`, `SCardDisconnect`, `SCardGetStatusChange`, `SCardTransmit`) and the dynamic loading of `Winscard.dll` with its PCI descriptors are not modelled. They are foreign code; their results are parameters of the operations that call them.
- Threads are not modelled: the lock, `Thread.Abort`/`Join`, the apartment state, the 100 ms status-change timeout, and any interleaving between the polling thread and its callers. Each loop iteration is atomic, and the loop runs over a finite sequence of observations.
- The `SCARD_READERSTATE` plumbing is reduced to the event-state bits. That plumbing is the reader name, copying the event state into the current state, and the ATR.
- The two-call buffer-size negotiation of `SCardListReaders` is reduced to the two statuses plus the final buffer.
- Finalizers and the `disposing == false` path of the Dispose patterns are not modelled. The GC does not exist here.
- The `Readers` property of the manager (SmartCardResourceManager.cs:20-27) is not a separate member. It adds only a disposed check, which `GetReaders` already makes.
- Null checks on strings are not modelled: the reader name in `FelicaReader`'s constructor and the prefix in `EasyFelicaReader.Connect`/`GetReader`. Dafny strings are never null.
- `FelicaReader`'s constructor check for a null manager is not modelled, because the manager is always supplied. The card's `card == null` check on an `IntPtr` is also not modelled, because it can never fire.
- The prefix comparison `String.StartsWith(string)` is culture-sensitive. The model uses the ordinal prefix (`<=` on sequences).
- Card.FelicaCard.SendCommand: does not pass the PCI descriptor chosen by `CardProtocol2Pci` to the abstract transmit, because the descriptor only affects the foreign call.
- Reader.FelicaReader.Dispose follows the code: the disposed card stays in the current-card slot with a zero handle.
- Polling.Step follows the code: a first-status snapshot with a card present connects again and overwrites the slot, even when polling is restarted while a card is still held.
- The replies of the reader's connect and status-query calls are not tied to whether its manager holds a context. In the library these calls pass the manager's context (FelicaReader.cs:132, 278, 301), so once the manager has released it they fail; the model leaves such replies free.
- Easy.EasyFelicaReader.Valid: assumes that no outside code disposes the facade's manager while the facade is live. The library exposes the manager publicly (EasyFelicaReader.cs:18), and if outside code disposes it, the facade's `IsConnected` check in `Connect` throws ObjectDisposedException.
- Reader.FelicaReader.Poll: keeps polling after every step. In the library an exception thrown by a listener (for example the facade's handler when an IDm query fails) escapes the polling loop, which has no handler, and ends the polling thread. The model does not capture that ending.
- A card's answer is a function of the command alone, so the model does not capture a card answering the same command differently at different times; each operation sends each command at most once, so no modelled operation depends on this.
- `Debug.Assert` calls are not modelled as run-time checks. Instead, `WellFormedReply` requires that a successful connect returns a live handle and a defined protocol.
