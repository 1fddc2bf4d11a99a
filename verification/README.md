# Verification of the JURA Bluetooth protocol library

A Dafny model of the library's logic, with proofs. It covers five parts of the program and, where
they meet, their composition.

* **The table reader** (`src/include/io/csv.hpp`). `Lines` says what reading lines means, and
  `LineReading` has the reader itself: a window of two blocks that is slid, overwritten and cut in
  place, for any block size from 4 bytes on. `Prefetch` is the worker thread that fills the third
  block, as a state machine over every interleaving. `ColumnText` says what columns, trimming,
  quoting and headers mean, `ColumnParsing` has the code that works in place on the line, `Numbers`
  the number parsers, `WrittenNumbers` what they read in a written number, and `Machines` puts all of it together in `load_machines`.
* **The calendar** (`src/include/date/date.hpp`). `Calendar` proves the closed formulas for day
  numbers against counting days one by one in the proleptic Gregorian calendar (section 3.2.1 of
  ISO 8601:2004), `Weekdays` covers weekdays and dates such as "the last Thursday of May", and
  `WeekDates` the week dates of section 4.1.4 of ISO 8601:2004.
* **The cipher** (`src/bt/ByteEncDecoder.cpp`): `Cipher`.
* **The session** (`src/jutta_bt_proto/CoffeeMaker.cpp`, `src/bt/BLEDevice.cpp`). `Session` is a
  state machine of one calling thread and the heartbeat thread, with an event log and a log of the
  frames sent. `CoffeeMakers` has the class: every method hands out the steps of the machine it
  took, so what holds in every run of the machine holds for the object.
* **Commands and status** (`src/jutta_bt_proto/CoffeeMakerLoader.cpp`, `Utils.cpp`): `Hex`,
  `Frames`, `Commands` take a product to the frame that orders it, and `Status` takes status frames
  to the list of alerts.

Each loop of the program is a method with its invariants, proved equal to a function; the lemmas say
what that function means, in terms that do not mention it: known results, laws, round trips, or literal
characters and limits. `Basics` and `CStrings` hold what the modules share.

Some promises turned out not to hold for every input. The model keeps the code as it is, and the
exact condition is proved:

* A year is stored in 16 bits, so a day number leads to a valid date and back exactly from
  -12687428 to 11248737 (`Calendar.DayRoundTrip`; `Calendar.BeyondTheLastDay` is the first day
  after it).
* For the first two days of that range `%V` gives a negative week, and their week date cannot be
  read: its year -32768 is the value that stands for a year that was not read
  (`WeekDates.FormatWeek`, `WeekDates.WeekDateRoundTrip`). For all other days week dates are right.
* Waiting for a read that was started never ends if and only if `finish_read` has answered 0 before
  (`Prefetch.StuckExactlyAfterZero`, `Prefetch.WaitingAfterZeroNeverEnds`). The line reader never
  waits then (`LineReading.LineReader.NextLine` meets the precondition of
  `LineReading.BlockReader.FinishRead`).
* A link without usable manufacturer data (at least 16 bytes and a known article number) never leads
  to a session that the code defines (`Session.UnusableDataAlwaysFails`): with no data, `disconnect`
  reaches its assertion before there is a heartbeat thread; an unknown article number ends the
  program; and 1 to 15 bytes are read beyond their end, which is undefined. Every other statement
  about sessions assumes usable data.

`README.md` of the repository writes the encoded heartbeat for the key 0x2A as `77656d`;
`Cipher.KnownVectors` confirms it.

## Model

| member | source | states |
|---|---|---|
| `Cipher.Mod256` | src/bt/ByteEncDecoder.cpp:15-23 | the two loops compute the mathematical residue modulo 256, for negative and for large values |
| `Cipher.Shuffle` | src/bt/ByteEncDecoder.cpp:25-31 | for every nibble counter and key, the substitution is a conjugate of the second table by the first table and two shifts, in arithmetic modulo 16 |
| `Cipher.EncDecBytes` | src/bt/ByteEncDecoder.cpp:33-48 | encodes every byte with the substitution of its own position, for data of any length |
| `Cipher.Table1Involution` | src/bt/ByteEncDecoder.cpp:12-12 | the first table undoes itself |
| `Cipher.Table2Involution` | src/bt/ByteEncDecoder.cpp:13-13 | the second table undoes itself and leaves no nibble unchanged |
| `Cipher.ConjugateInvolution` | src/bt/ByteEncDecoder.cpp:25-31 | a conjugate of the second table undoes itself and has no fixed point, whatever the shifts |
| `Cipher.ByteInvolution` | src/bt/ByteEncDecoder.cpp:33-48 | encoding a byte twice at the same position gives it back, and both its nibbles change |
| `Cipher.Involution` | src/include/bt/ByteEncDecoder.hpp:10-16 | encoding and decoding are the same operation: applied twice it gives back any data under any key |
| `Cipher.PositionPermutes` | src/bt/ByteEncDecoder.cpp:33-48 | at every position no two bytes are encoded alike |
| `Cipher.PrefixStable` | src/bt/ByteEncDecoder.cpp:33-48 | what follows does not influence how the bytes before it are encoded |
| `Cipher.PeriodicNibble` | src/bt/ByteEncDecoder.cpp:25-31 | the substitution comes back after 256 nibbles |
| `Cipher.Periodic` | src/bt/ByteEncDecoder.cpp:33-48 | the substitution of a byte comes back after 128 bytes |
| `Cipher.PositionIsKey` | src/bt/ByteEncDecoder.cpp:25-48 | a position works like a key: the nibble counter modulo 16 is added to the left half of the key and the counter divided by 16 to the right half, without carry |
| `Cipher.NextRow` | src/bt/ByteEncDecoder.cpp:25-31 | sixteen nibbles further on, the next right half of the key does the same |
| `Cipher.NextColumn` | src/bt/ByteEncDecoder.cpp:25-31 | one nibble further on, the next left half of the key does the same |
| `Cipher.LeftKeyShifts` | src/bt/ByteEncDecoder.cpp:25-31 | the left half of the key shifts the nibbles before and after the substitution |
| `Cipher.KnownVectors` | README.md:103-105 | the documented heartbeat for key 0x2A, and the byte of the unit test (tests/Tests.cpp, lines 18 to 24) |
| `Cipher.KnownOrder` | src/jutta_bt_proto/CoffeeMaker.cpp:349-349 | the 16 byte order that the source shows encoded and decoded; it takes every pair of both tables |
| `Hex.ToHexString` | src/jutta_bt_proto/Utils.cpp:13-24 | two upper case digits for each byte, high digit first |
| `Hex.GetHexCharVal` | src/jutta_bt_proto/Utils.cpp:26-35 | the value of a digit in either case; the assertion fails exactly for other characters |
| `Hex.FromHexString` | src/jutta_bt_proto/Utils.cpp:37-44 | the bytes of the text; an assertion fails exactly when the text is not made of pairs of digits |
| `Hex.BytesRoundTrip` | src/jutta_bt_proto/Utils.cpp:13-44 | bytes written as text are read back |
| `Hex.TextRoundTrip` | tests/Tests.cpp:93-110 | text that is read and written again comes back in upper case |
| `Hex.TwoDigitsMeaning` | src/jutta_bt_proto/Utils.cpp:26-44 | two digits of either case are one byte, 16 times the first plus the second |
| `Hex.WrittenByte` | src/jutta_bt_proto/Utils.cpp:13-24 | a byte is written as its high and its low digit, in upper case |
| `Hex.OnlyTheseDigits` | src/jutta_bt_proto/Utils.cpp:26-35 | there are no digits but these 22 |
| `Hex.FromHexAppend` | src/jutta_bt_proto/Utils.cpp:37-44 | two texts in a row are read as their bytes in a row |
| `Frames.PrepareFrame` | src/jutta_bt_proto/CoffeeMaker.cpp:327-338 | the bytes handed to the device, with the key put in place and encoded if wanted |
| `Frames.FrameDecodes` | src/include/bt/ByteEncDecoder.hpp:10-16 | decoding a frame gives its data with the key in the first byte, and in the last one when asked for |
| `Commands.ItemsToCommand` | src/jutta_bt_proto/CoffeeMakerLoader.cpp:19-29 | writes the value into the one field its argument names and leaves all others as they were |
| `Commands.MinMaxToCommand` | src/jutta_bt_proto/CoffeeMakerLoader.cpp:31-42 | writes the value divided by the step into the one field its argument names and leaves all others as they were |
| `Commands.OffsetMeaning` | src/jutta_bt_proto/CoffeeMakerLoader.cpp:20-24 | "F" and digits are read as the number of a field, with or without spaces, a plus sign, leading zeros and a text behind them |
| `Commands.FieldNamed` | src/jutta_bt_proto/CoffeeMakerLoader.cpp:20-24 | "F" and a printed number name that field |
| `Commands.OptionNamesField` | src/jutta_bt_proto/CoffeeMakerLoader.cpp:19-42 | either kind of option writes the field with the number behind its "F" and no other, and none without "F" |
| `Commands.FillFields` | src/jutta_bt_proto/CoffeeMakerLoader.cpp:44-69 | each field ends up with what the last option about it says, the first one with the product code |
| `Commands.JoinFields` | src/jutta_bt_proto/CoffeeMakerLoader.cpp:71-76 | the loop appends the fields in order |
| `Commands.ProductToCommand` | src/jutta_bt_proto/CoffeeMakerLoader.cpp:44-77 | the command is "00" followed by the 17 fields |
| `Commands.FieldInHex` | src/jutta_bt_proto/CoffeeMakerLoader.cpp:19-77 | every field of a product with values in hexadecimal is two digits |
| `Commands.FirstFieldIsCode` | src/jutta_bt_proto/CoffeeMakerLoader.cpp:69-69 | field 1 is the product code, whatever the options are about |
| `Commands.FieldByteMeaning` | src/jutta_bt_proto/CoffeeMakerLoader.cpp:19-77 | the byte of a field is the quotient of value and step of the ranged option about it, else the default value of the temperature, else that of the strength, else 0 |
| `Commands.FieldsAreBytes` | src/jutta_bt_proto/CoffeeMakerLoader.cpp:71-77 | read as hexadecimal, the fields give one byte each, in order |
| `Commands.OrderDecodes` | src/jutta_bt_proto/CoffeeMaker.cpp:354-358 | for any product and key, the frame of an order decodes to 18 bytes: the key, the product code as a number, fields 2 to 16, the key |
| `Status.WithBitMeaning` | src/jutta_bt_proto/CoffeeMaker.cpp:98-102 | the alerts appended for a bit are exactly those declared for it, in the order of their declaration |
| `Status.ActiveBelowMeaning` | src/jutta_bt_proto/CoffeeMaker.cpp:94-104 | after any number of bits the list holds exactly the declared alerts whose bit is set so far, ordered |
| `Status.ActiveMeaning` | src/jutta_bt_proto/CoffeeMaker.cpp:87-115 | an alert is in the list if and only if its bit is set in the decoded frame, and the list is ordered by bit and then by declaration |
| `Status.BitSetMeaning` | src/jutta_bt_proto/CoffeeMaker.cpp:95-97 | bit i of byte j + 1 is the one worth 128, 64, 32, 16, 8, 4, 2 or 1, the most significant one first; beyond the last byte no bit is set |
| `Status.BitsSpellByte` | src/jutta_bt_proto/CoffeeMaker.cpp:95-97 | the eight bits of a byte, read as a binary number, are that byte |
| `Status.OrderedListUnique` | src/jutta_bt_proto/CoffeeMaker.cpp:87-115 | there is only one ordered list of the same alerts, so membership and order determine the result |
| `Status.StatusMonitor.TestBit` | src/jutta_bt_proto/CoffeeMaker.cpp:95-97 | bits are counted from the most significant one of the second byte on |
| `Status.StatusMonitor.AppendAlerts` | src/jutta_bt_proto/CoffeeMaker.cpp:98-102 | appends every alert declared for a bit |
| `Status.StatusMonitor.ActiveAlerts` | src/jutta_bt_proto/CoffeeMaker.cpp:92-104 | the nested loop computes the active list of a decoded frame |
| `Status.StatusMonitor.ParseMachineStatus` | src/jutta_bt_proto/CoffeeMaker.cpp:87-115 | decodes the frame, replaces the alerts and notifies only if they changed; does nothing before the machine is known |
| `Status.AlertsFollowFrames` | src/jutta_bt_proto/CoffeeMaker.cpp:87-115 | after any sequence of frames the alerts are those of the last one, and there was exactly one notification for each change |
| `Session.KeepsFits` | src/jutta_bt_proto/CoffeeMaker.cpp:399-453 | every step keeps what holds at each point of connect, disconnect and the callbacks: state, link and heartbeat thread fit together |
| `Session.KeepsBeating` | src/jutta_bt_proto/CoffeeMaker.cpp:475-484 | every step keeps: the heartbeat loop ends only in DISCONNECTING, and threads started equal threads joined plus the running one |
| `Session.KeepsLifeCycle` | src/jutta_bt_proto/CoffeeMaker.cpp:465-473 | every step keeps the event log a walk through the life cycle that ends in the current state |
| `Session.KeepsKeys` | src/jutta_bt_proto/CoffeeMaker.cpp:125-157 | every step keeps the key equal to the first byte of the current manufacturer data |
| `Session.StepKeepsInv` | src/jutta_bt_proto/CoffeeMaker.cpp:399-484 | every step of either thread keeps the invariant |
| `Session.RunKeepsInv` | src/jutta_bt_proto/CoffeeMaker.cpp:399-484 | every run keeps the invariant |
| `Session.Reachable` | src/jutta_bt_proto/CoffeeMaker.cpp:399-484 | the invariant holds in every reachable state |
| `Session.SessionSafety` | src/jutta_bt_proto/CoffeeMaker.cpp:399-453 | in every interleaving: no assertion fails and no data is read beyond its end, between calls a heartbeat thread exists if and only if the state is CONNECTED and then the link is up, no thread is joined twice or lost, and join is reached only in DISCONNECTING |
| `Session.EventsAreALifeCycle` | src/jutta_bt_proto/CoffeeMaker.cpp:465-473 | the event log follows DISCONNECTED, CONNECTING, optionally CONNECTED and DISCONNECTING, DISCONNECTED, with no state twice in a row |
| `Session.FramesDecode` | src/jutta_bt_proto/CoffeeMaker.cpp:327-338 | every frame ever sent decodes, with the key it was sent with, to its data with that key; while CONNECTED this is the key of the current link |
| `Session.SendsOnlyOverTheLink` | src/bt/BLEDevice.cpp:149-164 | a step sends at most one frame, under the current key, only while the link is up, and never changes the log before it |
| `Session.CommandsArrive` | src/jutta_bt_proto/CoffeeMaker.cpp:393-397 | with a link and an accepting GATT exactly one frame is sent, and it decodes to the key followed by 7F 80, or 7F 81 for the goodbye |
| `Session.HeartbeatSends` | src/jutta_bt_proto/CoffeeMaker.cpp:475-484 | when it is its turn the heartbeat thread can move, and then sends exactly that heartbeat if it can be sent |
| `Session.HeartbeatGoesOn` | src/jutta_bt_proto/CoffeeMaker.cpp:475-484 | as long as the session lives the thread is back at sending after four steps, and sends nothing else in between |
| `Session.ArticleNumberMeaning` | src/jutta_bt_proto/CoffeeMaker.cpp:129-129 | the article number is read from bytes 4 and 5, the low one first; data of less than 16 bytes is not usable |
| `Session.JoinEnds` | src/jutta_bt_proto/CoffeeMaker.cpp:446-453 | while a call waits in join the heartbeat thread can always move, each move decreases a measure, and at 0 join returns to DISCONNECTED without a thread |
| `Session.UnusableDataFails` | src/jutta_bt_proto/CoffeeMaker.cpp:399-410 | after every run, a link without usable manufacturer data can lead where its data says: to the failed assertion or the exit, or to a read beyond the data |
| `Session.DoomedStep` | src/jutta_bt_proto/CoffeeMaker.cpp:399-453 | no step of any kind leaves the way there, and each comes closer |
| `Session.DoomedRun` | src/jutta_bt_proto/CoffeeMaker.cpp:399-453 | every run stays on the way there, each step coming closer |
| `Session.UnusableDataAlwaysFails` | src/jutta_bt_proto/CoffeeMaker.cpp:399-410 | every continuation after such a link leads there within four steps, can go on until then, and never comes back to the caller or to CONNECTED |
| `CoffeeMakers.CoffeeMaker.constructor` | src/jutta_bt_proto/CoffeeMaker.cpp:53-60 | a new object is in the initial state of the machine |
| `CoffeeMakers.CoffeeMaker.ChangeState` | src/jutta_bt_proto/CoffeeMaker.cpp:465-473 | the handler is called exactly when the state changes |
| `CoffeeMakers.CoffeeMaker.WriteData` | src/jutta_bt_proto/CoffeeMaker.cpp:327-338 | a frame is sent exactly when the link is up and GATT accepts it, under the current key, and the answer says which |
| `CoffeeMakers.CoffeeMaker.StayInBle` | src/jutta_bt_proto/CoffeeMaker.cpp:393-397 | sends exactly the heartbeat, which decodes to the key followed by 7F 80, if the link and GATT let it |
| `CoffeeMakers.CoffeeMaker.ParseManData` | src/jutta_bt_proto/CoffeeMaker.cpp:125-157 | takes the key from the manufacturer data, as the machine's step does |
| `CoffeeMakers.CoffeeMaker.SpawnHeartbeat` | src/jutta_bt_proto/CoffeeMaker.cpp:414-418 | starts a thread where there was none, as the machine's step does |
| `CoffeeMakers.CoffeeMaker.HandleConnected` | src/jutta_bt_proto/CoffeeMaker.cpp:399-419 | refines the machine: takes the key from the manufacturer data, greets with a heartbeat under it, starts the heartbeat thread |
| `CoffeeMakers.CoffeeMaker.LinkComesUp` | src/bt/BLEDevice.cpp:59-95 | refines the machine: the link is marked as up before the session is told |
| `CoffeeMakers.CoffeeMaker.Connect` | src/jutta_bt_proto/CoffeeMaker.cpp:427-436 | refines a run of the machine and keeps its invariant; ends CONNECTED with link and thread or DISCONNECTED with neither, after exactly the two events of that; a new session has sent exactly the accepted heartbeat, under the key of its manufacturer data |
| `CoffeeMakers.CoffeeMaker.HeartbeatStep` | src/jutta_bt_proto/CoffeeMaker.cpp:475-484 | refines one step of the heartbeat thread; it sends the heartbeat when it is at sending and nothing otherwise |
| `CoffeeMakers.CoffeeMaker.Join` | src/jutta_bt_proto/CoffeeMaker.cpp:446-449 | terminates with the thread exited; without a link nothing is sent meanwhile |
| `CoffeeMakers.DisconnectingBeat` | src/jutta_bt_proto/CoffeeMaker.cpp:475-484 | in DISCONNECTING every step of the heartbeat thread brings it closer to its end |
| `CoffeeMakers.CoffeeMaker.Leave` | src/jutta_bt_proto/CoffeeMaker.cpp:438-447 | refines the machine: reports DISCONNECTING and sends the goodbye, which is lost without a link |
| `CoffeeMakers.CoffeeMaker.SayGoodbye` | src/jutta_bt_proto/CoffeeMaker.cpp:442-444 | sends exactly the goodbye, which decodes to the key followed by 7F 81, if the link and GATT let it |
| `CoffeeMakers.CoffeeMaker.FinishDisconnect` | src/jutta_bt_proto/CoffeeMaker.cpp:447-453 | refines the machine: joins the exited thread, forgets it and reports DISCONNECTED |
| `CoffeeMakers.CoffeeMaker.Close` | src/jutta_bt_proto/CoffeeMaker.cpp:438-453 | refines the machine; reports two events after a session and none otherwise |
| `CoffeeMakers.CoffeeMaker.Disconnect` | src/jutta_bt_proto/CoffeeMaker.cpp:438-453 | refines a run of the machine and keeps its invariant; afterwards there is no session and no thread, the accepted goodbye of a session is the first new frame, under the key of its manufacturer data, and calling it without a session reports nothing |
| `CoffeeMakers.CoffeeMaker.HandleLinkLost` | src/jutta_bt_proto/CoffeeMaker.cpp:421-425 | refines a run of the machine and keeps its invariant; ends the session without sending anything more |
| `CoffeeMakers.CoffeeMaker.RequestCoffee` | src/jutta_bt_proto/CoffeeMaker.cpp:354-358 | sends exactly one frame or none, keeps the invariant, and the frame decodes to the 18 bytes of the product with the key of the current manufacturer data |
| `CoffeeMakers.KeyOfLink` | src/jutta_bt_proto/CoffeeMaker.cpp:125-126 | between calls the key is the first byte of the manufacturer data of the link that is up |
| `Lines.LineLength` | src/include/io/csv.hpp:460-463 | the first newline, or the end of the input |
| `Lines.CutUnlines` | src/include/io/csv.hpp:440-488 | text made of lines is cut into exactly those lines |
| `Lines.NoNewlineInLines` | src/include/io/csv.hpp:460-463 | no line contains a newline |
| `Lines.UnlinesCut` | src/include/io/csv.hpp:440-488 | joining the lines gives the input back, up to a missing newline at its end: no byte is lost, repeated or moved |
| `Lines.ReadLinesMeaning` | src/include/io/csv.hpp:465-470 | the lines handed out are those before the first one as long as a block, and the length error is raised exactly when there is such a line |
| `Lines.LineInFront` | src/include/io/csv.hpp:472-487 | a line in front of "\n" or "\r\n" is read without its end, and reading goes on behind it |
| `Lines.LastLine` | src/include/io/csv.hpp:472-483 | the end of the last line may be missing; a carriage return there is still taken off |
| `Lines.ContentMeaning` | src/include/io/csv.hpp:350-352 | exactly the bytes EF BB BF in front are taken off, once, and nothing else |
| `Lines.ReadWritten` | src/include/io/csv.hpp:440-488 | text written line by line, with either line end and lines that fit, is read back line by line |
| `LineReading.ReadBytes` | src/include/io/csv.hpp:180-199 | delivers the next bytes, fewer than asked for only at the end of the input, and writes nowhere else |
| `LineReading.BlockReader.Init` | src/include/io/csv.hpp:290-292 | takes over the rest of the source |
| `LineReading.BlockReader.StartRead` | src/include/io/csv.hpp:298-301 | records one request, only when none is pending, and lends it a part of the buffer, whose contents are arbitrary from then on |
| `LineReading.BlockReader.Scribble` | src/include/io/csv.hpp:219-223 | the worker may write anything into the lent part and nothing elsewhere |
| `LineReading.BlockReader.FinishRead` | src/include/io/csv.hpp:303-305 | answers as serving all requests in order would; requires that nobody wrote into the lent part since the request, and must not be called after an answer of 0 |
| `LineReading.LineReader.constructor` | src/include/io/csv.hpp:343-358 | the window stands at the start of the input behind a byte order mark, and a read ahead is pending if there may be more |
| `LineReading.LineReader.ReadAhead` | src/include/io/csv.hpp:354-357 | hands the source over and lends the third block to the first read |
| `LineReading.LineReader.SkipByteOrderMark` | src/include/io/csv.hpp:350-352 | skips exactly a byte order mark |
| `LineReading.LineReader.CopyBlock` | src/include/io/csv.hpp:450-455 | moves a block down; the third block is touched only while no read is pending |
| `LineReading.LineReader.SlideWindow` | src/include/io/csv.hpp:449-458 | the window moves by a block and the text still to be read is unchanged |
| `LineReading.LineReader.Refill` | src/include/io/csv.hpp:453-457 | lets the block read ahead into the window and lends the third block to the next read; never waits after an answer of 0 |
| `LineReading.LineReader.TakeBlock` | src/include/io/csv.hpp:453-456 | the window grows by exactly what was read, and the text still to be read is unchanged |
| `LineReading.LineReader.FindLineEnd` | src/include/io/csv.hpp:460-463 | finds the end of the line whenever it is in the window |
| `LineReading.LineReader.CutLine` | src/include/io/csv.hpp:465-487 | gives up exactly when the line is at least a block long; otherwise ends it in place without disturbing the text behind it; the third block stays as it was |
| `LineReading.LineReader.EndLine` | src/include/io/csv.hpp:472-483 | the line stands in the buffer, ended by a NUL and without its carriage return; nothing outside the line and its end changes, a pending block in particular |
| `LineReading.LineReader.NextLine` | src/include/io/csv.hpp:440-488 | the next line of the text, the end, or the length error, and what is left to be read; the line counter goes up with every line; while a read is pending, the third block holds what was lent to it |
| `LineReading.ReadAllLines` | src/include/io/csv.hpp:343-488 | for every input and every block size, calling next_line to the end gives the input without byte order mark, cut at newlines, up to the first line as long as a block |
| `Prefetch.KeepsHandshake` | src/include/io/csv.hpp:202-285 | every step keeps what the two threads know about each other: who sleeps, who reads, and why |
| `Prefetch.KeepsServed` | src/include/io/csv.hpp:207-232 | every step keeps: what was delivered is the input cut up by the requests in their order |
| `Prefetch.KeepsAnswered` | src/include/io/csv.hpp:247-259 | every step keeps the answers equal to the sizes of the chunks served, and to exceptions from a failed read on |
| `Prefetch.KeepsRequested` | src/include/io/csv.hpp:239-245 | every step keeps at most one request open, no read served after an empty one, and none after a failed one |
| `Prefetch.StepKeepsInv` | src/include/io/csv.hpp:202-285 | every step of either thread keeps the invariant |
| `Prefetch.RunKeepsInv` | src/include/io/csv.hpp:202-285 | every interleaving keeps the invariant |
| `Prefetch.AnswersLikeSynchronous` | src/include/io/csv.hpp:202-311 | in every interleaving the threaded reader answers like the one without threads: requests served in order and at most once, each answer that of its own request; finish_read throws exactly from a failed read on |
| `Prefetch.NothingLost` | src/include/io/csv.hpp:207-232 | in every interleaving, what was served and what the source still holds are the input: nothing is lost, repeated or moved |
| `Prefetch.NothingLostByStep` | src/include/io/csv.hpp:207-232 | every step keeps that |
| `Prefetch.ChunkSize` | src/include/io/csv.hpp:182-190 | a read gets as much as it asked for, unless the source ends before |
| `Prefetch.WritesOnlyWhilePending` | src/include/io/csv.hpp:207-232 | the worker writes into the buffer only between the start of a read and its answer |
| `Prefetch.NoDeadlock` | src/include/io/csv.hpp:202-285 | whenever the main thread is inside a call, the destructor and calls after an exception included, some thread can move |
| `Prefetch.CallsEnd` | src/include/io/csv.hpp:239-271 | every step inside a call decreases a measure or ends the call |
| `Prefetch.CallLength` | src/include/io/csv.hpp:239-271 | no schedule keeps a call, or the join of the destructor, going beyond a bound |
| `Prefetch.StuckForever` | src/include/io/csv.hpp:247-259 | waiting for a worker that has exited never ends, whatever happens |
| `Prefetch.WaitingAfterZeroNeverEnds` | src/include/io/csv.hpp:247-259 | after an answer of 0, in any run, another finish_read would wait forever |
| `Prefetch.StuckExactlyAfterZero` | src/include/io/csv.hpp:247-259 | waiting for a pending read is hopeless if and only if an answer was 0 |
| `Prefetch.ZeroAnswerIsReachable` | src/include/io/csv.hpp:202-285 | a run in which that situation occurs |
| `ColumnText.ColumnEndMeaning` | src/include/io/csv.hpp:734-752 | a column ends at the first separator with an even number of quotes before it; a quote is not closed if and only if there is no such place |
| `ColumnText.TrimmedMeaning` | src/include/io/csv.hpp:669-675 | trimming takes blanks off both ends, only blanks, and all of them |
| `ColumnText.TrimmedIs` | src/include/io/csv.hpp:669-675 | blanks around a text that has none at its ends are all that is taken off |
| `ColumnText.ColumnsMeaning` | src/include/io/csv.hpp:826-846 | for every line: its cells exactly when there are as many as expected, the error for too few or too many exactly otherwise, and for an open quote the error exactly when fewer columns end before it than are expected |
| `ColumnText.CollapseDoubled` | src/include/io/csv.hpp:754-771 | undoes the doubling of quotes in any text |
| `ColumnText.CollapseQuotes` | src/include/io/csv.hpp:760-766 | of n quotes in a row half are left, rounded up, so a single quote stays |
| `ColumnText.CollapseOther` | src/include/io/csv.hpp:760-766 | every other character stays |
| `ColumnText.EndOfDoubled` | src/include/io/csv.hpp:734-752 | inside quotes the scan passes doubled quotes and separators and stops at the closing quote |
| `ColumnText.EndOfQuoted` | src/include/io/csv.hpp:734-752 | the end of a quoted text is found exactly, whatever it contains |
| `ColumnText.QuoteRoundTrip` | src/include/io/csv.hpp:754-771 | a quoted text with blanks around the quotes is read as the text, with the blanks inside the quotes |
| `ColumnText.UnquotedCell` | src/include/io/csv.hpp:754-756 | a cell that is not in quotes is its text without the blanks around it |
| `ColumnText.EndOfPlain` | src/include/io/csv.hpp:724-728 | a text without separators and quotes ends where it ends |
| `ColumnText.CutJoined` | src/include/io/csv.hpp:808-824 | cells written with separators between them are cut into those cells |
| `ColumnText.QuotedRowRoundTrip` | src/include/io/csv.hpp:734-824 | a row of quoted texts gives all the texts back (section 2 of RFC 4180, rules 5 to 7) |
| `ColumnText.HeaderColumnsMeaning` | src/include/io/csv.hpp:848-886 | in an accepted header each column stands under its own name and no name is used twice |
| `ColumnText.HeaderColumnsSucceed` | src/include/io/csv.hpp:848-886 | a header of distinct known names is accepted |
| `ColumnText.PlacedPermutes` | src/include/io/csv.hpp:887-895 | a header in which no name is missing makes the order a permutation of the columns |
| `ColumnText.HeaderExact` | src/include/io/csv.hpp:848-896 | without ignore flags a header is accepted if and only if its cells are the column names in some order without repetition, and the order is then a permutation |
| `ColumnText.HeaderColumnsExact` | src/include/io/csv.hpp:858-886 | the first cell that repeats a column name, or is none and may not be, decides the error, and an open quote only when there is no such cell before it |
| `ColumnText.HeaderMeaning` | src/include/io/csv.hpp:848-896 | with either ignore flag: the error of the first bad cell, else that of an open quote, else that of a missing name, and otherwise every column stands under its name |
| `ColumnParsing.FindNextColumnEnd` | src/include/io/csv.hpp:724-752 | the pointer loop finds the end of the first column, or an open quote, under both quote policies |
| `ColumnParsing.SkipQuoted` | src/include/io/csv.hpp:740-750 | goes behind the quote that closes a quoted part, and fails exactly when there is none |
| `ColumnParsing.SkipBlanks` | src/include/io/csv.hpp:669-673 | what remains between the two pointers is the trimmed text |
| `ColumnParsing.Trim` | src/include/io/csv.hpp:669-675 | the trimmed text stands in the buffer ended by a NUL, and nothing outside the column changes |
| `ColumnParsing.Unescape` | src/include/io/csv.hpp:754-771 | the unquoted text stands in the buffer, and nothing outside the column changes |
| `ColumnParsing.CollapseInPlace` | src/include/io/csv.hpp:758-768 | copying a text onto itself without doubled quotes never overwrites what is still to be read |
| `ColumnParsing.CopyCharacter` | src/include/io/csv.hpp:760-766 | writes one character at the write position, and reads one or both of two quotes |
| `ColumnParsing.ChopNextColumn` | src/include/io/csv.hpp:808-824 | splits the line at the end of its first column, in place |
| `ColumnParsing.TakeColumn` | src/include/io/csv.hpp:834-842 | chops, trims and unquotes one column and leaves the rest of the line readable |
| `ColumnParsing.ParseLine` | src/include/io/csv.hpp:826-846 | every column is found where the order puts it, trimmed and unquoted, or the error is the right one; work on later columns does not disturb earlier ones |
| `ColumnParsing.FindName` | src/include/io/csv.hpp:865-876 | the first column name equal to the cell |
| `ColumnParsing.ParseHeaderLine` | src/include/io/csv.hpp:848-896 | computes the header's order or the first error, with both ignore flags |
| `ColumnParsing.RowUnderHeader` | src/include/io/csv.hpp:826-896 | in every row, column i holds the cell that stands under the header equal to name i |
| `Numbers.DigitsMeaning` | src/include/io/csv.hpp:923-973 | digits, however many zeros lead them, give their exact value when it fits the type and are out of range exactly when it does not, on both sides |
| `Numbers.DecimalMeaning` | src/include/io/csv.hpp:927-933 | which characters are the ten digits, and what one more of them does to a number |
| `Numbers.TextMeaning` | src/include/io/csv.hpp:923-973 | something that is no digit makes a text no number, unless the digits before it are out of range already |
| `Numbers.PlusMeaning` | src/include/io/csv.hpp:970-972 | a plus sign changes nothing |
| `Numbers.DecimalRoundTrip` | src/include/io/csv.hpp:923-938 | a printed number is read back |
| `Numbers.ParseUnsignedInteger` | src/include/io/csv.hpp:923-938 | for every integer width and policy: the exact value, the first error, or what the policy makes of an overflow; when it is ignored, the value of the digits before the one that overflows |
| `Numbers.ParseSignedInteger` | src/include/io/csv.hpp:951-973 | the same for signed texts; with the clamping policy the nearest bound |
| `Numbers.ParseNegative` | src/include/io/csv.hpp:953-969 | the division before each step detects an underflow exactly, given division that truncates; when it is ignored, the value of the digits before that one is left |
| `Numbers.StopsAtUnique` | src/include/io/csv.hpp:786-792 | the value left when range errors are ignored is determined by the text and the limit |
| `Numbers.PowerOfSquare` | src/include/io/csv.hpp:1030-1032 | halving an even exponent while squaring the base keeps the power |
| `Numbers.Scale` | src/include/io/csv.hpp:1029-1038 | square and multiply terminates and multiplies by the power, for every exponent from 1 on |
| `Numbers.TenthPower` | src/include/io/csv.hpp:1022-1027 | powers of a tenth are inverse powers of ten |
| `Numbers.ScaleByTen` | src/include/io/csv.hpp:1020-1039 | scales by the power of ten for exponents of either sign |
| `Numbers.ReadWhole` | src/include/io/csv.hpp:997-1001 | the value of the digits before the point |
| `Numbers.AddFraction` | src/include/io/csv.hpp:1003-1013 | each digit behind the point counts a tenth of the one before |
| `Numbers.ReadMantissa` | src/include/io/csv.hpp:997-1013 | digits and fraction as a decimal number, and where the exponent begins |
| `Numbers.ParseFloat` | src/include/io/csv.hpp:986-1047 | the decimal meaning of sign, digits, fraction and exponent, over exact reals, or an error |
| `WrittenNumbers.WrittenIsRead` | src/include/io/csv.hpp:986-1047 | any sign, digits, fraction and exponent are read as all the digits as one number, divided by ten for each digit of the fraction and multiplied or divided by ten as often as the exponent says |
| `WrittenNumbers.ValueRead` | src/include/io/csv.hpp:986-1047 | the parts of a written number are told apart, whichever are missing |
| `WrittenNumbers.DecimalConcat` | src/include/io/csv.hpp:996-1012 | digits behind other digits |
| `WrittenNumbers.MantissaValue` | src/include/io/csv.hpp:996-1012 | digits and fraction as one number, divided by ten for each digit of the fraction |
| `WrittenNumbers.ScaledValue` | src/include/io/csv.hpp:1020-1039 | scaling multiplies or divides by ten as often as the exponent says |
| `WrittenNumbers.JunkIsRefused` | src/include/io/csv.hpp:1040-1043 | anything else behind the digits makes the text no number |
| `WrittenNumbers.ExponentJunkIsRefused` | src/include/io/csv.hpp:1014-1018 | so does anything behind the digits of the exponent |
| `Machines.ReadNumber` | src/include/io/csv.hpp:923-938 | a number column as the table's meaning has it |
| `Machines.ReadMachine` | src/jutta_bt_proto/CoffeeMakerLoader.cpp:99-101 | the four columns become the fields of a machine, or the first bad number is reported |
| `Machines.ReadRow` | src/include/io/csv.hpp:1195-1224 | one line in the buffer becomes a machine or an error, and nothing outside the line changes |
| `Machines.ReadNextRow` | src/include/io/csv.hpp:1195-1224 | takes the next line from the window and reads it in place |
| `Machines.NumberMeaning` | src/include/io/csv.hpp:923-938 | an article number is accepted up to 18446744073709551615 and a version up to 255, and larger ones and other texts give their errors |
| `Machines.CellRead` | src/include/io/csv.hpp:669-675 | blanks and tabs around a cell are taken off |
| `Machines.RowMeaning` | src/jutta_bt_proto/CoffeeMakerLoader.cpp:92-101 | a row of four cells between semicolons, with blanks around them or not, gives its machine or the error of a number |
| `Machines.WrongColumns` | src/include/io/csv.hpp:826-846 | a row with fewer or more than four cells is refused with the right error |
| `Machines.LoadMachines` | src/jutta_bt_proto/CoffeeMakerLoader.cpp:89-104 | for every file and block size, reading block by block in place gives what the table means, errors included |
| `Machines.PrintedRow` | src/jutta_bt_proto/CoffeeMakerLoader.cpp:99-101 | a printed machine is read back from its row |
| `Machines.PrintedRows` | src/jutta_bt_proto/CoffeeMakerLoader.cpp:99-101 | printed machines join those already in the map, which keep their places, and reading goes on behind them |
| `Machines.MachineInFront` | src/jutta_bt_proto/CoffeeMakerLoader.cpp:99-101 | a printed machine in front of either line end is taken off and joins the map unless its number is there |
| `Machines.BadLine` | src/jutta_bt_proto/CoffeeMakerLoader.cpp:99-101 | the first line that is no machine, or is as long as a block, ends the loading with its error |
| `Machines.TableRead` | src/jutta_bt_proto/CoffeeMakerLoader.cpp:89-104 | a file of a header, machines and a rest is loaded as the first machine of every number and whatever the rest gives, with or without a byte order mark and with either line end |
| `Machines.TableRoundTrip` | src/jutta_bt_proto/CoffeeMakerLoader.cpp:89-104 | printing any list of machines behind any header line and loading it gives for every article number its first machine, with or without a byte order mark and with either line end |
| `Calendar.FloorDivIsFloor` | src/include/date/date.hpp:2608-2608 | the corrected division rounds down, also for negative numbers |
| `Calendar.ToDaysFormula` | src/include/date/date.hpp:2599-2614 | the computation with eras equals counting leap days directly |
| `Calendar.Epoch` | src/include/date/date.hpp:2599-2614 | 1970-01-01 is day 0 |
| `Calendar.LeapDaysStep` | src/include/date/date.hpp:1586-1590 | the number of leap days grows exactly in leap years |
| `Calendar.ToDaysCountsDays` | src/include/date/date.hpp:2599-2614 | the day after any date, found from the table of month lengths alone, has the next day number |
| `Calendar.YearOfEra` | src/include/date/date.hpp:2687-2704 | the division formula finds the year of every day of an era |
| `Calendar.CivilRoundTrip` | src/include/date/date.hpp:2687-2704 | every day number is that of the existing date computed from it |
| `Calendar.ToDaysIncreases` | src/include/date/date.hpp:2646-2650 | later dates have larger day numbers |
| `Calendar.OrderIsDayOrder` | src/include/date/date.hpp:2646-2650 | a date is before another, or equal to it, if and only if its day number is |
| `Calendar.OkIsInRange` | src/include/date/date.hpp:2626-2632 | the year of a date is valid if and only if its day number is between the limits |
| `Calendar.StoredRoundTrip` | src/include/date/date.hpp:1556-1556 | a date of any year comes back from its day number with its year reduced to 16 bits |
| `Calendar.DateRoundTrip` | src/include/date/date.hpp:2599-2704 | every valid date comes back from its day number |
| `Calendar.DayRoundTrip` | src/include/date/date.hpp:2687-2704 | a day number leads to a valid date and back if and only if it is between the limits |
| `Calendar.NextDayNumber` | src/include/date/date.hpp:2687-2704 | the next day number leads to the next day |
| `Calendar.DayNumbersCountDays` | src/include/date/date.hpp:2599-2704 | adding n to a day number leads to the date found by stepping n days through the calendar |
| `Calendar.BeyondTheLastDay` | src/include/date/date.hpp:1556-1556 | the day after the last one wraps to a year that is not valid |
| `Weekdays.WeekdayIsMod7` | src/include/date/date.hpp:1687-1692 | for every 32 bit day number the weekday is (z + 4) modulo 7, in spite of the unsigned wrap |
| `Weekdays.KnownWeekdays` | src/include/date/date.hpp:1687-1692 | 1970-01-01 was a Thursday and 2000-01-01 a Saturday |
| `Weekdays.WeekdayArithmetic` | src/include/date/date.hpp:1763-1777 | differences and sums of weekdays are taken modulo 7 |
| `Weekdays.WeekdayPlusMinus` | src/include/date/date.hpp:1763-1777 | the difference of two weekdays is the one number of days from 0 to 6 that leads from one to the other |
| `Weekdays.MonthWeekdayRoundTrip` | src/include/date/date.hpp:2831-2845 | a day number written as n-th weekday of its month is valid and leads back |
| `Weekdays.MonthWeekdayMeaning` | src/include/date/date.hpp:2819-2845 | the date is that weekday in that week of the month, and ok holds if and only if it lies in the month |
| `Weekdays.LastWeekdayMeaning` | src/include/date/date.hpp:2976-2981 | the date is that weekday, lies in the month, and no later day of the month is that weekday |
| `Weekdays.AddMonthsMeaning` | src/include/date/date.hpp:2066-2071 | months are added as if counted from year 0, up to the wrap of the year |
| `Weekdays.AddMonthsUndone` | src/include/date/date.hpp:2066-2071 | subtracting the same months gives the month back, also after a wrap |
| `WeekDates.FirstWeekMeaning` | src/include/date/date.hpp:4474-4475 | the start is the Monday of the week with the first Thursday of the year |
| `WeekDates.LookAhead` | src/include/date/date.hpp:4473-4477 | three days ahead lies the year of the week, or the one after it exactly when week 1 is still to come |
| `WeekDates.WeekInYear` | src/include/date/date.hpp:4859-4867 | counting from the start of week 1 gives the number of the week's Thursday in its year, from 1 to 53 |
| `WeekDates.JanuaryFourth` | src/include/date/date.hpp:4848-4890 | the fourth of January is in the first week of its year |
| `WeekDates.NextDayOfWeek` | src/include/date/date.hpp:4848-4890 | weeks end with their Sunday, and the next one has the next number or is the first of the next year |
| `WeekDates.CodeLookAhead` | src/include/date/date.hpp:4473-4477 | the same with years of 16 bits, up to both ends of the range |
| `WeekDates.FormatWeekYear` | src/include/date/date.hpp:4467-4495 | %G of every valid day is the year of the Thursday of its week |
| `WeekDates.FormatWeek` | src/include/date/date.hpp:4848-4890 | %V is the number of that Thursday in its year, from 1 to 53, for every valid day but the first two, where it is negative |
| `WeekDates.WeekDateRoundTrip` | src/include/date/date.hpp:6475-6550 | for every valid day: reading its week year, week and weekday gives the day, except that for the first two days the year counts as not read and reading fails, whatever week was written |
| `WeekDates.ReadWeekDateMeaning` | src/include/date/date.hpp:6475-6550 | any date that is read is that weekday of that week of that year; week 53 of a year without one is the first week of the next year |

## Left out

- Session.SessionSafety: real time, sleeps and the status request of the heartbeat are steps without effect; callbacks are delivered between calls, connect is called only while the link is down, two threads inside disconnect at once and handlers that call back into the object are not modelled.
- Session.UnusableDataAlwaysFails: what happens after a read beyond short manufacturer data is not modelled.
- Status.AlertsFollowFrames: for one machine; connecting anew clears the list without a notification and replaces the declarations. A frame without any byte makes the source's bit count wrap around and is excluded.
- Commands.OrderDecodes: the offset of an option must name a field (1 to 17), because the source writes to it unchecked, and a step must not be 0. Field 17 is overwritten by the key. Offsets with a minus sign, which the source's stream negates modulo 2 to the 64 ("F-18446744073709551615" names field 1), and offsets beyond a machine word are outside the model.
- Calendar.DayRoundTrip: day numbers within 719468 of the limits of int, where the source's addition overflows, are computed without overflow here.
- Numbers.ParseFloat: exact reals instead of rounding, and not for an exponent text equal to or below the least int: the clamping policy reads all of these as the least int, whose negation is undefined.
- Prefetch.CallsEnd: counts no wake-ups without a reason; these are steps of the machine, and all safety properties hold with them.
- LineReading.LineReader.NextLine: uses the reader without threads, whose answers the threaded one is proved to give; what is lent to a pending read is compared when it ends, so a write that is undone before that would not be noticed; byte sources return fewer bytes than asked for only at the end, as the three sources of csv.hpp do. File names in error messages are not part of the model.
- ColumnParsing.ParseLine: the number of columns is a parameter, the order is distinct as the reader class keeps it, and comment policies, the single-character and string overloads of parse are not part of the model.
- Machines.TableRoundTrip: names that contain separators, line ends or blanks at their ends cannot be written in this format. A NUL in a line ends it for the columns, as it does in the source.
- WeekDates.FormatWeek: %g, %U and %W and the stream and locale handling around the flags are not part of the model.
- WeekDates.WeekDateRoundTrip: starts from the numbers that were read; how many characters a flag reads is up to its width. Only %G, %V and a weekday are read, so no other field can contradict them.
- GATT, Bluetooth scanning and characteristics: only success, failure and the manufacturer data are parameters.
- Loading the machine files with tinyxml2: products and alerts are given.
- Logging, the executables and the build: no properties.
- append_prod_stat_bits and the statistics: the code and its documentation disagree about them.
- to_ymd, parse_version and the other small decoders of fixed size: facts of one branch.
