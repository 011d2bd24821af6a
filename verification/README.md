# libiqrf: framing, access protocol, GPIO numbering and line sequencing

This project models the stateful core of libiqrf in Dafny and proves what it promises.

* **Framing** (`Crc8`, `Polynomial`, `CrcBits`, `CrcDetection`, `Hdlc`, `HdlcLanguage`, `HdlcRoundTrip`,
  `HdlcCorruption`, `HdlcReading`, `HdlcVectors`, `UartLink`, `UartListening`). `HdlcFrame` is a class with the
  source's four fields. Each method is tied to a function on those fields (`Take`, `Emit`), and the theorems are about
  these functions: the exact language the decoder accepts, the exact round-trip condition, resynchronisation, the
  checksum cache over whole runs, what the CRC detects, down to polynomial division over GF(2) defined without any
  register, and what of that holds on the wire, where the damage is done to stuffed octets.
* **Access protocol** (`Connector`, `ConnectorSafety`, `ConnectorLifecycle`, `ConnectorLoop`, `ConnectorHandlers`,
  `ConnectorObject`, `ConnectorTokens`). `IConnector` is a state machine whose runs are arbitrary interleavings of
  client threads, listener threads and one controlling thread, with a step between any two lock operations, flag
  accesses and handler calls. `ConnectorObject` holds the same critical sections as methods of a class, and shows that
  in every interleaving both the clients' operations and the listener's dispatches take effect as those sections do.
  `ConnectorLoop` says when the listening loop goes on, `ConnectorHandlers` which handler is called, and
  `ConnectorTokens` is about who can hold an access token and what it is good for.
* **GPIO numbering** (`GpioMap`, `GpioListing`, `GpioOrder`, `GpioNames`, `GpioResolver`). The loops that filter, parse, sort
  and number the chips of a directory listing, and the signed lookup.
* **Line sequencing** (`GpioMock`, `LineSequence`, `UartLines`). The UART connector and the bus switcher
  writing to mock lines found in any state; every moment from the first initialising write to the last of
  destruction is part of the statement, and the first exception would end the methods.
* **Reconnection** (`Backoff`). The retry loop of the TCP connector.

How the source's constructs appear: a `uint8_t` is a `bv8`; the cached `int16_t crc` is `Unset` for -1 and
`Cached(c)` otherwise; an exception is an `Option` or `Result` returned together with the state the throwing
call left behind; an optional GPIO is a nullable reference; an empty `std::function` is `None`.

Where the code departs from what is written about it, the model follows the code:

* `HdlcFrame::encode` passes the checksum byte through `encodeByte` without emitting the escape octet
  (`src/connector/uart/HdlcFrame.cpp:96`), while section 4.2 of RFC 1662 escapes the FCS like any other octet.
  `RoundTrip` states exactly when this matters, `FailingLastBytes` how often, and `MissingEscape` that the one octet
  is all that is wrong.
* The checksum is checked after unstuffing (`src/connector/uart/HdlcFrame.cpp:48-72`), so damage that makes or
  unmakes an escape octet changes what is checked. `WireErrorsThrow` gives the detection results for errors
  that do not; `OctetReplaced` says exactly when one replaced octet, hence one flipped bit, goes unnoticed, and
  `SilentFlip` is such a flip.
* `receive` decodes each call's bytes afresh (`src/connector/uart/UartConnector.cpp:129-142`), so after a wrong
  escape it takes the bad frame's closing flag for an opening one: `AfterBadFrame` says when the next frame is lost.
* `UartConnector::send` does not notice a write cut short (`src/connector/uart/UartConnector.cpp:150`).
  `ShortWrite` shows what it costs: that message, and the next one with it.
* When opening the port fails in the constructor, only the bus switcher is destroyed: a power line stays on even
  where `disablePowerOnShutdown` is set (`FailToOpen`).
* The comment above `IConnector::send` asks that a handler be registered first
  (`include/iqrf/connector/IConnector.h:142`). A registration there must have been (`TokensNeeded`), but it may
  have been of an empty function, have been undone since, or belong to another client: `GoesOutIff` says exactly
  when a send goes out, `HandlerAtSendIff` when a handler is then registered for it, and `SendWithoutHandler` is a
  send with none.
* An exclusive token stays valid when the handler it came with is gone, or was empty. `IntruderIff` says exactly
  who can send while an exclusive handler is registered, and in `Intrusion` a client sends and unregisters over
  the head of another.
* With a common bus line configured the switcher never writes the lines of the single buses
  (`include/iqrf/connector/BusSwitcher.h:91-94` and `:113-114`), so one found high stays high. `BusesLowIff`,
  `AtMostOneIff` and `OneBusIff` give the exact conditions, `FoundHigh` and `StaysHigh` the inputs.
* The map of `getGpioMap` is determined by the listing only when no two chips with lines share an ordinal
  without being the same chip; `DeterminedIff` says so in both directions, `CompetingListing` gives such a
  directory, and `KernelNamesDistinct` says that the kernel's own names never collide.
* A negative pin is converted to `std::size_t` before it is looked up. `ResolvesAsNumbered` says for which line
  counts, and which width of that type, every signed pin still resolves as documented.
* `listen` refuses only while the flag is set; `TerminatedIff` and `ListenFatalIff` say exactly when a second
  `listen` ends the process by overwriting a joinable thread object, and `TerminationReachable` that it can.

## Model

| member | source | states |
|---|---|---|
| Crc8.CalculateCrc | src/connector/uart/HdlcFrame.cpp:118-131 | the two nested loops compute the fold of eight register shifts per byte that the algebra below is about |
| Crc8.CrcLinear | src/connector/uart/HdlcFrame.cpp:121-128 | superposition: two registers fed two messages add up bitwise, for all messages of equal length |
| Crc8.ByteStepBijective | src/connector/uart/HdlcFrame.cpp:121-128 | one byte's effect is a bijection in the register and in the byte, with an explicit inverse for each |
| Crc8.LastByteUnique | src/connector/uart/HdlcFrame.cpp:118-131 | after any prefix exactly one last byte brings the checksum to a given value, and which |
| Crc8.ZeroResidue | src/connector/uart/HdlcFrame.cpp:48-52 | a message followed by byte c has checksum zero iff c is the message's checksum |
| Crc8.TestVector | tests/connector/uart/HdlcFrameTest.cpp:41-46 | the checksum byte of the repository's stuffing vector |
| Polynomial.DivisionCorrect | src/connector/uart/HdlcFrame.cpp:122-128 | schoolbook long division by x^8+x^5+x^4+1: dividend = quotient * generator + remainder |
| Polynomial.DivisionUnique | src/connector/uart/HdlcFrame.cpp:122-128 | quotient and remainder of degree below eight are the only ones |
| CrcBits.CrcIsBitSerial | src/connector/uart/HdlcFrame.cpp:120-129 | feeding bytes is feeding their bits one at a time, least significant first |
| CrcBits.BitRegIsRemainder | src/connector/uart/HdlcFrame.cpp:120-129 | the register after any bit stream, from any start value, is the remainder of polynomial long division |
| CrcBits.CrcIsRemainder | src/connector/uart/HdlcFrame.cpp:118-131 | the checksum is that remainder for the message bits times x^8 with the first eight coefficients complemented |
| CrcDetection.DetectedIffSyndrome | src/connector/uart/HdlcFrame.cpp:48-52 | whether a corruption passes the check depends on the error pattern alone |
| CrcDetection.AcceptedIffDivisible | src/connector/uart/HdlcFrame.cpp:48-52 | the check accepts exactly the multiples of the generator, and an error slips through iff it is one |
| CrcDetection.CrcParity | src/connector/uart/HdlcFrame.cpp:118-131 | the checksum has the parity of the message's bits |
| CrcDetection.OddErrorsDetected | src/connector/uart/HdlcFrame.cpp:50-52 | any odd number of flipped bits fails the check |
| CrcDetection.BurstDetected | src/connector/uart/HdlcFrame.cpp:50-52 | any non-zero error within eight consecutive bits, across byte boundaries too, fails the check |
| CrcDetection.PeriodExact | src/connector/uart/HdlcFrame.cpp:122-128 | the register shift has period exactly 127 |
| CrcDetection.DoubleErrorDetected | src/connector/uart/HdlcFrame.cpp:50-52 | two flipped bits pass the check iff their distance is a multiple of 127 bits |
| Hdlc.HdlcFrame.constructor | include/iqrf/connector/uart/HdlcFrame.h:32 | a fresh frame is idle, empty and without checksum |
| Hdlc.HdlcFrame.FromData | include/iqrf/connector/uart/HdlcFrame.h:38-43 | refuses empty data, otherwise caches the data's checksum |
| Hdlc.HdlcFrame.DecodeByte | src/connector/uart/HdlcFrame.cpp:26-73 | fields left behind and exception raised, on every branch, as the decoder specification says |
| Hdlc.HdlcFrame.Decode | src/connector/uart/HdlcFrame.cpp:18-24 | the first exception propagates; without one the frame holds the fields after all bytes |
| Hdlc.HdlcFrame.Encode | src/connector/uart/HdlcFrame.cpp:75-99 | both refusals, the emitted bytes, and that only the checksum cache changes |
| Hdlc.HdlcFrame.GetData | src/connector/uart/HdlcFrame.cpp:108-116 | throws iff decoding, else the data |
| HdlcLanguage.FramedOutcome | src/connector/uart/HdlcFrame.cpp:39-72 | any stuffed string between two flags leaves an idle decoder as closing a frame with that content does |
| HdlcLanguage.AcceptedLanguage | src/connector/uart/HdlcFrame.cpp:18-73 | a fresh decoder accepts, ending outside a frame with data d, iff the string is flag-free noise interleaved with FLAG stuff(p ++ [crc(p)]) FLAG for non-empty p, and d is the last p |
| HdlcRoundTrip.StuffFlagFree | src/connector/uart/HdlcFrame.cpp:85-92 | stuffing leaves no flag inside a frame |
| HdlcRoundTrip.StuffInjective | src/connector/uart/HdlcFrame.cpp:85-92 | stuffing loses nothing |
| HdlcRoundTrip.FramingUnambiguous | src/connector/uart/HdlcFrame.cpp:26-73 | an accepted string has one reading, noise and payloads included |
| HdlcRoundTrip.EncodingIsFramed | src/connector/uart/HdlcFrame.cpp:82-98 | the encoder emits the framing of the data and the transformed, unescaped checksum byte |
| HdlcRoundTrip.MissingEscape | src/connector/uart/HdlcFrame.cpp:93-106 | a reserved checksum is sent with the escape bit flipped, and one escape octet before it is all that is missing from an accepted frame |
| HdlcVectors.StuffingVector | tests/connector/uart/HdlcFrameTest.cpp:40-46 | the encoding of the repository's stuffing vector, octet for octet |
| HdlcVectors.ReservedChecksums | src/connector/uart/HdlcFrame.cpp:96-106 | data of one octet whose checksum is 0x7E, and whose checksum is 0x7D, with their encodings octet for octet |
| HdlcRoundTrip.RoundTrip | src/connector/uart/HdlcFrame.cpp:75-106 | decoding an encoding gives the data back without an exception iff the checksum is neither 0x7D nor 0x7E; for those two the checksum error is raised |
| HdlcRoundTrip.FailingLastBytes | src/connector/uart/HdlcFrame.cpp:96 | after any prefix exactly two last bytes, which are given, make the round trip fail |
| HdlcRoundTrip.ReEncode | src/connector/uart/HdlcFrame.cpp:93-98 | a decoded frame re-encodes to the same bytes iff its checksum needed no escaping |
| HdlcRoundTrip.ReEncodesAsReceived | src/connector/uart/HdlcFrame.cpp:48-99 | a received frame, accepted or not, is re-encoded with the checksum it carried |
| HdlcCorruption.ContentErrorReported | src/connector/uart/HdlcFrame.cpp:48-53 | a frame whose content was damaged before stuffing raises the checksum error exactly when that content fails the check |
| HdlcCorruption.ContentErrorsThrow | src/connector/uart/HdlcFrame.cpp:39-53 | in the content, before stuffing: bursts of eight bits, odd errors, and double errors not a multiple of 127 apart all make the decoder throw |
| HdlcCorruption.WireErrorIsContentError | src/connector/uart/HdlcFrame.cpp:55-72 | an error on the wire that makes or unmakes no flag or escape, and touches no octet after an escape, is an error in the content, of the same parity |
| HdlcCorruption.WireErrorsThrow | src/connector/uart/HdlcFrame.cpp:39-72 | on the wire, for such errors: bursts of eight bits and odd errors make the decoder throw, and double errors do iff their distance, less eight bits per escape between, is no multiple of 127 |
| HdlcCorruption.OctetReplaced | src/connector/uart/HdlcFrame.cpp:39-72 | one octet of a valid frame, flags included, replaced by any other: something is received iff the change takes an escape away, or puts one before an octet that may follow it, and the longer or shorter content passes the check; and what is received |
| HdlcCorruption.SilentFlip | src/connector/uart/HdlcFrame.cpp:55-72 | a concrete encoding in which one flipped bit is received as other data without an exception |
| HdlcReading.ReadsIff | src/connector/uart/HdlcFrame.cpp:18-73 | any string whatever is accepted with data v iff its flags pair off, each pair encloses correctly escaped content that passes the check, and the last holds v |
| HdlcReading.FrameRead | src/connector/uart/HdlcFrame.cpp:39-72 | for anything between two flags, which of the five exceptions is thrown, or none, and what is then held |
| HdlcReading.ErrorsIgnored | src/connector/uart/HdlcFrame.cpp:55-73 | a caller that ignores exceptions keeps everything of a frame but the wrongly escaped octets |
| HdlcReading.ShortBurst | src/connector/uart/HdlcFrame.cpp:39-72 | a burst of at most eight bits on a valid frame, across octets too, is received only if it disturbs the stuffing, and then exactly as the damaged string reads |
| HdlcRoundTrip.FlagParity | src/connector/uart/HdlcFrame.cpp:26-73 | whatever the bytes and errors, the decoder is inside a frame iff it has seen an odd number of flags |
| HdlcRoundTrip.Resynchronisation | src/connector/uart/HdlcFrame.cpp:26-73 | after arbitrary bytes the next encoded frame is received iff their flags are even in number; otherwise the decoder ends inside a new empty frame |
| HdlcRoundTrip.EncodeRefusals | src/connector/uart/HdlcFrame.cpp:75-81 | after any bytes encoding is refused as unfinished iff their flags are odd in number, and for want of data iff they are even and nothing is held |
| HdlcRoundTrip.CacheCoherence | src/connector/uart/HdlcFrame.cpp:26-99 | over every run: no checksum cached while decoding, no pending escape outside a frame, and a cached checksum is the data's own iff no checksum error has been thrown since the last opening flag |
| HdlcRoundTrip.EncodeIdempotent | src/connector/uart/HdlcFrame.cpp:75-99 | after any run encoding twice gives the same bytes, carrying the data's own checksum unless tainted |
| UartLink.Receive | src/connector/uart/UartConnector.cpp:129-142 | returns d iff the port is sound and the bytes before the timeout are in the language with last payload d; which error otherwise; left unread is what follows the shortest prefix that throws |
| UartLink.AfterBadFrame | src/connector/uart/UartConnector.cpp:129-142 | of a bad and a good frame in the port, the first call throws the bad one's fault and the second receives the good one, unless the fault was a wrong escape: then it is lost |
| UartLink.Send | src/connector/uart/UartConnector.cpp:144-151 | empty data is refused; otherwise as much of the encoding as the port takes is written, a port failure is reported and a short write is not |
| UartLink.ShortWrite | src/connector/uart/UartConnector.cpp:129-151 | of an encoding cut short nothing is received, and unless not a byte of it was written the next message is lost as well |
| UartLink.StraddlingFrameLost | src/connector/uart/UartConnector.cpp:129-142 | an encoding cut by the read timeout at any inner position is received by neither call |
| UartListening.StraddlingFrameEndsLoop | include/iqrf/connector/IConnector.h:384-415 | either part of such a frame ends the listening loop that receives it, the flag cleared and nothing dispatched |
| UartLink.BackToBack | src/connector/uart/UartConnector.cpp:129-151 | messages sent back to back and read in one call yield the last one iff no checksum among them is 0x7D or 0x7E |
| ConnectorSafety.ReachableInv | include/iqrf/connector/IConnector.h:147-230 | over every interleaving the lock is held by exactly the thread inside a critical section, and an answer of hasExclusiveAccess still holds when it is used |
| ConnectorSafety.Balance | include/iqrf/connector/IConnector.h:193-224 | effective exclusive registrations minus clearing unregistrations is 1 if the slot is taken and 0 if not |
| ConnectorSafety.ExclusiveSafety | include/iqrf/connector/IConnector.h:147-167 | no send with a sniffer token, and none with a normal token while an exclusive handler is registered, reaches the wire; the balance is 0 or 1 and is what hasExclusiveAccess answers |
| ConnectorSafety.DispatchFollows | include/iqrf/connector/IConnector.h:397-410 | what follows a listener's lock acquisition in a well-scanned trace: one primary call by the slots at acquisition, the sniffer if any, the release |
| ConnectorSafety.Routing | include/iqrf/connector/IConnector.h:384-415 | over every interleaving each dispatched buffer is non-empty and routed so, no client operation intervenes, and every handler call belongs to such a dispatch |
| ConnectorHandlers.SlotHoldsIff | include/iqrf/connector/IConnector.h:183-230 | a slot holds handler h iff the last registration or unregistration of its type registered h |
| ConnectorHandlers.HandlersCalled | include/iqrf/connector/IConnector.h:397-410 | over every interleaving the handler called is the one last registered, the normal one only with no exclusive one, the sniffer passed over only if there is none, and a fault is a missing handler or one that threw |
| ConnectorSafety.LockDiscipline | include/iqrf/connector/IConnector.h:437 | the lock is never shared, and is free exactly when no thread is inside a critical section |
| ConnectorSafety.FaultReleasesLock | include/iqrf/connector/IConnector.h:397-414 | a missing or throwing handler ends the loop with the recursive lock fully released |
| ConnectorTokens.TokensNeeded | include/iqrf/connector/IConnector.h:94-100 | over every interleaving each send on the wire and each unregistration presents a token of a type registered for before, by that client if clients keep their tokens to themselves |
| ConnectorTokens.HeldIff | include/iqrf/connector/IConnector.h:183-230 | tokens are never revoked: clients that keep theirs hold exactly those they ever registered for |
| ConnectorTokens.GoesOutIff | include/iqrf/connector/IConnector.h:147-167 | a send made alone goes out iff its client holds the token and the token is exclusive, or normal while no exclusive handler is registered |
| ConnectorTokens.SendIff | include/iqrf/connector/IConnector.h:147-167 | over every interleaving a send's effect is that its data reach the wire iff the port does not fail and the token is exclusive, or normal with no exclusive handler registered |
| ConnectorTokens.RegistersIff | include/iqrf/connector/IConnector.h:183-209 | a registration made alone puts exactly its handler into its slot and yields its token, iff it is not exclusive while that slot is taken; refused, it changes nothing |
| ConnectorTokens.UnregistersAlone | include/iqrf/connector/IConnector.h:214-230 | an unregistration made alone empties the slot of its token and no other |
| ConnectorTokens.IntruderIff | include/iqrf/connector/IConnector.h:147-167 | while an exclusive handler is registered a client can send iff it holds an exclusive token, that is, if tokens are kept, iff it ever registered exclusively |
| ConnectorTokens.HandlerAtSendIff | include/iqrf/connector/IConnector.h:139-145 | when a send goes out a handler is registered for its token iff the last call about that type registered one that is not empty |
| ConnectorTokens.SendWithoutHandler | include/iqrf/connector/IConnector.h:183-209 | a run in which a send reaches the wire with every slot empty |
| ConnectorTokens.Intrusion | include/iqrf/connector/IConnector.h:183-230 | a run in which one client sends and unregisters while the exclusive handler of another is registered |
| ConnectorLifecycle.OneListener | include/iqrf/connector/IConnector.h:237-263 | at most one listener runs; if each listen after the first is preceded by stopListen, listen is never refused and no joinable thread object is overwritten |
| ConnectorLifecycle.DyingClearsOwnFlag | include/iqrf/connector/IConnector.h:411-414 | when a dying listener clears the flag no later listener exists or is being started |
| ConnectorLifecycle.StopBoundsDispatches | include/iqrf/connector/IConnector.h:258-263 | after stopListen clears the flag at most one more buffer is dispatched, and once it returns no listener runs |
| ConnectorLifecycle.TerminatedIff | include/iqrf/connector/IConnector.h:237-263 | over every interleaving the process is terminated iff the thread just assigned was started by a listen that found the flag down while an earlier one had not been followed by stopListen |
| ConnectorLifecycle.ListenFatalIff | include/iqrf/connector/IConnector.h:237-246 | listen is refused without effect while the flag is up; with the flag down it ends the process iff an earlier listen was not followed by stopListen, and otherwise leaves a new listener running |
| ConnectorLifecycle.TerminationReachable | include/iqrf/connector/IConnector.h:244-245 | a concrete run that reaches that point |
| ConnectorLifecycle.StoppedListenerRunsDown | include/iqrf/connector/IConnector.h:384-415 | over every interleaving the listeners take at most eight steps between stopListen clearing the flag and a listen setting it |
| ConnectorLifecycle.JoinNeverStuck | include/iqrf/connector/IConnector.h:258-263 | while stopListen joins, some thread can always step nearer the listener's end |
| ConnectorLifecycle.JoinReached | include/iqrf/connector/IConnector.h:258-263 | from every reachable state in which stopListen joins, at most twelve steps of other threads let it return, with no listener left |
| ConnectorLoop.ListeningIff | include/iqrf/connector/IConnector.h:251-253 | over every interleaving, while no listen or stopListen is under way, isListening is true iff a listener is running |
| ConnectorLoop.EndsOnly | include/iqrf/connector/IConnector.h:384-415 | a listener ends only by a test that finds the flag down, or by dying |
| ConnectorLoop.DyingIff | include/iqrf/connector/IConnector.h:411-414 | a listener is dying iff its last step was a receive that threw or the unwinding of a fault |
| ConnectorLoop.UnwindingIff | include/iqrf/connector/IConnector.h:397-410 | a listener unwinds iff the last event under the lock is its fault |
| ConnectorLoop.ThrowFaults | include/iqrf/connector/IConnector.h:397-407 | a handler call leads to a fault iff the handler throws or there is none to call |
| ConnectorLoop.FaultEndsLoop | include/iqrf/connector/IConnector.h:411-414 | after a fault the only way on releases the lock, clears the flag and ends the listener |
| ConnectorLoop.LoopDelivers | include/iqrf/connector/IConnector.h:388-410 | with the flag up and a handler registered any list of messages can be received, is delivered in order, and leaves the loop where it was |
| ConnectorObject.IConnector.SendWithToken | include/iqrf/connector/IConnector.h:147-167 | the critical section of send: its event and exception by token and slots |
| ConnectorObject.IConnector.RegisterResponseHandler | include/iqrf/connector/IConnector.h:183-209 | the critical section of a registration: slots, token or refusal |
| ConnectorObject.IConnector.UnregisterResponseHandler | include/iqrf/connector/IConnector.h:214-230 | the slot of the token's type is cleared, the others kept |
| ConnectorObject.IConnector.HasExclusiveAccess | include/iqrf/connector/IConnector.h:272-275 | whether the exclusive slot holds a handler, the lock depth restored |
| ConnectorObject.IConnector.Dispatch | include/iqrf/connector/IConnector.h:397-410 | the listener's locked scope: calls made, exception, lock depth restored |
| ConnectorObject.EffectsAtomic | include/iqrf/connector/IConnector.h:147-230 | in every interleaving a client's effect is that of its critical section run alone on the current slots |
| ConnectorObject.ListenerAtomic | include/iqrf/connector/IConnector.h:397-410 | in every interleaving the events from a listener's lock acquisition to the next release are those of its locked scope run alone on the slots at the acquisition |
| ConnectorObject.DispatchIsRouted | include/iqrf/connector/IConnector.h:397-410 | the locked scope run alone keeps any trace well routed |
| GpioMap.Sort | src/gpio/GpioMap.cpp:64-65 | an ordering by ordinals of the same chips |
| GpioMap.LoadChips | src/gpio/GpioMap.cpp:50-62 | the chips of the listing: prefix, device check and parsable ordinal |
| GpioMap.NumberPins | src/gpio/GpioMap.cpp:67-77 | the map numbers the lines of the chips in turn, failing chips contributing none |
| GpioMap.GetGpioMap | src/gpio/GpioMap.cpp:47-77 | the returned map numbers densely some ordering of the listing's chips by ordinal |
| GpioMap.PrefixSums | src/gpio/GpioMap.cpp:67-77 | pin p is line l of chip k iff p is the line counts of the earlier chips plus l, with l below chip k's count |
| GpioOrder.ChipsPermute | src/gpio/GpioMap.cpp:50-62 | the chips found do not depend on the order of the listing |
| GpioOrder.OrderIndependence | src/gpio/GpioMap.cpp:48-77 | listings that are permutations of each other give one map when no chips compete for an ordinal |
| GpioOrder.CompetingChipsAmbiguous | src/gpio/GpioMap.cpp:64-65 | two chips with lines, one ordinal and different data leave two different maps possible |
| GpioOrder.DeterminedIff | src/gpio/GpioMap.cpp:48-77 | a listing determines its map iff it holds no competing chips |
| GpioOrder.NumberedByOrdinals | src/gpio/GpioMap.cpp:64-77 | with distinct ordinals pin p is (chip, line) iff p is the lines of all chips with smaller ordinals plus the line |
| GpioOrder.Dense | src/gpio/GpioMap.cpp:67-77 | the keys are exactly the numbers below the total line count |
| GpioListing.StoulIff | src/gpio/GpioMap.cpp:56-60 | the ordinal parser yields n iff the name is blanks, at most one sign, digits whose value is in range and gives n, and a rest no digit begins |
| GpioListing.OthersAddNothing | src/gpio/GpioMap.cpp:50-77 | a listing gives the maps its contributing entries alone would give: those with the prefix, a device, such a number, and a chip that opens |
| GpioListing.NamelessIgnored | src/gpio/GpioMap.cpp:56-60 | a link named gpiochips to a chip with lines gives no pins |
| GpioNames.StoulRoundTrip | src/gpio/GpioMap.cpp:56-59 | the ordinal parser reads back decimal notation, and throws from the range of unsigned long on, 2^32 or 2^64 |
| GpioNames.KernelNamesDistinct | src/gpio/GpioMap.cpp:50-62 | in a directory, chips named by the kernel have distinct ordinals |
| GpioNames.CompetingListing | src/gpio/GpioMap.cpp:56-65 | a directory with gpiochip1 and a link named gpiochip01 to another chip leaves two different maps possible |
| GpioResolver.Resolver.ResolveGpioPin | src/gpio/GpioResolver.cpp:37-45 | succeeds iff the converted pin is a key, then yields its pair; on failure the reference parameters are untouched |
| GpioResolver.ResolvesExactly | src/gpio/GpioResolver.cpp:37-45 | a signed pin resolves iff it is below the total line count, or negative and 2^64 plus it is; with a 32-bit size, iff its remainder by 2^32 is |
| GpioResolver.NegativePinsRefused | src/gpio/GpioResolver.cpp:37-41 | every negative pin is refused iff there are at most 2^63 lines, or with a 32-bit size none |
| GpioResolver.ResolvesAsNumbered | src/gpio/GpioResolver.cpp:37-45 | exactly the pins from 0 to below the line count resolve iff there are at most 2^63 lines, or with a 32-bit size none |
| GpioMock.GpioMock.InitOutput | src/gpio/GpioMock.cpp:32-36 | the line becomes a driven output with the initial value |
| GpioMock.GpioMock.SetValue | src/gpio/GpioMock.cpp:55-66 | succeeds exactly on a driven line; a failing write changes nothing |
| LineSequence.ToggleSettles | include/iqrf/connector/BusSwitcher.h:112-126 | without a common line a toggle ends with exactly the selected bus enabled, and two are enabled on the way iff it moves to an earlier bus in the order i2c, spi, uart; with one, it alone changes |
| LineSequence.DestructionSafe | src/connector/uart/UartConnector.cpp:65-82 | every moment of destruction is safe, the written bus lines end low and the others as they were, a configured power line ends low iff so configured |
| LineSequence.LifeSafe | src/connector/uart/UartConnector.cpp:65-110 | for every configuration, earlier line levels and run, at every moment PGM is low; while lines are initialised no bus line rises; then power is low only in a reset or at shutdown; without a common line at most two buses are enabled and two only while moving to an earlier one, with one the single lines stay as found |
| LineSequence.PowerCutsAreResets | src/connector/uart/UartConnector.cpp:93-110 | over a whole life power is cut exactly once for each reset, the one at construction included |
| LineSequence.LastAskedEnabled | include/iqrf/connector/BusSwitcher.h:112-150 | between operations exactly the bus last asked for is enabled, the UART after construction; with a common line, it says whether any is |
| LineSequence.BusesFollowPower | src/connector/uart/UartConnector.cpp:65-92 | no bus line changes before power is on, nor in destruction before power that is to be disabled is off |
| LineSequence.BusesLowIff | include/iqrf/connector/BusSwitcher.h:112-126 | after destruction every bus line is low iff there is no common line or the single lines were found low |
| LineSequence.AtMostOneIff | include/iqrf/connector/BusSwitcher.h:112-126 | between operations at most one bus is enabled iff there is no common line or at most one was found enabled |
| LineSequence.OneBusIff | include/iqrf/connector/BusSwitcher.h:112-126 | two buses are enabled only while moving to an earlier one, never three, under exactly the same condition |
| LineSequence.FoundHigh | include/iqrf/connector/BusSwitcher.h:91-114 | configurations with a common line in which an I2C line stays high for good and three buses are enabled at once |
| LineSequence.AbandonedSafe | src/connector/uart/UartConnector.cpp:23-56 | when construction fails after initGpio every moment is safe and the written bus lines end low, but a configured power line stays high |
| UartLines.BusSwitcher.Init | include/iqrf/connector/BusSwitcher.h:90-104 | from lines in any state: the lines a toggle writes become driven outputs, low one by one in the toggle's order, and no other line is touched |
| UartLines.BusSwitcher.Toggle | include/iqrf/connector/BusSwitcher.h:112-126 | throws iff some line it writes is not driven, else the levels after each write; no other line is touched |
| UartLines.UartLines.InitGpio | src/connector/uart/UartConnector.cpp:84-100 | from lines in any state: each initialising write, the optional reset, then the UART bus, and no write fails |
| UartLines.UartLines.ResetTr | src/connector/uart/UartConnector.cpp:102-110 | a configured power line goes low and high again, as its value callback sees, and no write fails |
| UartLines.UartLines.ToggleBus | include/iqrf/connector/BusSwitcher.h:132-150 | the single-bus toggles drive each line to whether its bus is the one enabled, or the common line to whether any is, and no write fails |
| UartLines.UartLines.Destroy | src/connector/uart/UartConnector.cpp:65-82 | the destructor's writes, followed by those of the switcher's destructor, all succeed |
| UartLines.LiveAndDie | src/connector/uart/UartConnector.cpp:65-110 | construction, any calls and destruction over distinct lines in any state, ending at the first exception: there is none, every moment is safe, final values as configured, lines that are not written untouched, all bus lines low iff no common line or the single ones found low |
| UartLines.StaysHigh | include/iqrf/connector/BusSwitcher.h:91-114 | mock lines on which a whole life leaves an I2C line found high still high |
| UartLines.FailToOpen | src/connector/uart/UartConnector.cpp:23-56 | construction that fails after initGpio: no write fails, every moment is safe, written bus lines low, power left on |
| Backoff.NextDelay | src/connector/tcp/TcpConnector.cpp:164-169 | doubling after the guard steps from min(2^n, 64) to min(2^(n+1), 64), always between 2 and 64 |
| Backoff.TotalDelay | src/connector/tcp/TcpConnector.cpp:112-170 | the waiting time during n failures is 2^(n+1)-2 for n up to 6 and 126+64(n-6) beyond |
| Backoff.TcpConnector.Connect | src/connector/tcp/TcpConnector.cpp:106-172 | the delays are min(2^n, 64) for the n-th failure; the call returns at the first success; `connecting` stays true across failures and is false on return |

## Left out

- Connector: the protocol is a state machine over values, because its properties are about interleavings; the class in ConnectorObject runs one critical section at a time and does not capture threads.
- ConnectorSafety.ReachableInv: handlers and the virtual send and receive are the environment's choice of outcome, and a handler does not call back into the connector.
- ConnectorLifecycle.JoinNeverStuck: shows that progress is always possible, not that a fair scheduler exists; sleeps take no time.
- ConnectorLifecycle.OneListener: one thread calls listen and stopListen, as the comment at include/iqrf/connector/IConnector.h:238 leaves concurrent calls uncontrolled.
- UartLink.Receive: the serial port is a sequence of bytes followed by a timeout or a failure; bytes arriving between two calls are not part of this model.
- UartLink.Send: the kinds of error checkSerialResult tells apart are one failure of the port.
- GpioMap.GetGpioMap: pin numbers are unbounded, so the counter's wrap-around at 2^32 or 2^64 lines is not part of this model; std::size_t and unsigned long have one width, 32 or 64 bits, as on Linux; is_gpiochip_device, opening a chip and its info are facts of the directory entry.
- GpioMap.Sort: any ordering by ordinal is allowed, as std::sort promises no more; its algorithm is a plain insertion.
- UartLines.LiveAndDie: requires distinct lines; the serial port between initGpio and destruction is not part of this model.
- HdlcCorruption.WireErrorsThrow: for errors that make or unmake flags or escapes, ReadsIff says what is accepted but not how often chance allows it.
- GpioMock: initInput, setDirection, setInputValue and the getters, which no connector calls and which would add only easy members.
- Backoff.TcpConnector.Connect: an attempt is a success or a failure; a call that never succeeds is seen as one that is still trying when the outcomes run out.
- The FreeBSD and libgpiod 1 paths of getGpioMap, the libgpiod and FreeBSD line drivers, and resolver singletons.
- Boost.Asio sockets, timers and the completion order inside TcpConnector::receive.
- The single-argument send of the UART and TCP connectors, which checks no token.
- ConnectorTokens.TokensNeeded: a token is the type it bears, which is all the code looks at; moving it, which leaves that type behind, is handing a copy over.
- Gpio copy, move and swap; hexadecimal formatting, logging, TrInfo nibbles and the upload address prefix, which would add only easy members.
