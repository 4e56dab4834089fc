# A verified model of the PIV security-key firmware

The firmware is a USB smart-card reader and PIV card in one: a host sends CCID messages, the PIV applet answers the
APDUs in them, and a signature is made only after a VERIFY with the right PIN and a press of a physical button. This
project models it as one transition system and proves what its layers guarantee together.

The C functions become methods on classes that hold the C variables and buffers (`Bytes.MemCpy`, `Tlv.BerLenWrite`,
`Apdu.ResponseBuilder`, `DeviceState.Device`, `Button.Driver`, `KeyStore.Backend`, `PivApplet.Applet`,
`CcidDriver.Driver`, `Firmware.System`). Each method is proved equal to a function of values (`PivModel`, `CcidModel`,
`Machine`), and everything else is proved about those functions:

- `Machine` composes them into a `World` with one `Step` per event: message arrival, USB reset, unmount, sender,
  every memory access of the button poll, the tick, and - between any two of these - the button interrupt and the end
  of a bulk-IN transfer. The clock is any non-decreasing sequence of readings. `Firmware.System.RunLoop` proves that
  the objects, executing any schedule, go exactly through the states of such a run.
- `Authorization`, `Credit`, `Debounce` and `Session` prove the guarantees of one layer on its own abstract run;
  `SafetyOfFirmware` and `Session` carry them over to every run of the whole firmware.
- `Tlv` and `Objects` hold a BER-TLV decoder written from ITU-T X.690 section 8.1.3 and ISO/IEC 7816-4:2005
  section 5.2.2 alone, and readers for the PIV objects, which share nothing with the code that builds the objects.
- `CardEdge` says in octets alone, as literals, what a host is told for every command in every state and what becomes
  of the card; `CardObjects` decodes the fixed data objects. `Host.Answers` does the same for every CCID message and
  `KeyStore.HoldsFields` for the flash sector. None of them uses the functions that compute the answers.
- `Chaining`, `Host`, `Transfers`, `Reading` and `Delivery` follow a host: over GET RESPONSE chains, over the bulk pipe,
  and over both.
- `Reassembly` states response chaining for every run of the whole firmware.
- `Progress` builds runs: from any state between messages the loop can come round, any message can be answered, and so
  the runs that `Delivery` speaks of exist, from boot on, for every certificate. `Journeys` has the pieces that longer
  runs are put together from, and `Signing` builds the runs that the guarantees about the signer speak of, from boot to
  a signature as late as the bounds allow.
- `Continuations` states what can be told at one event about everything that may follow it.

## Where the code and its documentation disagree

The model follows the code.

- `src/piv.c:12` says that the PIN flag is reset on IccPowerOff; only IccPowerOn resets it (`src/ccid.c:98-109`), and a
  USB reset leaves the applet as it is. `Session` proves that this does no harm.
- `README.md:119` says that the authorization window is exactly ten seconds, and `include/device_state.h:51` that
  the accessor tells whether it is open. Neither accessor reads the clock; the bound is ten seconds and one gap between
  ticks (`SafetyOfFirmware.SignerCallIsTimely`), and from every boot a run reaches it
  (`Signing.SignatureCanBeLate`).
- `src/piv.c:440-445` speaks of blocking until the button is pressed; the handler answers 6985 at once.
- `src/button.c:2` and `README.md:15` say GPIO 23; the constant is 9 (`include/config.h:13`).
- `src/piv.c:40` counts 13 serial-number octets in the CCC; the initialiser has 14, as its length octets need.
- `src/device_state.c:15-19` leaves the deadline as it is; no invariant needs it in IDLE.
- `src/piv.c:326-329` answers a GET DATA in one piece without ending an older chain. `Chaining.OthersLeaveChain` states it.

## Properties that hold under a condition

Each of these is stated as an equivalence, so the condition is exact.

- A certificate or other length is written correctly exactly below 2^16 (`Tlv.LengthRoundTripIff`); no object of the
  applet comes near it (`Objects.CertificateRoundTrip`).
- Re-encoding an accepted APDU gives its octets back except after an Lc octet of 00 or with octets behind Le
  (`Apdu.EncodeInvertsParseIff`).
- What lies in memory behind a command matters to exactly those GET DATA commands whose tag reaches beyond the octets
  that arrived and could still match: the code tests Lc against 3, not against the tag length
  (`Objects.OutcomeDependsOnCommandOnlyIff`).
- The builder drops nothing exactly from 258 octets of reply space on (`Replies.DropsNothingIff`); the dispatcher gives
  it 502.
- The length test of XfrBlock is right exactly for lengths whose 32-bit sum with 10 does not wrap
  (`Host.XfrLengthTestIff`).
- Confirmed presses are always 30 ms apart counted by the moments the flag is cleared
  (`Debounce.SamplesUseDistinctEdges`). Counted by the pin samples they can be closer, because an edge that the
  interrupt takes between the clear and the sample already belongs to the next press
  (`Debounce.SamplesCanBeCloserThanDebounce`, and from every boot `Continuations.PressesCanBeCloserThanDebounce`).
  Whatever follows a sample is 30 ms away exactly if no edge of an earlier time is in memory when that sample is taken
  (`Debounce.SamplesStaySpacedIff`, and over the continuations of any run `Continuations.SamplesStaySpacedIff`).
- An authorized demand is answered with the signature exactly if the store is up, the challenge has 32 octets and the
  signer answers; otherwise the host is told 6F00, and the press is used up all the same
  (`Delivery.SignatureIsDelivered`).
- A signature comes less than ten seconds after its press exactly if it comes before the deadline in memory, with
  which the gate does not compare the clock (`SafetyOfFirmware.WindowHoldsIff`).
- The edge behind a signature can be older than the demand that its press grants (`Signing.EdgeCanPrecedeDemand`),
  exactly if the flag was set when the demand came and no pin sample lies between the demand and the press
  (`SafetyOfFirmware.EdgePrecedesDemandIff`). The set flag alone does not decide it for one run: its edge can end in a
  sample with the pin high, after which a newer edge serves (`Debounce.SetFlagCanBeUsedUp`). It does decide, when the
  demand comes, whether this can still happen: exactly if the flag is clear, no continuation has such a signature on
  that wait (`Continuations.EdgesStayNewerIff`).

## What the gate does not bind

The gate asks for one press per signature. It does not ask whose: from every boot and for any two challenges there is a
run in which the press answers a demand for the first, the card is then powered off and on and the PIN presented anew,
and the second is signed with that press (`Signing.PressCanServeOtherSession`). Neither `src/piv.c:447-463` nor the
documentation promises more.

## Model

| member | source | states |
|---|---|---|
| `SafetyOfFirmware.SignerCallHasItsPress` | src/piv.c:447-469 | In every run, a call of `crypto_sign` is preceded by an accepted button press with the machine AUTHORIZED all the way in between, and that press by a GENERAL AUTHENTICATE on a powered, selected, PIN-verified card that opened the wait, with the machine WAITING all the way in between; after the call, failed or not, the machine is IDLE |
| `SafetyOfFirmware.PressesAreNotShared` | src/device_state.c:49-85 | Of two signer calls, the later one's demand and press both come after the earlier call: no press serves twice |
| `SafetyOfFirmware.SignerCallHasItsEdge` | src/button.c:24-61 | The press behind a signer call has an accepted edge of pin 9 behind it, at least 30 ms older than the flag clear of its poll |
| `SafetyOfFirmware.EdgesAreNotShared` | src/button.c:24-61 | Two signer calls have different presses and different accepted edges behind them, in their order |
| `SafetyOfFirmware.EdgePrecedesDemandIff` | src/button.c:46-61 | The edge behind a signer call is older than the demand that opened its wait if and only if the flag was set at that demand and no pin sample lies between demand and press |
| `Signing.EdgeCanPrecedeDemand` | src/button.c:24-31 | From every boot, a run in which the edge behind a signer call is older than its demand |
| `SafetyOfFirmware.WindowHoldsIff` | src/device_state.c:78-90 | For every signer call the deadline in memory is ten seconds after the press, and the call is within them if and only if it comes before that deadline |
| `Signing.SignatureCanBeLate` | src/device_state.c:31-37 | The bound is sharp: from every boot, for every d of at least 1, every challenge and every answer of the signer, a run with a lock-step host and ticks at most d apart in which the signer is called exactly 10 s + d - 1 us after the press |
| `Signing.StayCanBeLong` | src/device_state.c:24-64 | And so is the bound of 40 s + 2d - 2 us on a stay outside IDLE: from every boot, a run with a lock-step host and ticks at most d apart in which a signature comes exactly that long after the demand that its press answers, the machine not IDLE in between |
| `Signing.PressCanServeOtherSession` | src/piv.c:447-463 | The gate binds neither challenge nor session: from every boot and for any two challenges, a run in which the demand and the press are for the first, the slot is then powered off and on, and the second is signed |
| `Continuations.EdgesStayNewerIff` | src/button.c:24-61 | For every run that ends in a demand that opens a wait: in all continuations the signatures on that wait have an edge behind them that came after the demand, if and only if the flag was not set when it came |
| `Continuations.SamplesStaySpacedIff` | src/button.c:54-57 | For every run of the firmware that ends in a pin sample: in all continuations all later samples - and all later confirmed presses - come at least 30 ms after it, if and only if no edge of an earlier time is latched when it is taken |
| `Continuations.PressesCanBeCloserThanDebounce` | src/button.c:54-57 | From every boot, a run of the firmware in which two confirmed presses are less than 30 ms apart |
| `SafetyOfFirmware.FirmwareRefinesCredit` | src/piv.c:447-469 | Forward simulation: after any run the machine stands for the credit of a machine that holds at most one expiring credit, and the signer is called exactly for demands made while that credit is held |
| `SafetyOfFirmware.SignerCallIsTimely` | src/device_state.c:31-37 | With ticks at most d apart a signer call comes less than 10 s + d after its press, although the gate never reads the clock |
| `SafetyOfFirmware.TickSeparates` | src/main.c:56-71 | In loop order a tick lies between any pin sample and any state outside the tick phase that comes after it |
| `SafetyOfFirmware.TickBeforeSignature` | src/main.c:56-71 | Between a press and the signature it permits there is a tick that found the deadline still ahead |
| `SafetyOfFirmware.StayOutsideIdleIsBounded` | src/device_state.c:21-64 | With ticks at most d apart every uninterrupted stay outside IDLE takes at most 40 s + 2d - 2 us, whatever requests and presses arrive |
| `SafetyOfFirmware.SignerRate` | src/button.c:46-61 | In any run the number of signer calls times 30 000 is at most the microseconds since the loop was entered |
| `SafetyOfFirmware.SignaturesAreCounted` | src/piv.c:458-463 | The challenges handed to the signer are as many as the signature events of the authorization machine |
| `SafetyOfFirmware.GrantsAreCounted` | src/button.c:57-61 | Accepted presses never outnumber confirmed presses |
| `SafetyOfFirmware.CommandDemands` | src/piv.c:491-543 | A command moves the authorization machine and reaches the signer only as 00 87 11 9A with a printed template on a selected and verified card, and then the signer gets exactly its challenge |
| `SafetyOfFirmware.StepStimulates` | src/main.c:56-71 | Every step of the firmware moves the authorization machine as its stimulus says, and adds a signed challenge only for a demand while authorized |
| `SafetyOfFirmware.CallsSignerIff` | src/piv.c:447-463 | An event calls the signer exactly if the authorization machine signs, and then once |
| `SafetyOfFirmware.ProjectsToFsmRun` | src/device_state.c:11-90 | What the firmware does to the authorization machine in any run is a run of that machine |
| `SafetyOfFirmware.ProjectsToButtonRun` | src/button.c:20-65 | What happens to the button in any run, interrupts included, is a run of the button |
| `Session.SignerCallIsInVerifiedSession` | src/piv.c:395-397 | At every signer call there has been, since the latest IccPowerOn and without power-off or reset, a SELECT of the applet and then a correct PIN, and no wrong 8-octet PIN after it |
| `Session.VerifiedStateIsInSession` | src/ccid.c:98-122 | The same holds in every state with a powered slot and a set PIN flag, although power-off and reset leave the flag |
| `Session.OpeningDemandIsInVerifiedSession` | src/piv.c:447-451 | The demand that opened the wait was made in such a session, too |
| `Session.StepMovesFlags` | src/ccid.c:229-234 | Each event changes power, selection and PIN flag exactly as its meaning on the wire says; SELECT and VERIFY act only on a powered slot |
| `Session.ActOctets` | src/piv.c:152-232 | What counts as selection, correct or wrong PIN, both ways: exactly 00 A4 04 with data that begins with the AID, 00 20 00 80 with the padded PIN, and 00 20 00 80 with eight other octets |
| `Authorization.InvHolds` | src/device_state.c:11-90 | Between commands: never PROCESSING; AUTHORIZED implies not consumed; deadlines are those of the latest request or press; a tick since then found the deadline ahead; signatures never outnumber presses |
| `Authorization.SignatureHasItsPress` | src/device_state.c:78-85 | Every signature of the machine alone has its press and its opening demand, with the modes in between |
| `Authorization.PressServesOnce` | src/device_state.c:57-85 | Two signatures have different presses and different opening demands |
| `Authorization.SignaturesBoundedByPresses` | src/device_state.c:57-85 | In every state signatures are at most the accepted presses, one fewer while a press is unused |
| `Authorization.SignatureIsTimely` | src/device_state.c:31-37 | The press of a signature is less than 10 s and one tick gap old |
| `Authorization.PressIsTimely` | src/device_state.c:24-29 | An accepted press comes less than 30 s and one tick gap after its demand |
| `Authorization.RunningDeadlineIsFixed` | src/device_state.c:49-64 | A repeated request or press changes nothing while the mode stays |
| `Authorization.ConsumedIff` | src/device_state.c:15-85 | In every state of every run of the machine the consumed flag is set if and only if an authorization has been granted since the last reset and the machine is no longer AUTHORIZED |
| `Authorization.DeadlineIsLatest` | src/device_state.c:49-64 | In every mode the deadline is that of the latest opening demand or accepted press, whichever came later |
| `Authorization.StayIsBounded` | src/device_state.c:21-64 | A stay outside IDLE takes at most 40 s and two tick gaps less 2 us |
| `Credit.MachineRefinesCredit` | src/device_state.c:11-90 | The flag-and-deadline machine simulates the one-credit machine and signs exactly when that spends a credit |
| `Credit.SecondRefusalUnreachable` | src/piv.c:453-456 | Between commands being AUTHORIZED and being allowed to sign are the same, and consuming then leads to PROCESSING: the second 6985 cannot be reached |
| `Debounce.InvHolds` | src/button.c:24-65 | For all interleavings: the flag stands for the latest accepted edge, accepted after the latest clear; while the poller works on it the flag stays set and both halves of the time it has read are those in memory |
| `Debounce.SampledEdgeIsSettled` | src/button.c:46-56 | Every pin sample has an accepted edge at least 30 ms older than the preceding clear, and the edge time in memory does not change from the edge to the clear |
| `Debounce.SamplesUseDistinctEdges` | src/button.c:24-61 | Two samples use different edges, the later one accepted after the earlier clear; their clears are 30 ms apart, and so are the samples if the later edge comes after the earlier sample |
| `Debounce.SamplesStaySpacedIff` | src/button.c:54-57 | In every continuation of a run that ends in a pin sample, all later samples - and all later confirmed presses - come at least 30 ms after it, if and only if no edge of an earlier time is latched when it is taken |
| `Debounce.EdgeIsOlderIff` | src/button.c:24-56 | The edge behind a sample is older than a moment outside the poll if and only if the flag was set then and the sample is the first since |
| `Debounce.SetFlagCanBeUsedUp` | src/button.c:54-64 | A run in which the flag is set at such a moment and a newer edge serves the sample |
| `Debounce.SamplesCanBeCloserThanDebounce` | src/button.c:54-57 | A run in which two confirmed presses are less than 30 ms apart |
| `Debounce.ConfirmedIff` | src/button.c:57-59 | The confirmation flag is set if and only if some press has been confirmed |
| `Debounce.PressRate` | src/button.c:46-61 | n confirmed presses take at least n times 30 ms from boot |
| `Chaining.ChunksAreAPrefix` | src/piv.c:323-366 | For any object, any Le values and any commands in between that start no other chain, the GET DATA body and the GET RESPONSE bodies so far are a prefix of the object, and the rest is in the chain |
| `Chaining.StatusTellsTheRest` | src/piv.c:350-365 | GET RESPONSE answers 9000 exactly when it completes the object, 6985 exactly when it was complete, else 61xx with xx the rest, at most FF and never 00 |
| `Chaining.OthersLeaveChain` | src/piv.c:491-543 | No other command touches the chain, a GET DATA answered in one piece included |
| `Chaining.StartStep` | src/piv.c:331-340 | A GET DATA longer than Le gives the first Le octets, announces the rest and leaves exactly the rest in the chain |
| `Chaining.WholeStep` | src/piv.c:323-329 | A GET DATA that fits its Le gives the object and 9000 and changes nothing |
| `Chaining.ReadStep` | src/piv.c:344-366 | A GET RESPONSE gives the next octets of the chain, as many as Le and the rest allow, and moves on by as many |
| `Chaining.ReadTakesNext` | src/piv.c:344-366 | The chunk and what is pending after it are what was pending before; the announcement is the rest, at most 255 |
| `Chaining.AnnouncedReadsEnd` | src/piv.c:361-365 | A host that uses each announcement as its next Le comes to an end and has all that was pending |
| `Chaining.FetchFull` | src/piv.c:354-365 | With Le 256, n pending octets take exactly ceil(n / 256) commands |
| `Chaining.ChainOfFullReads` | src/piv.c:323-366 | With Le 256 an object of n > 256 octets takes exactly ceil(n / 256) - 1 GET RESPONSEs and one more is refused with 6985 |
| `Reassembly.ChainReassembles` | src/piv.c:323-366 | In every run, from the event that starts a chain and whatever messages, commands, resets, power-offs and presses come in between that are neither IccPowerOn nor another start: what has been delivered is a prefix of the object and the applet holds the rest |
| `Reassembly.StatusInRun` | src/piv.c:350-365 | In such a run GET RESPONSE answers 9000 exactly when it completes the object, 6985 exactly when it was complete, and 61 exactly when octets are still to come, with their number, at most FF and never 00 |
| `Reassembly.NothingToReadAfterPowerOn` | src/piv.c:486-489 | In every run, after an IccPowerOn and until a chain is started anew, every GET RESPONSE is answered 6985 |
| `Delivery.CertificateIsDelivered` | src/ccid.c:117-147 | A lock-step host that sends SELECT, GET DATA 5FC105 and GET RESPONSE in XfrBlock frames, with any Le values, until 9000, gets SELECT answered 9000, sees 9000 exactly when its Le values add up to the object, and then holds an object that decodes to exactly the stored certificate |
| `Delivery.CertificateIsDeliveredAfterReboot` | src/crypto_backend_soft.c:88-129 | The same for a certificate of 1 to 3994 octets that was saved to flash, with the store loaded again at boot |
| `Reading.ReadingProgress` | src/piv.c:265-365 | After any number of commands such a host has exactly as much of the object as it has asked for |
| `Transfers.TransferDelivers` | src/ccid.c:117-147 | Through frame, dispatcher, transmit buffer and endpoint the host gets exactly the applet's reply to the command it framed |
| `Delivery.SignatureIsDelivered` | src/crypto_backend_soft.c:354-372 | On an authorized, verified card a framed printed challenge is answered with 6F00 if and only if the store is not up, or the challenge does not have 32 octets, or the signer gives nothing; exactly otherwise the reply decodes to what the signer answered. Either way the challenge went to the signer and the machine is IDLE |
| `Signing.SignatureReachesHost` | src/piv.c:402-479 | From every boot with a store that is up, for every 32-octet challenge and every answer of the signer, a run with a lock-step host that reads exactly that answer |
| `Delivery.DemandIff` | src/piv.c:389-438 | A command reaches the gate with challenge h if and only if applet and PIN let it, its header is 00 87 11 9A and its data is a printed template with challenge h |
| `Delivery.EveryTransferAnswers` | src/ccid.c:117-147 | For every command that a lock-step host frames on a powered slot, in every run: the answer it gets and the card after it are as `CardEdge` says |
| `CardEdge.EveryCommandAnswers` | src/piv.c:491-543 | For every command in every state, in octets: other classes 6E00; unselected 6985 except for SELECT; other instructions 6D00; and the five instructions as in the rows below; a refusal changes nothing |
| `CardEdge.MalformedAnswers` | src/piv.c:496-501 | Octets that are no short APDU are answered 6F00 and change nothing |
| `CardEdge.Misrouted` | src/piv.c:503-542 | The status words of wrong class, missing selection and unknown instruction |
| `CardEdge.SelectAnswers` | src/piv.c:152-190 | 6A86, 6A80, 6A82 each exactly for its fault; 9000 exactly for P1 04 with data that begins with the identifier, with a template that decodes to 61 { 4F identifier, 79 { 4F } }, and then the applet is selected |
| `CardEdge.VerifyAnswers` | src/piv.c:193-232 | 9000 if and only if 00 80 and 31 32 33 34 35 36 FF FF; 6982 if and only if 00 80 and eight other octets; 63C3 for no data, 6700 for other lengths, 6A86 for P1, 6A88 for P2; the flag follows 9000 and 6982 and nothing else changes |
| `CardEdge.DataAnswers` | src/piv.c:235-341 | 6A86 and 6A80 for their faults; 5FC107, 5FC102, 7E and - if there is one - 5FC105 deliver the object that decodes to capability container, holder identifier, discovery object or certificate, whole or as the beginning of a chain; every other tag 6A88 |
| `CardEdge.ResponseAnswers` | src/piv.c:344-366 | 6985 if and only if nothing is pending; else the next Le octets with 9000 or 61xx, and the rest stays pending |
| `CardEdge.AuthenticateAnswers` | src/piv.c:380-480 | 6A86, 6A88, 6982, 6700, 6A80 in this order, the card unchanged; then 6985 and an opened wait, or the signature, or 6F00 |
| `CardObjects.CapabilityIsRead` | src/piv.c:55-76 | The CCC decodes to exactly its thirteen elements |
| `CardObjects.HolderIsRead` | src/piv.c:91-109 | The CHUID decodes to exactly its five elements |
| `CardObjects.DiscoveryIsRead` | src/piv.c:309-315 | The discovery object decodes to 7E with identifier and PIN usage policy |
| `CardObjects.FciIsRead` | src/piv.c:181-187 | The FCI decodes to 61 { 4F identifier, 79 { 4F } } |
| `Delivery.ChallengeIsSigned` | src/piv.c:398-463 | Of a command that carries a printed template, exactly the challenge goes to the authorization gate |
| `Progress.CertificateCanBeFetched` | src/ccid.c:117-147 | Every run with a lock-step host that is owed nothing, a powered slot and a certificate in the store can go on so that, with any Le values of which exactly all are needed, the host reads that certificate |
| `Progress.FetchFromBoot` | src/main.c:46-71 | The same from power-up: for every stored certificate and all such Le values there is a run from boot in which the host gets it |
| `Progress.MessageCanBeAnswered` | src/ccid.c:306-357 | A host that is owed nothing can have any message answered within one round of the loop, and is then owed nothing again |
| `Progress.RoundEnds` | src/main.c:56-71 | Whatever the interrupt left in the flag, the poll ends and the loop comes round to USB, unseen by the host |
| `Host.EveryMessageIsAnsweredOnce` | src/ccid.c:306-321 | With a lock-step host, in every state of every run: each answer stands directly behind its message, each message of at least ten octets that no reset abandons gets exactly one, with all header octets right - type, length, slot, bSeq, failure and ICC bits of the power history, error, protocol - and the right body; the outstanding one is in the buffer or in flight, alone |
| `Host.MessageAnswered` | src/ccid.c:87-214 | Every message of at least ten octets, of any type, leaves exactly such an answer pending: the ATR 3B 10 01 11 for IccPowerOn, parameters and data rate as sent or the default, no body for slot commands and failures |
| `Host.TransferAnswered` | src/ccid.c:117-148 | An XfrBlock is answered with a DataBlock: failed for an unpowered slot or an impossible length, else the reply, within the advertised message length |
| `Host.OutstandingIsServed` | src/ccid.c:346-357 | With a message outstanding, the endpoint can be claimed or is transferring, and the claim puts exactly the response in flight |
| `Host.XfrLengthTestIff` | src/ccid.c:123-128 | The length test accepts exactly the transfers present in full if and only if dwLength is below 2^32 - 10 |
| `Replies.ReplyShape` | src/piv.c:491-543 | For every command in every state the reply has 2 to 258 octets and ends in one of the applet's status words |
| `Replies.DropsNothingIff` | src/apdu.c:64-71 | No append is ever dropped, for every command and state, if and only if the capacity is at least 258 |
| `Replies.XfrReplyWithinMessage` | src/usb_descriptors.c:105 | Every answer to XfrBlock fits in the announced 271 octets |
| `Objects.CertificateRoundTrip` | src/piv.c:272-302 | For every certificate of up to 3994 octets, across all three length forms, the decoder reads one 53 object with exactly 70 = certificate, 71 = 00, FE = empty and nothing left over; it fits the buffers |
| `Objects.ChallengeInvertsPrint` | src/piv.c:402-438 | Parsing a printed template gives back exactly the challenge of 1 to 64 octets, for both forms of the outer length |
| `Objects.ChallengeAcceptsIff` | src/piv.c:402-438 | The parser accepts data if and only if it is some printed template |
| `Objects.PrintInvertsChallenge` | src/piv.c:402-438 | Printing what was parsed gives back the data octet for octet |
| `Objects.SignatureRoundTrip` | src/piv.c:471-479 | The reply decodes to 7C holding exactly 82 with the signature, for every size up to 72 |
| `Objects.OutcomeDependsOnCommandOnlyIff` | src/piv.c:246-265 | The octets behind a command change its outcome if and only if it is a GET DATA that reads beyond itself |
| `Apdu.ParseInvertsEncode` | src/apdu.c:9-52 | Parsing inverts the canonical encoder for cases 1, 2S, 3S and 4S, Le 256 as 00, whatever lies behind in memory |
| `Apdu.ParseAcceptsIff` | src/apdu.c:9-52 | Parsing succeeds exactly for lengths 4, 5 and at least 5 + Lc, and the data is exactly octets 5 to 5 + Lc |
| `Apdu.EncodeInvertsParseIff` | src/apdu.c:9-52 | Encoding an accepted APDU again gives its octets back if and only if it has no zero Lc octet and nothing behind Le |
| `Tlv.LengthRoundTripIff` | src/piv.c:130-145 | A length is read back if and only if it is below 2^16 |
| `Tlv.LengthReadBack` | src/piv.c:130-145 | What a decoder reads back for any length at all |
| `Tlv.DecodeEncodeAll` | src/piv.c:272-299 | Any run of elements with single-octet tags decodes to exactly those elements |
| `KeyStore.LoadInvertsSave` | src/crypto_backend_soft.c:88-129 | The loader reads back magic, all three key fields and every certificate that fits; a longer one is lost, and only then |
| `KeyStore.SaverWritesFields` | include/config.h:27-41 | The sector octet by octet: magic 57 C0 B1 A3, key fields at 4, 36 and 68, certificate length at 100 with the low octet first, certificate at 102, FF everywhere else |
| `KeyStore.LoaderReads` | src/crypto_backend_soft.c:80-129 | What the loader makes of any sector: it counts as initialised if and only if it begins with 57 C0 B1 A3, and the fields are read from those places, a length above 3994 giving no certificate |
| `PivModel.CertObjectSize` | src/piv.c:282-302 | The certificate object takes at most 13 octets more than the certificate, and at most 4096 |
| `PivApplet.CertObjectOctets` | src/piv.c:280-302 | The octets written with the hand-computed inner length are those of the nested structure |
| `Machine.RunIsWellFormed` | src/main.c:56-71 | Every state of every run keeps all buffer bounds |
| `Machine.ClockIsMonotone` | src/main.c:56-71 | Event times never decrease and each state's clock is that of the event before |
| `Firmware.System.RunLoop` | src/main.c:56-71 | The objects, executing the events of any run, end in exactly the last state of that run |
| `Firmware.System.Execute` | src/main.c:56-71 | One call of the loop, callback or interrupt changes the objects exactly as one step |
| `Firmware.System.constructor` | src/main.c:30-53 | After the boot sequence the objects are in the boot state |
| `Firmware.System.OnReceive` | src/ccid.c:306-321 | A completed bulk-OUT transfer changes the objects exactly as its step |
| `Firmware.System.OnUnmount` | src/main.c:82-87 | Unmounting resets the authorization machine and nothing else |
| `Firmware.System.ButtonConfirm` | src/button.c:56-64 | Sampling the pin notifies the state machine exactly for a low level and ends the poll |
| `PivApplet.Applet.ProcessApdu` | src/piv.c:491-543 | New state, reply octets in place and reply length are those of `PivModel.ProcessApdu`; nothing else in the buffer changes |
| `PivApplet.Applet.HandleSelect` | src/piv.c:152-190 | Proved against `PivModel.Select`, whose answers `CardEdge.SelectAnswers` gives in octets |
| `PivApplet.Applet.HandleVerify` | src/piv.c:193-232 | Proved against `PivModel.Verify`, whose answers `CardEdge.VerifyAnswers` gives in octets |
| `PivApplet.Applet.HandleGetData` | src/piv.c:235-341 | Proved against `PivModel.GetData`, whose answers `CardEdge.DataAnswers` gives in octets |
| `PivApplet.Applet.FindObject` | src/piv.c:255-321 | Finds exactly the object of `PivModel.Lookup`, or none; which that is for each tag `CardEdge.DataAnswers` says, through the decoded objects |
| `PivApplet.Applet.BuildCertObject` | src/piv.c:272-302 | The octets written through the moving position are the nested TLV structure, inside the buffer |
| `PivApplet.Applet.DeliverObject` | src/piv.c:323-341 | Proved against `PivModel.Deliver` |
| `PivApplet.Applet.HandleGetResponse` | src/piv.c:344-366 | Proved against `PivModel.GetResponse`, which is said of the pending octets |
| `PivApplet.Applet.ParseTemplate` | src/piv.c:402-438 | Accepts and extracts what `PivModel.Challenge` says, reading only inside the Lc octets |
| `PivApplet.Applet.SignIfAuthorized` | src/piv.c:447-479 | Proved against `PivModel.Authorize`; the second refusal is dead code |
| `PivApplet.Applet.HandleGeneralAuthenticate` | src/piv.c:380-480 | Proved against `PivModel.GeneralAuthenticate`, whose answers `CardEdge.AuthenticateAnswers` gives in octets |
| `PivApplet.Applet.Init` | src/piv.c:486-489 | Zeroes the applet and nothing else |
| `Apdu.ParseRaw` | src/apdu.c:9-52 | The moving index computes `Apdu.Parse` from the octets in place |
| `Apdu.ResponseBuilder.Append` | src/apdu.c:64-71 | Appends behind what is there or, if two octets for the status word would not be left, changes nothing and says so |
| `Apdu.ResponseBuilder.Finalize` | src/apdu.c:78-84 | The buffer then holds body and status word from the start position, all else untouched |
| `Tlv.BerLenWrite` | src/piv.c:130-145 | Writes exactly the length octets at the position and returns their number |
| `DeviceState.Device.Tick` | src/device_state.c:21-42 | Expires a wait or an authorization whose deadline is reached, and changes nothing else |
| `DeviceState.Device.RequestAuth` | src/device_state.c:49-55 | Opens a wait only from IDLE |
| `DeviceState.Device.ButtonPressed` | src/device_state.c:57-64 | Grants only while waiting |
| `DeviceState.Device.ConsumeAuth` | src/device_state.c:78-85 | Grants and marks consumed exactly if authorized and not consumed |
| `Button.Driver.GpioIrq` | src/button.c:24-31 | Latches flag and time of the first edge of the button pin only |
| `Button.Driver.PollDecide` | src/button.c:50-54 | Goes on exactly if the truncated milliseconds of the values read are at least 30 |
| `CcidDriver.Driver.ProcessMessage` | src/ccid.c:87-214 | New driver state, transmit buffer and card are those of `CcidModel.ProcessMessage` for every message type; the answers, octet by octet, are in `Host.MessageAnswered` |
| `CcidDriver.Driver.HandleXfrBlock` | src/ccid.c:117-148 | Proved against `CcidModel.XfrBlock`: refusals, in-place reply, header in front of it |
| `CcidDriver.Driver.MakeDataBlock` | src/ccid.c:67-84 | Header and data at the start of the buffer, nothing else changed |
| `CcidDriver.Driver.MakeSlotStatus` | src/ccid.c:50-64 | The header at the start of the buffer, nothing else changed |
| `CcidDriver.Driver.Received` | src/ccid.c:306-321 | The message lies over the old buffer contents; fewer than ten octets change nothing else |
| `CcidDriver.Driver.Task` | src/ccid.c:346-357 | Sends exactly if a response is pending and the endpoint could be claimed, and then it is no longer pending |
| `CcidDriver.Driver.Reset` | src/ccid.c:229-234 | Clears power and pending, leaves the rest and the applet |
| `KeyStore.Backend.FlashSave` | src/crypto_backend_soft.c:88-111 | After erase and program the sector is the image of the fields |
| `KeyStore.Backend.FlashLoad` | src/crypto_backend_soft.c:114-129 | Keys and certificate are those the sector holds, an impossible length giving none |
| `KeyStore.Backend.SaveThenReboot` | src/crypto_backend_soft.c:88-129 | Saved, powered off and booted: the keys and every certificate that fits are back |
| `KeyStore.Backend.GetCertDer` | src/crypto_backend_soft.c:333-339 | Copies the certificate exactly if the backend is up, the key is 9A and it fits |
| `KeyStore.Backend.Sign` | src/crypto_backend_soft.c:354-372 | Passes on the signer's answer exactly if up, key 9A, algorithm 11, 32 octets and room for 72, and else nothing; every challenge passed in is recorded |

## Left out

- mbedTLS key generation, X.509 writing, ECDSA and entropy are foreign code: what the signer would answer is a parameter of each message (at most 72 octets, none on failure), and a certificate is any octets.
- `_generate_and_persist`, the branch of `crypto_backend_init` for the first boot, is not modelled; the store starts with any certificate of up to 3994 octets, or from a saved sector.
- `crypto_get_pubkey` has no caller among the modelled functions.
- Power loss while flash is erased or programmed is not modelled: the code has no recovery, and erase and program are one completed step.
- KeyStore.Backend.FlashLoad: stops where the fields go to the foreign key context, so the failure paths of that context are not modelled.
- TinyUSB, endpoint opening and control requests are reduced to message arrival, claim success or failure, end of a transfer, and reset; a reset also ends the transfer in flight.
- USB reset and unmount are separate events that can come in any order and number while the USB stack runs.
- NeoPixel, PIO, GPIO setup and the device, configuration and string descriptors have no invariant to prove; only the 271-octet limit and the single busy slot are used.
- Microsecond times are unbounded naturals: the wrap-around of the 64-bit clock after more than half a million years is not modelled.
- One command reads the clock once, and one event carries one clock reading; the code reads it again for each deadline.
- NULL-pointer checks are not modelled: references are never null.
- button_was_pressed appears as its single memory accesses (`Button.Driver.PollTest` to `Button.Driver.PollPin`) instead of one body, because the interrupt may run between any two of them; the order in which the operands of the time difference are read is left open.
- dev_state_get only feeds the NeoPixel.
- CCC, CHUID, FCI and the Discovery object are decoded down to their elements; whether their values suit a given host is not modelled.
- Host.MessageAnswered: of a SetParameters whose parameters did not arrive in full only the size of the answer is stated; its octets are what the buffer held before.
- Host.OutstandingIsServed: states that the next step towards the answer is possible, and `Progress` that the rest can follow; that the endpoint does become free is left to the schedule.
- Delivery.CertificateIsDelivered: the host's transfers are not interleaved with other messages or resets; presses, ticks, interrupts, short packets and endpoint delays may come anywhere.
- tools/ and the build files are scripts around external libraries.
