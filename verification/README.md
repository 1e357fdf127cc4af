# Verification of the alarm communicator's firmware and cloud backend

Dafny models of the parts of the repository whose behaviour lives in arithmetic, in shared
buffers or in protocols, with proofs of what those parts promise. `dafny verify dfyconfig.toml`
checks the whole project.

| file | models |
|---|---|
| `SercomBaud.dfy` | the 64-bit divider and the baud-rate registers of the SERCOM driver |
| `MessagePool.dfy` | the message slots shared by the output queue and the input queues |
| `RingBuffer.dfy` | the byte FIFO shared by the UART interrupts and the main loop, step by step, receiving |
| `TransmitRing.dfy` | the same FIFO in the transmit direction, and the handler that empties it |
| `CloudRegistry.dfy` | users, devices, apps and push endpoints, and the handlers that change them |
| `CloudHistory.dfy` | what the history of requests tells about each app and each pair of user and device |
| `WireFormat.dfy` | frames: the serializer of the API services and the parser of the IoT service |
| `BinaryStrings.dfy` | buffers shown as binary numerals, node states and partition states |
| `Automation.dfy` | automation payloads, from request to report |
| `TimeDate.dfy` | the digit clock and the transfer of its digits over the bus |
| `SocketManager.dfy` | the socket table, output buffers and the event callback |
| `Connections.dfy` | what the events of a run tell about a socket: ids obtained, closed and forgotten, flags, requests and bytes |
| `Timers.dfy` | software timers, the blinking LED and the stop watch |
| `Debounce.dfy` | the input debouncer |
| `PasswordRecovery.dfy` | registration, change and recovery of passwords |
| `Calendar.dfy`, `Words.dfy`, `Text.dfy`, `Sequences.dfy`, `Options.dfy` | dates, machine words, numerals, sequences, absent values |

Code that changes state in place is a class whose methods are proved against functions on
values; the theorems are about those functions, over single calls and over whole runs. Code that
interrupts may come between is a state machine over its steps.

Where the code does not do what its comments or callers suppose, the model follows the code,
and the property is proved together with the exact condition under which it holds:

- `sercom.c:153` accepts an integer part of 8192 into a 13-bit field, `sercom.c:139` multiplies
  in 32 bits, and `sercom.c:105` counts in 16 bits.
- `MessagePoolManager.c:102` drops queued slots without releasing them.
- `inc/ringBuffer.h:12` counts in one byte, while `BG96.c:620` sets up rings of 300 bytes; the
  three assignments of `ringBuffer_flush` can be interrupted; the static variable `ringBuffer.c:42`
  is shared by both rings, so that a transmit interrupt can replace a received byte; the increment
  `ringBuffer.c:32` is not protected against the transmit interrupt; and `uartRB.c:159` starts a
  transmission before `uartRB.c:162` removes the byte.
- `setAppToken.js:114` renews the endpoint but not the stored token; an unregistered email leaves
  an endpoint behind that no user stores.
- `parser.js:24` tests that the sum is odd rather than 255 modulo 256, `parser.js:32` discards
  the high byte of the length, and `parser.js:30` counts months from zero where
  `brokerMessage.js:83` counts them from one.
- `mpxhTimeDate.c:85` copies one digit less than was received; `mpxhTimeDate.c:101` sets the tick
  counter to a value that the test after the increment misses; `mpxhTimeDate.c:183` starts
  date and time without clearing the begin flag of a time started before (`dateTime.c:672`, then
  `dateTime.c:698`), and the receiver takes the date for the time; `mpxhTimeDate.c:266` compares the
  first digit of the hour with two only, so that a greater one, once received, stays.
- `socketManager.c:449` advances the input pointer for every chunk, and the driver (`socket.c:147-180`)
  delivers chunks of the length last requested as long as there is data; `socketManager.c:413` leaves
  a socket open whose connection failed, which `socketManager.c:105` takes for success ever after;
  and `socketManager.c:396` overwrites the id of a client that is still there.
- `softTimers.c:36` treats a 32-bit counter as if it wrapped at 65535.
- `BlinkingLed.c:39` shifts the slot out of the word for length marks from 2^31 on.
- `recoverPassword.js:64` leaves the PIN 0000 with time stamp zero, which is refused only because
  the clock reads more than one hour.

Assumptions about surroundings: all queues are as long as the pool (`inc/MessagePoolManager.h:16-18`);
`nibble_swap` is cut to the byte that takes it; emails and comIds are unique keys of their
collections; the notification service never returns a live endpoint as a new one; requests about
passwords carry a non-decreasing clock; statements of the C code take effect in program order;
numbers in requests are integers; random draws, clock readings, password checks, hashes and the
results of network calls are arguments.

## Model

| member | source | states |
|---|---|---|
| `SercomBaud.LongDivision` | firmware/COM38/src/ASF/sam0/drivers/sercom/sercom.c:60-80 | For every pair of 64-bit words the bit-serial loop returns the floor of n / d, divisors above 2^63 included, and all ones for a zero divisor |
| `SercomBaud.DivisionRound` | firmware/COM38/src/ASF/sam0/drivers/sercom/sercom.c:64-77 | One round of the loop: the shifted remainder never exceeds the prefix of n consumed so far, hence fits 64 bits, and quotient bits and remainder stay those of that prefix |
| `SercomBaud.SyncBaud` | firmware/COM38/src/ASF/sam0/drivers/sercom/sercom.c:85-118 | The subtraction loop with its 16-bit counter ends for every baud rate but zero and stores the wrapped count less one, or refuses it |
| `SercomBaud.SyncBracketsIff` | firmware/COM38/src/ASF/sam0/drivers/sercom/sercom.c:95-117 | Acceptance is exactly a wrapped count of at most 255, and an accepted B satisfies (B+1)*baudrate <= clock/2 < (B+2)*baudrate exactly when the quotient is at most 256 |
| `SercomBaud.WrappedCountAccepted` | firmware/COM38/src/ASF/sam0/drivers/sercom/sercom.c:103-117 | An input on which the bracketing fails: a quotient of 65537 is accepted as register 0 |
| `SercomBaud.SyncLoopEndsIff` | firmware/COM38/src/ASF/sam0/drivers/sercom/sercom.c:103-106 | The guard of the subtraction loop fails after some number of rounds if and only if the baud rate is not zero |
| `SercomBaud.AsyncBaud` | firmware/COM38/src/ASF/sam0/drivers/sercom/sercom.c:123-163 | Range check, arithmetic mode and fractional mode with every 8-, 16-, 32- and 64-bit truncation made explicit |
| `SercomBaud.ProductIsProduct` | firmware/COM38/src/ASF/sam0/drivers/sercom/sercom.c:139-151 | The 64-bit product of the sample count and a 32-bit baud rate is the exact one, whichever operand comes first |
| `SercomBaud.ArithmeticModeAccuracy` | firmware/COM38/src/ASF/sam0/drivers/sercom/sercom.c:138-149 | All inputs: an accepted register is less than one unit from 65536*(1 - samples*baudrate/clock) if and only if the baud rate is not zero and the product did not overflow the 32-bit check; for a clock of zero, where there is no such value, it is 0 |
| `SercomBaud.OverflowedProductAccepted` | firmware/COM38/src/ASF/sam0/drivers/sercom/sercom.c:139-149 | An input that passes the check by overflow, and whose register is far off |
| `SercomBaud.FractionalModeExact` | firmware/COM38/src/ASF/sam0/drivers/sercom/sercom.c:138-158 | All inputs: which requests are accepted, and that 8*low13 + top3 is floor(8*clock/(samples*baudrate)) if and only if the integer part is below 8192, although 8192 is accepted |
| `SercomBaud.SpilledIntegerPartAccepted` | firmware/COM38/src/ASF/sam0/drivers/sercom/sercom.c:152-158 | An input with integer part 8192 that is accepted and does not decode to its quotient |
| `MessagePool.AllocationIsFresh` | firmware/COM38/src/MessagePoolManager.c:30-45 | Allocation fails exactly when no slot is free; otherwise the slot is empty, becomes held and occurs in no queue |
| `MessagePool.PushAppends` | firmware/COM38/src/MessagePoolManager.c:72-80 | A packed queue behaves as a sequence: a push appends, unless every entry is taken |
| `MessagePool.PopRemovesHead` | firmware/COM38/src/MessagePoolManager.c:89-99 | A pop removes the oldest message of a packed queue and leaves it packed |
| `MessagePool.PushAnyMessage` | firmware/COM38/src/MessagePoolManager.c:72-80 | Whoever holds the message, a push appends it while an entry is free and touches no slot and no other queue; NULL changes nothing |
| `MessagePool.RoomForHeldSlot` | firmware/COM38/src/MessagePoolManager.c:72-80 | Pigeonhole: with queues as long as the pool, no queue is full while some slot is outside the queues |
| `MessagePool.PushNeverLoses` | firmware/COM38/src/MessagePoolManager.c:72-80 | Pushing a held slot always appends it and moves nothing else |
| `MessagePool.PopFreesOldest` | firmware/COM38/src/MessagePoolManager.c:89-99 | A pop frees the oldest message and no other slot, and does nothing on an empty queue |
| `MessagePool.FlushLeaks` | firmware/COM38/src/MessagePoolManager.c:102-107 | A flush empties the output queue, frees nothing, and puts exactly the queued slots out of reach |
| `MessagePool.ReleaseFrees` | firmware/COM38/src/MessagePoolManager.c:48-54 | A release frees and empties the slot and changes nothing else, after which an allocation succeeds; NULL changes nothing |
| `MessagePool.StepKeepsInv` | firmware/COM38/src/MessagePoolManager.c:30-166 | Every operation of a disciplined client keeps entries, places and free flags in agreement and free slots empty |
| `MessagePool.ExactlyOnePlace` | firmware/COM38/src/MessagePoolManager.c:4-6 | Each slot is exactly one of free, held, leaked, or at one position of one queue |
| `MessagePool.RunKeepsInv` | firmware/COM38/src/MessagePoolManager.c:30-166 | The ownership invariant over every run of disciplined clients |
| `MessagePool.RunIsFifo` | firmware/COM38/src/MessagePoolManager.c:72-166 | Over every run, what leaves a queue followed by what waits is what waited followed by what entered: nothing lost, duplicated or reordered |
| `MessagePool.RunTold` | firmware/COM38/src/MessagePoolManager.c:30-54 | Over every run, each slot is what the last event of its history says: handed out, written by its holder, or given back by a release or a pop |
| `MessagePool.AllocationFailsIff` | firmware/COM38/src/MessagePoolManager.c:30-45 | From the initial pool, after every run an allocation fails if and only if each slot was handed out and not given back since |
| `MessagePool.LeakedForever` | firmware/COM38/src/MessagePoolManager.c:102-107 | A slot dropped by a flush is never handed out again |
| `MessagePool.RunLeaksIff` | firmware/COM38/src/MessagePoolManager.c:102-107 | A run loses slots if and only if one of its flushes finds a message waiting |
| `MessagePool.FlushedFullPoolIsDead` | firmware/COM38/src/MessagePoolManager.c:102-107 | After the flush of a full output queue every allocation of every later run fails |
| `MessagePool.PoolCanBeExhausted` | firmware/COM38/src/MessagePoolManager.c:30-107 | Disciplined clients can reach that state from an empty pool: allocate and send every slot, then let the retention timer flush |
| `MessagePool.Manager.constructor` | firmware/COM38/src/MessagePoolManager.c:10-27 | Initialisation of slots, output queue and input queues |
| `MessagePool.Manager.GetFreeSlot` | firmware/COM38/src/MessagePoolManager.c:30-45 | In place: marks the first free slot and returns it, or NULL |
| `MessagePool.Manager.ReleaseSlot` | firmware/COM38/src/MessagePoolManager.c:48-54 | In place: frees and empties a slot; NULL is ignored |
| `MessagePool.Manager.PendingOutputMessage` | firmware/COM38/src/MessagePoolManager.c:57-69 | True exactly when the output queue has contents |
| `MessagePool.Manager.PushOutputQueue` | firmware/COM38/src/MessagePoolManager.c:72-80 | In place: the first NULL entry takes the message |
| `MessagePool.Manager.PeekOutputQueue` | firmware/COM38/src/MessagePoolManager.c:83-86 | The oldest message, or NULL |
| `MessagePool.Manager.PopOutputQueue` | firmware/COM38/src/MessagePoolManager.c:89-99 | In place: the head is released and the entries move up |
| `MessagePool.Manager.FlushOutputQueue` | firmware/COM38/src/MessagePoolManager.c:102-107 | In place: all entries become NULL, no slot changes |
| `MessagePool.Manager.PendingInputMessage` | firmware/COM38/src/MessagePoolManager.c:111-127 | True exactly when the flow exists and its queue has contents |
| `MessagePool.Manager.PushInputQueue` | firmware/COM38/src/MessagePoolManager.c:130-142 | As for output; a flow that does not exist takes nothing |
| `MessagePool.Manager.PeekInputQueue` | firmware/COM38/src/MessagePoolManager.c:145-152 | The oldest message of the flow, or NULL |
| `MessagePool.Manager.PopInputQueue` | firmware/COM38/src/MessagePoolManager.c:155-166 | As for output, on the queue of an existing flow |
| `RingBuffer.StepKeepsInv` | firmware/COM38/src/ringBuffer.c:26-58 | One receive interrupt, one transmit interrupt that overwrites the static variable, or one step of removal, at any point of the others, keeps count, positions, byte taken and unread bytes consistent, for every length, as long as at most 255 bytes are unread |
| `RingBuffer.CountDownKeepsInv` | firmware/COM38/src/ringBuffer.c:48-50 | The decrement is the point at which the byte leaves the FIFO, before the read position moves |
| `RingBuffer.FifoIffCountable` | firmware/COM38/src/ringBuffer.c:26-58 | For a buffer of any length, a run of interrupts and removal steps is a FIFO at every prefix (order kept, nothing removed twice or overwritten, count exact) if and only if it never leaves more than 255 bytes unread |
| `RingBuffer.InterruptSafeIff` | firmware/COM38/src/inc/ringBuffer.h:6-13 | Every run is a FIFO at every prefix if and only if the length is at most 255 |
| `RingBuffer.ReturnsTakenByteIff` | firmware/COM38/src/ringBuffer.c:42-57 | A removal takes the oldest byte, but returns it if and only if the last transmit interrupt between its load and its return, if any, sent the same byte |
| `RingBuffer.DeliveredIff` | firmware/COM38/src/ringBuffer.c:40-58 | Over every run that the count can follow: what callers get are the accepted bytes in order, none lost and none twice, if and only if at every return the last transmit interrupt since the load, if any, has sent the byte taken |
| `RingBuffer.TransmittedByteIsReturned` | firmware/COM38/src/ringBuffer.c:42-57 | A run in which the caller gets a transmitted byte and the received one is lost |
| `RingBuffer.PutsWrapCount` | firmware/COM38/src/ringBuffer.c:28-35 | In a longer buffer puts are always accepted and the one-byte count forgets multiples of 256 |
| `RingBuffer.StepsAmountToRemove` | firmware/COM38/src/ringBuffer.c:40-58 | Uninterrupted, the steps of removal amount to one removal that returns the oldest byte |
| `RingBuffer.FlushSafeIff` | firmware/COM38/src/ringBuffer.c:74-79 | For every length, while the bytes can be counted: a flush interrupted by puts leaves an aligned empty FIFO if and only if the puts between its last two assignments store nothing or fill the whole buffer |
| `RingBuffer.FlushCanMisalign` | firmware/COM38/src/ringBuffer.c:74-79 | A flush and one interrupt that leave the ring misaligned |
| `RingBuffer.MisalignedMisreads` | firmware/COM38/src/ringBuffer.c:28-46 | After an unsafe flush the next byte put is not the next byte read |
| `RingBuffer.Buffer.constructor` | firmware/COM38/src/ringBuffer.c:4-11 | An initialised ring is empty, whatever its length |
| `RingBuffer.Buffer.GetFreeSpace` | firmware/COM38/src/ringBuffer.c:14-17 | The length less the number of unread bytes |
| `RingBuffer.Buffer.GetPending` | firmware/COM38/src/ringBuffer.c:20-23 | The number of unread bytes |
| `RingBuffer.Buffer.PutData` | firmware/COM38/src/ringBuffer.c:26-37 | In place: the specified new ring for every length and state; a ring at rest whose count does not wrap gets the byte appended, or drops it when there is no space |
| `RingBuffer.Buffer.Remove` | firmware/COM38/src/ringBuffer.c:40-58 | In place: returns and removes the oldest byte, or the static variable when there is none |
| `RingBuffer.Buffer.Peek` | firmware/COM38/src/ringBuffer.c:61-71 | The oldest byte, or the static variable |
| `RingBuffer.Buffer.FlushAll` | firmware/COM38/src/ringBuffer.c:74-79 | Uninterrupted, a flush empties the ring |
| `TransmitRing.TransmitFifoIff` | firmware/COM38/src/ringBuffer.c:26-58 | For a buffer of any length, puts and starts of transmission by the main loop, interleaved with transmit interrupts, are a FIFO at every prefix (each item sent once, in order, count exact) if and only if no interrupt removes an item between the load and the store of the count, no store wraps it, and no interrupt finds an item between the start of a transmission and the end of the removal after it |
| `TransmitRing.CleanStepKeepsInv` | firmware/COM38/src/ringBuffer.c:26-58 | Every other step of either side keeps count, positions, the item being put, the item being sent and the waiting items consistent |
| `TransmitRing.SendTakesOldest` | firmware/COM38/src/ringBuffer.c:40-58 | The interrupt sends and removes exactly the oldest waiting item |
| `TransmitRing.LaunchKeepsInv` | firmware/COM38/src/ringBuffer.c:61-71 | Starting a transmission sends the oldest waiting item, and leaves it in the ring for the moment |
| `TransmitRing.UncleanStoreMiscounts` | firmware/COM38/src/ringBuffer.c:32-32 | A store after a removal that the load has not seen leaves a wrong count at once |
| `TransmitRing.SentTwice` | firmware/COM38/src/ringBuffer.c:40-58 | An interrupt before the end of the removal sends the same item again |
| `TransmitRing.SecondRemovalSkipped` | firmware/COM38/src/ringBuffer.c:40-58 | With one item in the ring, an interrupt between the start of its transmission and its removal sends it again and removes it, and the main loop then removes nothing |
| `TransmitRing.RemovalCanBeLost` | firmware/COM38/src/ringBuffer.c:32-32 | A run from an empty ring in which the count forgets a transmitted item |
| `TransmitRing.ByteCanBeSentTwice` | firmware/COM38/src/ringBuffer.c:40-58 | A run from an empty ring in which an item is sent twice |
| `CloudRegistry.SetTokenKeepsInv` | backend/service-api-app/src/handlers/app/setAppToken.js:42-126 | Each branch of the handler keeps appIds unique over all users, live endpoints equal to stored ones and pairwise distinct, and links symmetric |
| `CloudRegistry.SetTokenConsistentIff` | backend/service-api-app/src/handlers/app/setAppToken.js:56-122 | From a consistent state the result is consistent if and only if the email is registered; otherwise an endpoint stays live that nobody stores |
| `CloudRegistry.TokensMatchIff` | backend/service-api-app/src/handlers/app/setAppToken.js:98-122 | Stored tokens keep matching the tokens of their endpoints unless an app changes user and token in one request |
| `CloudRegistry.TokensCanDisagree` | backend/service-api-app/src/handlers/app/setAppToken.js:98-122 | A reachable registry and a request after which a stored token is not the one of its endpoint |
| `CloudRegistry.AnyMatchWillDo` | backend/service-api-app/src/handlers/app/setAppToken.js:42-92 | While apps are unique, the result does not depend on which matching users the query and the update return |
| `CloudRegistry.RequestTouchesOnlyItsApp` | backend/service-api-app/src/handlers/app/setAppToken.js:42-126 | A request, of a registered email or not, leaves all other apps of all users and their live endpoints alone; its own app is the given user's, with the endpoint and token that its old entry determines, or nobody's for an unknown email |
| `CloudHistory.AppsAreTold` | backend/service-api-app/src/handlers/app/setAppToken.js:42-126 | In every reachable state, whose each app is, its endpoint, and stored and served token follow from the requests of that app alone |
| `CloudHistory.PairsAreTold` | backend/service-api-device/src/handlers/device/linkUserDevice.js:41-93 | In every reachable state, whether and in what role a user is linked to a device, on both sides, follows from the creations, key changes, links and unlinks of these two alone |
| `CloudRegistry.RequestedTokenServed` | backend/service-api-app/src/handlers/app/setAppToken.js:51-126 | After a request the app belongs to the given user, a new endpoint exists exactly if the token was not the stored one, and the endpoint serves the requested token unless the stored token was stale |
| `CloudRegistry.LinkKeepsInv` | backend/service-api-device/src/handlers/device/linkUserDevice.js:41-93 | Linking keeps both lookup directions in agreement, each link once |
| `CloudRegistry.UnlinkKeepsInv` | backend/service-api-device/src/handlers/device/unlinkUserDevice.js:38-68 | Unlinking keeps both lookup directions in agreement |
| `CloudRegistry.UnlinkRemovesOne` | backend/service-api-device/src/handlers/device/unlinkUserDevice.js:38-68 | An unlink succeeds if and only if the device lists the user; then that one entry is gone from each of the two lists and all else stays in place, and a refusal changes nothing |
| `CloudRegistry.UnlinkUndoesLink` | backend/service-api-device/src/handlers/device/unlinkUserDevice.js:60-68 | A successful link followed by unlink restores the whole state |
| `CloudRegistry.CreationKeepsInv` | backend/service-api-user/src/handlers/users/newUser.js:39-51 | New empty records and changed keys keep the registry consistent |
| `CloudRegistry.RunKeepsInv` | backend/service-api-device/src/handlers/device/linkUserDevice.js:41-93 | Over every run from a consistent state: a user is listed on a device iff the device is listed on the user, apps unique, endpoints exact |
| `CloudRegistry.ReachableFanOut` | backend/service-iot/src/lib/sendPushNotifications.js:1-14 | In every reachable state the endpoints published for a device are exactly those of the apps of the users listed on it, each once |
| `CloudRegistry.Registry.SetAppToken` | backend/service-api-app/src/handlers/app/setAppToken.js:32-133 | In place, for every registry: the new state specified for the users that the queries return; if apps are unique, the one specified for any of them |
| `CloudRegistry.Registry.AlreadyLinked` | backend/service-api-device/src/handlers/device/linkUserDevice.js:52-57 | The forEach flag is set exactly if the device lists the user |
| `CloudRegistry.Registry.LinkUserDevice` | backend/service-api-device/src/handlers/device/linkUserDevice.js:30-103 | In place: conflicts leave the state alone, success adds the link to both records |
| `CloudRegistry.Registry.UnlinkUserDevice` | backend/service-api-device/src/handlers/device/unlinkUserDevice.js:29-78 | In place: conflicts leave the state alone, success pulls the link from both records |
| `CloudRegistry.CollectEndpoints` | backend/service-iot/src/lib/sendPushNotifications.js:5-14 | The nested forEach collects the endpoints user by user and app by app |
| `WireFormat.FrameRoundTrip` | backend/service-iot/src/lib/parser.js:4-44 | Every frame is accepted and the parser recovers command, register, layer, clock readings, random and the payload prefix of length (length mod 256) |
| `WireFormat.FrameSizedIff` | backend/service-iot/src/lib/brokerMessage.js:73-99 | A frame is refused if and only if register or length does not fit two bytes; otherwise it is the payload and fourteen bytes long and carries both numbers low byte first |
| `WireFormat.TimestampOneMonthLateIff` | backend/service-iot/src/lib/parser.js:30-30 | For every valid reading up to 2255: the date parsed from a frame of the serializer is the same day of the next month if and only if that month has such a day, and otherwise lies in the month after it, by as many days as are missing; the time of day is right |
| `WireFormat.TimestampDaysLate` | backend/service-iot/src/lib/parser.js:30-30 | It is always as many days late as the month of the frame has, hence never right |
| `WireFormat.EndOfJanuaryBecomesMarch` | backend/service-iot/src/lib/parser.js:30-30 | A frame of 31 January 2021 is dated 3 March 2021 |
| `Calendar.CarriedIsTheDate` | backend/service-iot/src/lib/parser.js:30-30 | Carrying surplus days into the following months gives the one date with the day number that new Date computes |
| `Calendar.DayNumberIsMakeDay` | backend/service-iot/src/lib/parser.js:30-30 | The day numbers counted month by month are those that the MakeDay operation of ECMAScript computes, leap years and centuries included |
| `WireFormat.WholePayloadIff` | backend/service-iot/src/lib/parser.js:32-36 | The whole payload arrives if and only if it is shorter than 256 bytes |
| `WireFormat.ChecksumCompletes` | backend/service-iot/src/lib/brokerMessage.js:94-109 | The bytes of a frame, checksum included, sum to 255 modulo 256 |
| `WireFormat.CorruptionDetectedIff` | backend/service-iot/src/lib/parser.js:19-24 | Replacing one byte of an accepted message is noticed if and only if the byte changes its parity |
| `WireFormat.AcceptedIffOddBytes` | backend/service-iot/src/lib/parser.js:19-25 | A message of any length is accepted if and only if it has an odd number of odd bytes |
| `WireFormat.TruncationLosesFields` | backend/service-iot/src/lib/parser.js:27-36 | What the parser reads from the first part of a message is what it reads from the whole, as far as the bytes are there; the other fields are undefined, or zero in register and length |
| `WireFormat.WrongChecksumAccepted` | backend/service-iot/src/lib/parser.js:24-24 | A message whose sum is not 255 modulo 256 and that is accepted |
| `WireFormat.BrokerMessage.constructor` | backend/service-iot/src/lib/brokerMessage.js:21-35 | An empty message; the random draw becomes a byte below 255 |
| `WireFormat.BrokerMessage.AddByte` | backend/service-iot/src/lib/brokerMessage.js:61-64 | Payload and length field grow together |
| `WireFormat.BrokerMessage.AddBytes` | backend/service-iot/src/lib/brokerMessage.js:70-73 | Payload and length field grow together by the whole array |
| `WireFormat.BrokerMessage.GetChecksum` | backend/service-iot/src/lib/brokerMessage.js:103-109 | The loop computes the complement of the byte sum |
| `WireFormat.BrokerMessage.GetBufferToSend` | backend/service-iot/src/lib/brokerMessage.js:75-100 | The serialised frame, or the range error of the two 16-bit writes |
| `WireFormat.ParseMessageHeader` | backend/service-iot/src/lib/parser.js:4-44 | The loops compute the parsed header for every message, truncated ones included |
| `BinaryStrings.BinaryStringDenotes` | backend/service-iot/src/lib/bufferToBinaryString.js:1-8 | The output has eight binary digits per byte and denotes the big-endian value of the buffer |
| `BinaryStrings.BinaryStringInjective` | backend/service-iot/src/lib/bufferToBinaryString.js:1-8 | Different buffers give different strings |
| `BinaryStrings.BufferToBinaryString` | backend/service-iot/src/lib/bufferToBinaryString.js:1-8 | The loop over the bytes computes that string |
| `BinaryStrings.ParseEstadoNodos` | backend/service-iot/src/lib/parser.js:233-260 | The node states of a report, shown with the last payload byte first |
| `BinaryStrings.NodeStateIsLittleEndian` | backend/service-iot/src/lib/parser.js:237-256 | The node-state string denotes the little-endian value of sixteen payload bytes |
| `BinaryStrings.NodeStateBit` | backend/service-iot/src/lib/parser.js:237-256 | Character 127 - k of the node-state string is set iff payload byte k / 8 is there and has bit k % 8 set |
| `BinaryStrings.ParseSonandoReady` | backend/service-iot/src/lib/parser.js:141-174 | The mask loop over eight partitions agrees, digit by digit, with the binary numerals of the four flag bytes; the zone count is the fifth |
| `BinaryStrings.ParticionOfBits` | backend/service-iot/src/lib/parser.js:141-174 | Partition i rings, is ready and is armed in one of two ways as bit i of the first four payload bytes says, missing bytes counting as zero |
| `Automation.NewAutomationFrame` | backend/service-api-device/src/handlers/device/newAutomation.js:53-107 | The handler's addByte calls build the specified payload in a SET frame, or throw if a schedule lacks a time |
| `Automation.ParseRegisterConfigNodos` | backend/service-iot/src/lib/parser.js:296-333 | The report parser for every payload, short ones included |
| `Automation.AutomationRoundTrip` | backend/service-iot/src/lib/parser.js:296-333 | For the four types, decoding a report of the encoded payload returns number, type, partition, times or hours, and five nodes, numbers cut to bytes |
| `Automation.TimeUnchangedIff` | backend/service-iot/src/lib/parser.js:305-311 | A requested time comes back unchanged if and only if it is the zero-padded text of two bytes |
| `Automation.UnreadableTimeIsZero` | backend/service-api-device/src/handlers/device/newAutomation.js:73-81 | A time without a number before or after the colon, or without a colon, counts as zero there |
| `Automation.ReportShowsType` | backend/service-iot/src/lib/parser.js:296-333 | For every message, short ones and unknown types included: when the parser throws, and which fields it sets from which bytes |
| `Automation.ReportReencodes` | backend/service-iot/src/lib/parser.js:296-333 | Requesting again what a complete report shows writes the bytes of the report, with 0xff for zero nodes |
| `Automation.UnknownTypeMisread` | backend/service-api-device/src/handlers/device/newAutomation.js:63-101 | For any other type only number and nodes are written, and a report of them shows the first two nodes as type and partition |
| `TimeDate.SecondPassedCounts` | firmware/COM38/src/mpxhTimeDate.c:244-275 | From valid digits the five-deep cascade is a counter modulo 86400, and it carries into the day exactly at 23:59:59 |
| `TimeDate.TicksCount` | firmware/COM38/src/mpxhTimeDate.c:237-275 | From any tick counter value, digits, counter and day carries after n ticks, the wrap of the byte counter included |
| `TimeDate.DigitClockRefinesCounter` | firmware/COM38/src/mpxhTimeDate.c:232-275 | The digits encode (s0 + (t0+n) div 250) mod 86400 and the day carry has fired (s0 + (t0+n) div 250) div 86400 times, for all n, if and only if the tick counter starts below 250 |
| `TimeDate.NeverBehindIff` | firmware/COM38/src/mpxhTimeDate.c:237-242 | The clock never counts fewer seconds than the ticks make up if and only if the tick counter starts below 250; otherwise it first does at the 250th tick |
| `TimeDate.RecoversIff` | firmware/COM38/src/mpxhTimeDate.c:237-277 | From any nibbles, which a transfer may bring, the clock returns to a time of day if and only if the first digit of the hour is at most two, and then within the hour; otherwise that digit never changes again |
| `TimeDate.MinuteMarkRounds` | firmware/COM38/src/mpxhTimeDate.c:95-108 | The minute mark sets the seconds to 00 in the first half of the minute and to 59 in the second, with the tick counter at 250, and keeps minutes and hours |
| `TimeDate.MinuteMarkDelays` | firmware/COM38/src/mpxhTimeDate.c:95-108 | After rounding up to the minute mark the clock stands still for 255 ticks and completes the minute with the 256th |
| `TimeDate.EmitsOutstanding` | firmware/COM38/src/mpxhTimeDate.c:204-226 | Under every busy pattern the outstanding begin messages and digits leave in order, one per idle call, and then nothing |
| `TimeDate.TransferArrives` | firmware/COM38/src/mpxhTimeDate.c:75-92 | A complete transfer gives the receiver the sender's digits up to the last but one, leaves its own last digit, and raises the flag once |
| `TimeDate.PartialTransferInvisible` | firmware/COM38/src/mpxhTimeDate.c:75-92 | An incomplete transfer changes neither digits nor flag |
| `TimeDate.MixedTransfer` | firmware/COM38/src/mpxhTimeDate.c:75-92 | What a receiver makes of a transfer that announces date and time and then a time: the first digits of the date stand where the time belongs, the flag is raised nine times, and eight nibbles are written past the mirror |
| `TimeDate.TimeTransfer` | firmware/COM38/src/mpxhTimeDate.c:59-226 | End to end with a stopped clock, for all begin flags, every busy pattern and every receiver: what was started arrives, once enough calls found the bus idle, if and only if it is not date and time while the begin message of a time is still to be sent; before that nothing of it shows |
| `TimeDate.SecondStartArrivesIff` | firmware/COM38/src/mpxhTimeDate.c:176-226 | A time is started and then date and time: they arrive if and only if a call in between found the bus idle |
| `TimeDate.TransferWhileTicking` | firmware/COM38/src/mpxhTimeDate.c:204-226 | End to end with a running clock: the same, with each digit as it was at the idle call that sent it |
| `TimeDate.SingleMomentIff` | firmware/COM38/src/mpxhTimeDate.c:204-226 | If the digits change once inside a transfer, what arrives is a single moment if and only if the digits that change were not sent some before and some after the change |
| `TimeDate.TornTime` | firmware/COM38/src/mpxhTimeDate.c:204-226 | The time 20:00:00 comes up after the first digit of 19:59:59 has been sent: 10:00:00 arrives |
| `TimeDate.MpxhTimeDate.constructor` | firmware/COM38/src/mpxhTimeDate.c:36-55 | Initial digits; nothing is outstanding |
| `TimeDate.MpxhTimeDate.Handler` | firmware/COM38/src/mpxhTimeDate.c:232-275 | In place: one tick of the clock; date digits change only with a carry into the day |
| `TimeDate.MpxhTimeDate.PassMinute` | firmware/COM38/src/mpxhTimeDate.c:254-275 | In place: the minute digits and the carry into the hour |
| `TimeDate.MpxhTimeDate.PassHour` | firmware/COM38/src/mpxhTimeDate.c:264-275 | In place: the hour digits and the carry into the day digit |
| `TimeDate.MpxhTimeDate.VinoMinutoPatron` | firmware/COM38/src/mpxhTimeDate.c:95-108 | In place: rounding to the minute mark |
| `TimeDate.MpxhTimeDate.EmpezarSacarFyh` | firmware/COM38/src/mpxhTimeDate.c:183-187 | In place: a transfer of date and time is started |
| `TimeDate.MpxhTimeDate.EmpezarSacarHora` | firmware/COM38/src/mpxhTimeDate.c:176-180 | In place: a transfer of the time is started |
| `TimeDate.MpxhTimeDate.ResetTimeDate` | firmware/COM38/src/mpxhTimeDate.c:59-64 | In place: the receiver expects fourteen nibbles, and a transfer in progress stops |
| `TimeDate.MpxhTimeDate.ResetTime` | firmware/COM38/src/mpxhTimeDate.c:67-72 | In place: the receiver expects six nibbles, and a transfer in progress stops |
| `TimeDate.MpxhTimeDate.NewTimeDate` | firmware/COM38/src/mpxhTimeDate.c:166-173 | The flag is reported once |
| `TimeDate.MpxhTimeDate.SetTime` | firmware/COM38/src/mpxhTimeDate.c:111-120 | In place: the six time digits are those of the argument, the date digits are kept |
| `TimeDate.MpxhTimeDate.SendNextNibble` | firmware/COM38/src/mpxhTimeDate.c:204-226 | In place: the message handed to the bus and the new send state |
| `TimeDate.MpxhTimeDate.ReceiveNibble` | firmware/COM38/src/mpxhTimeDate.c:75-92 | In place, at every position: fills the mirror, or counts a nibble written past it, and from the last position on copies all digits but the last |
| `TimeDate.MpxhTimeDate.SetTimeDate` | firmware/COM38/src/mpxhTimeDate.c:135-149 | In place: all fourteen digits are those of the argument, and a transfer in progress stops |
| `TimeDate.MpxhTimeDate.GetTimeDate` | firmware/COM38/src/mpxhTimeDate.c:152-163 | Returns the digits that SetTimeDate stored |
| `SocketManager.StepKeepsInv` | firmware/COM38/src/socketManager.c:46-468 | Every call and event keeps table entries and list indices in agreement, flags and receive requests implying open sockets, and buffer pointers within their lengths |
| `SocketManager.RunKeepsInv` | firmware/COM38/src/socketManager.c:46-468 | The same over every run of calls and events with real socket ids, closing and connecting anew with a receive open included |
| `SocketManager.CreateKeepsInvIff` | firmware/COM38/src/socketManager.c:46-89 | Registering a socket keeps the table consistent if and only if it is not registered yet or there is no free entry |
| `SocketManager.AnyChunkFitsIff` | firmware/COM38/src/ASF/common/components/wifi/winc1500/host_drv/socket/source/socket.c:137-180 | The network stack repeats chunks up to the length last requested: all of them fit if and only if that length still fits behind the input pointer |
| `SocketManager.RequestOrFlushCovers` | firmware/COM38/src/socketManager.c:269-291 | After a flush of the input, or a new request while there is room, the next chunk fits |
| `SocketManager.SecondChunkOverruns` | firmware/COM38/src/socketManager.c:447-451 | Two full chunks without either: the input pointer is past the end of the buffer |
| `Connections.RunIsSeen` | firmware/COM38/src/socketManager.c:46-468 | A run of the whole system is, for each socket structure, a run of the calls and messages that concern it |
| `Connections.IdsBalance` | firmware/COM38/src/socketManager.c:99-173 | Over every run the own ids and the clients' ids that the network stack handed out are, in order, those that have gone and the one still held |
| `Connections.ConnectOpensIff` | firmware/COM38/src/socketManager.c:99-144 | After every run: a connect that reports success has opened a connection if and only if all ids obtained before have gone; otherwise it has done nothing |
| `Connections.FailedConnectSticks` | firmware/COM38/src/socketManager.c:413-427 | After a failed connection attempt, and until its id goes, every connect reports success, opens nothing and leaves the socket unconnected |
| `Connections.RetryDoesNothing` | firmware/COM38/src/socketManager.c:105-143 | A retry after a failed attempt, and what a close before it would change |
| `Connections.ClientsClosedIff` | firmware/COM38/src/socketManager.c:389-401 | Over every run, all clients that are gone were closed if and only if none was accepted, and the structure not registered anew, while another was there |
| `Connections.FlagsAreTold` | firmware/COM38/src/socketManager.c:360-427 | After every run a socket is connected, or listening, if and only if the message that says so has come since its own id last went and since it was registered |
| `Connections.SystemFlagsAreTold` | firmware/COM38/src/socketManager.c:349-468 | The same for every socket in every run of the whole system, where messages come only for sockets that have an id |
| `Connections.ReceivesOnLastId` | firmware/COM38/src/socketManager.c:269-279 | After every run a server receives on the id of the client accepted last and a TCP client on the id obtained last, as long as that one has not gone, and UDP clients on none |
| `Connections.TrafficIsTold` | firmware/COM38/src/socketManager.c:189-246 | After every run what waits to be sent is what was put since the last flush, 16-bit numbers high byte first or not at all, as far as there is room, and the input pointer counts the bytes received since the input was flushed |
| `Connections.RequestIsTold` | firmware/COM38/src/socketManager.c:269-279 | After every run the receive request that the network stack has is the one made last with room in the buffer, as long as the id that data comes on, a server's client or the own one, has not gone |
| `Connections.MessageReachesFirst` | firmware/COM38/src/socketManager.c:349-546 | A message reaches the socket of the first table entry that has the id, as its own or its client's, and no other, and closes exactly the ids that go; for an unknown id nothing changes |
| `SocketManager.Socket.FlushBufferOut` | firmware/COM38/src/socketManager.c:243-246 | In place: nothing is waiting to be sent |
| `SocketManager.Socket.FlushBufferIn` | firmware/COM38/src/socketManager.c:288-291 | In place: the input buffer is empty again |
| `SocketManager.StoreAppends` | firmware/COM38/src/socketManager.c:204-224 | Storing appends to what is waiting to be sent, as far as there is room |
| `SocketManager.ChecksummedIsAccepted` | firmware/COM38/src/socketManager.c:227-240 | With its checksum appended the output sums to 255 modulo 256, and the backend parser accepts it |
| `SocketManager.Socket.Configure` | firmware/COM38/src/socketManager.c:55-80 | In place: the field assignments of registration |
| `SocketManager.Socket.Connect` | firmware/COM38/src/socketManager.c:99-144 | In place: success exactly if the socket is open afterwards, and the ids closed; for UDP clients the result tested is any number |
| `SocketManager.Socket.CloseClient` | firmware/COM38/src/socketManager.c:162-173 | In place: the client is closed if there is one, its id dropped, and with it what was requested from the client |
| `SocketManager.Socket.Close` | firmware/COM38/src/socketManager.c:147-159 | In place: client and own id are closed and dropped with the flags, buffers kept |
| `SocketManager.Socket.BufferOutPutByte` | firmware/COM38/src/socketManager.c:176-186 | In place: appends one byte if there is room |
| `SocketManager.Socket.BufferOutPutInt16` | firmware/COM38/src/socketManager.c:189-201 | In place: appends both bytes, high byte first, or neither |
| `SocketManager.Socket.BufferOutPutBytes` | firmware/COM38/src/socketManager.c:204-224 | In place: the loop appends as many bytes as fit and returns their number |
| `SocketManager.Socket.BufferOutGetChecksum` | firmware/COM38/src/socketManager.c:227-240 | The loop with its 32-bit sum computes the checksum of the waiting bytes |
| `SocketManager.Socket.StartReceiving` | firmware/COM38/src/socketManager.c:269-279 | What is requested is the room left in the input buffer, in 16 bits, on the id of the client or the own one |
| `SocketManager.Socket.OnMessage` | firmware/COM38/src/socketManager.c:360-467 | In place: the event switch, and the ids it closes |
| `SocketManager.Table.constructor` | firmware/COM38/src/socketManager.c:35-43 | An empty table |
| `SocketManager.Table.GetFreeSocketIndex` | firmware/COM38/src/socketManager.c:489-504 | The first free entry, or -1 when there is none |
| `SocketManager.Table.CreateSocket` | firmware/COM38/src/socketManager.c:46-89 | In place, registered or not: the table and the records of all callers are those of the specified step |
| `SocketManager.Table.DeleteSocket` | firmware/COM38/src/socketManager.c:92-96 | In place: the entry is cleared, and all else stays, as in the specified step |
| `SocketManager.Table.GetSocketBySocketId` | firmware/COM38/src/socketManager.c:525-546 | The first registered socket with that own or client id, or none |
| `SocketManager.Table.SocketCallback` | firmware/COM38/src/socketManager.c:349-468 | In place: the first registered socket with the id takes the message and nothing else changes, as in the specified step |
| `Timers.ExpiryReported` | firmware/COM38/src/softTimers.c:29-42 | For every n below 2^32 ticks since the restart: exact without a wrap, 65535 ticks early after it, and late once n + 65535 reaches 2^32 |
| `Timers.NeverLateIff` | firmware/COM38/src/softTimers.c:33-36 | No interval is reported late if and only if the counter has not wrapped or n + 65535 is below 2^32 |
| `Timers.NeverEarlyBeyond` | firmware/COM38/src/softTimers.c:33-36 | An expiry is reported early only after a wrap, and by at most 65535 ticks |
| `Timers.SystemTicks.Handler` | firmware/COM38/src/softTimers.c:51-54 | In place: the tick counter advances modulo 2^32 |
| `Timers.SoftTimer.Init` | firmware/COM38/src/softTimers.c:14-19 | In place: running from now with the given interval |
| `Timers.SoftTimer.Restart` | firmware/COM38/src/softTimers.c:22-26 | In place: running from now with the old interval |
| `Timers.SoftTimer.Stop` | firmware/COM38/src/softTimers.c:45-48 | In place: a stopped timer never expires |
| `Timers.SoftTimer.IsExpired` | firmware/COM38/src/softTimers.c:29-42 | The expiry test on the fields |
| `Timers.BlinksPeriodicallyIff` | firmware/COM38/src/BlinkingLed.c:32-43 | For every pattern the n-th output is bit n mod (floor(log2 L) + 1) if and only if the length mark L is below 2^31 |
| `Timers.SlotsCycle` | firmware/COM38/src/BlinkingLed.c:39-43 | Below 2^31 the slots run through the powers of two up to the length mark, over and over |
| `Timers.SlotShiftedOut` | firmware/COM38/src/BlinkingLed.c:39-43 | From 2^31 on the slot is shifted out after 32 outputs and the LED stays dark |
| `Timers.OutputsEveryBasePlusOne` | firmware/COM38/src/BlinkingLed.c:26-46 | Polled every tick without a wrap, a pattern is put out one slot every base + 1 ticks |
| `Timers.PollsShowPattern` | firmware/COM38/src/BlinkingLed.c:26-46 | For every sequence of poll times, also across wraps of the counter: a poll makes an output if and only if the timer that has run since the poll of the last output is due, and the k-th output is the k-th of the pattern |
| `Timers.LatePollsRestart` | firmware/COM38/src/BlinkingLed.c:26-46 | While the counter does not wrap, for polls at any times in order: a poll makes an output if and only if more than base ticks have passed since the poll of the last output, or since the pattern was set |
| `Timers.BlinkingLed.SetPattern` | firmware/COM38/src/BlinkingLed.c:18-24 | In place: pattern, length mark and first slot set, timer started |
| `Timers.BlinkingLed.Handler` | firmware/COM38/src/BlinkingLed.c:26-46 | In place: one output and the next slot when the timer has expired |
| `Timers.StopWatch.Start` | firmware/COM38/src/stopWatch.c:8-13 | In place: running from now |
| `Timers.StopWatch.Stop` | firmware/COM38/src/stopWatch.c:16-20 | In place: stopped now |
| `Timers.StopWatch.Reset` | firmware/COM38/src/stopWatch.c:23-28 | In place: cleared |
| `Timers.StopWatch.ElapsedTime` | firmware/COM38/src/stopWatch.c:31-39 | The number of ticks between start and stop, up to 2^32 and across a wrap |
| `Timers.StopWatch.CurrentElapsedTime` | firmware/COM38/src/stopWatch.c:41-49 | The number of ticks since the start, up to 2^32 and across a wrap |
| `Debounce.FiveEqualSamplesDecide` | firmware/COM38/src/debounce.c:15-64 | After five equal samples, whatever came before, the state is the one the level stands for |
| `Debounce.HeldLevelDecidesIff` | firmware/COM38/src/debounce.c:18-47 | Between two decisions, k equal samples decide exactly when they move the accumulator to 4 or to 0 |
| `Debounce.ChangesFourApart` | firmware/COM38/src/debounce.c:15-64 | Any two changes of the debounced state are at least four samples apart |
| `Debounce.LatchRecordsLastEdge` | firmware/COM38/src/debounce.c:31-61 | The edge latch holds the direction of the last change since it was cleared, or none |
| `Debounce.ClearsTouchOnlyLatch` | firmware/COM38/src/debounce.c:80-83 | Clearing the latch, whenever it happens, leaves state and accumulator as the samples alone make them |
| `Debounce.FirstDecision` | firmware/COM38/src/debounce.c:5-64 | From the initial state high samples decide with the fourth and low ones with the first, so that an active-low input is active after one low sample |
| `Debounce.DebouncePin.constructor` | firmware/COM38/src/debounce.c:5-12 | Initial state |
| `Debounce.DebouncePin.Handler` | firmware/COM38/src/debounce.c:15-64 | In place: one sample |
| `Debounce.DebouncePin.Clear` | firmware/COM38/src/debounce.c:80-83 | In place: the latch is cleared |
| `PasswordRecovery.RecoveryIsSingleUse` | backend/service-api-user/src/handlers/users/recoverPassword.js:46-65 | Over every run of registrations, changes, requests and recoveries with a non-decreasing clock of at least one hour: a successful recovery uses the PIN of the most recent request, less than an hour after it, and none succeeded since that request |
| `PasswordRecovery.PinIsFourDigits` | backend/service-api-user/src/handlers/users/forgotPassword.js:42-42 | A PIN has four decimal digits, and they denote the floor of 9999 times the draw |
| `PasswordRecovery.OpenPinSucceedsIff` | backend/service-api-user/src/handlers/users/recoverPassword.js:46-65 | The most recent unused PIN succeeds if and only if it is the one tried and less than an hour old |
| `PasswordRecovery.NoOpenPinFails` | backend/service-api-user/src/handlers/users/recoverPassword.js:58-65 | Without an unused PIN every attempt fails |
| `PasswordRecovery.ResetIsTimedOut` | backend/service-api-user/src/handlers/users/recoverPassword.js:64-64 | The field left by a success is timed out if and only if the clock reads at least one hour |
| `PasswordRecovery.PasswordIsLastSet` | backend/service-api-user/src/handlers/users/recoverPassword.js:59-65 | Over every run the stored password is the one that registration, change or recovery set last for that user, and nothing else changes it |
| `PasswordRecovery.ChangeSucceedsIff` | backend/service-api-user/src/handlers/users/changePassword.js:38-55 | A change succeeds if and only if the user exists and the current password given is the one set last |
| `PasswordRecovery.AnswersAreTold` | backend/service-api-user/src/handlers/users/recoverPassword.js:36-65 | Over every run, the answer to each request follows from the history: among others, an attempt of a user who never asked for a PIN is a server error, and asking twice for the same PIN in the same millisecond is answered as for an unknown user |
| `PasswordRecovery.HistoryDeterminesField` | backend/service-api-user/src/handlers/users/forgotPassword.js:42-47 | The stored field is the text of the open request, or absent, or the reset text |
| `PasswordRecovery.UserCollection.NewUser` | backend/service-api-user/src/handlers/users/newUser.js:38-51 | In place: a record without a PIN, unless the email is taken |
| `PasswordRecovery.UserCollection.ChangePassword` | backend/service-api-user/src/handlers/users/changePassword.js:38-58 | In place: the checks in order, then the new password |
| `PasswordRecovery.UserCollection.ForgotPassword` | backend/service-api-user/src/handlers/users/forgotPassword.js:42-52 | In place: the PIN text with its time stamp is stored; unknown users are refused |
| `PasswordRecovery.UserCollection.RecoverPassword` | backend/service-api-user/src/handlers/users/recoverPassword.js:36-68 | In place: the checks in order, then new password and reset field |

## Left out

- The calendar part of `mpxhTimeDate_handler` (lines 277-328): it compares packed decimal values with binary month lengths; only the increment of the day digit and the number of day carries are modelled, and `CarryIntoCalendar` may leave any date digits.
- TimeDate.MpxhTimeDate.ReceiveNibble: a nibble written past the mirror array is counted; what it overwrites there is not modelled.
- RingBuffer.Buffer.PutData: what it does to the contents is stated while the count does not wrap; beyond that only the new fields are, because the count then no longer tells how many bytes wait (`PutsWrapCount`).
- SocketManager.Table.DeleteSocket: stated for a list index inside the table, because for a socket that is not registered the source writes before its first entry.
- SocketManager.RunKeepsInv: stated for runs that register a socket at most once and flush or request anew between chunks; `CreateKeepsInvIff` and `AnyChunkFitsIff` say that neither can be dropped.
- The datagram variants of sending and receiving (`socketManager.c:263-285`).
- Overlapping requests in the cloud: handlers run one after the other, and failing database or notification calls in the middle of a handler are not modelled.
- The order in which a query returns users: `ReachableFanOut` holds for every order.
- Time zones: `TimestampOneMonthLateIff` speaks of local dates, not of changes of the clock; hex transport and topics.
- White space, signs and prefixes that `parseInt` and numeric conversion accept: `ParseInt` and `ToNumber` read plain decimal text.
- The remaining registers of `parser.js` (alarm state, battery, network, zone lists): table look-ups and single fields.
- `copyFromParsedMessage`, which overwrites payload and length independently of each other.
- The other fields of messages, sockets and devices (priorities, addresses, names, zones), which the modelled functions only copy.
- Mail, publishing and MQTT delivery, JWT and HMAC, the MQTT client, the other ASF drivers, the EEPROM maps and the frontend.
- Handlers that only read or overwrite single records (zones, nodes, partitions, alarm users).
