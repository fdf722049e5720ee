# Models of the OsmocomBB core

This project models the parts of OsmocomBB that are hardest to get right and proves what they are
for. `dafny verify dfyconfig.toml` verifies all of it. Code that changes state in place is modelled
by classes and methods over the same fields, links and buffers, in the same order of steps; each is
proved against a specification, and the properties below are proved about that specification.
Members are named by module; each module is the file of the same name.

**Convolutional codec** (`Conv*.dfy`). A code is the table the C code takes: output words, next
states, puncture list, termination. `ConvEncode` is the encoder, `ConvDecode` the Viterbi decoder
with its saturating errors and its flat state history, `ConvMessage` what decoding a message means:
a message of least metric, for every termination, every input and every length, and when there is no
answer. `ConvDistance` says the same without the decoder's metric, as squared distance between what
was received and what is sent, and `ConvTables` what puncture lists, termination tables and shift
registers come to. `ConvRoundTrip` proves the noiseless round trip, punctured or not, and
`ConvChannel` says it about the two methods: encode, transmit, decode. For tail biting that round
trip does not always hold, because the first pass starts in state 0; `ConvTailBiting` and
`ConvChannel` say exactly when it does, and give a code for which it fails. With 256 states (K = 9) the number of the last one is
also the sign for "none", so a best path that ends there is not found.

**Red-black tree** (`Rb*.dfy`). Nodes are objects with left, right, parent and colour. A position in
the tree is a subtree and its surroundings; a rotation or a recolouring is an exchange of subtrees.
Insertion and removal keep links, colours, black heights and order, and the two fix-up loops end;
`RbHeight` says what the colours are for.

**Timer queue** (`TimerSpec.dfy`, `Timer.dfy`). The queue is the tree in order plus the eviction
list. A callback is any list of calls that add, schedule and delete timers; a pass is given one such
list for each timer it fires. Expired timers fire the latest first, whatever the callbacks do, and
of equal ones the last armed first.

**Allocator** (`Talloc*.dfy`). The hierarchy as chunks linked to siblings, with only the head of a
list of siblings linked to the parent; pools with their object counts. Whether malloc has memory and
whether realloc moves a block are parameters. Three defects show. When a pool was freed and its last
member is reallocated to a size that does not fit any more, the count reaches 0 without the pool's
memory being given back (talloc.c lines 1050-1057); `Talloc.Leak` is a run that ends so. When malloc
fails in that place, the member stays but is no longer counted. And a pool made inside a pool
overwrites the link to the outer one. `Realloc` and `MakePool` state exactly when this happens. Each
chunk knows how much memory was granted for it, and never outgrows that.

**Download and flash protocols** (`MemLoad.dfy`, `FlashRange.dfy`, `RomLoad.dfy`, `RomLoader.dfy`).
A memory load over a line that loses, damages, delays and reorders, with the phone that writes only
what fits its checksum: replies carry no number, so as long as damage is noticed the load is right in
every run exactly if no two chunks have the same checksum. The checksum does not cover the header of
a request: if only the address or the checksum itself is damaged, the load is confirmed and wrong.
The walk over a range of flash blocks, from the request for the layout to the last confirmation. The
ROM loader's blocks under short writes: it counts them in 8 bits, so a file of more than 256 blocks
starts over and never reaches the checksum.

**SIM client** (`SimNav.dfy`). The walk through the card's directories before each file command
(SELECT is section 9.2.1 of GSM 11.11), and what each job leads to on a card that may refuse the
job's command, with the status words of section 9.4. Findings: after a refused SELECT the client
takes itself to be where it is not, and a job at or below that place is
done in another directory; INCREASE is never sent; SEEK looks for the card's answer to SELECT
instead of the pattern of the job (sim.c line 1099); and lengths are cut to one octet, so that
reading more than 256 octets or updating more than 255 is a success of which only a part was done.

**Cell scanner and its log** (`CellScan.dfy`, `Scanner.dfy`, `CellLog.dfy`, `LogText.dfy`,
`LogRecords.dfy`). Measuring, tuning, reading and requesting as events in any order a valid state
allows; each event says what becomes of table, round, information and records. The validity kept by
every event says that each finished round tuned to each channel at most once, in falling order of
power, and left none at or above the minimum out unless the phone moved; and that each record is
complete and the only one of its synchronisation. One exception shows: when SI2 or SI3 change while
requests are under way and announce a message not read yet, the record is written without it. What
is printed is read back; only the place of a power table is read without its mark (log.c line 370
sets the cell's). The table of bands is a parameter, which makes `catcher.c` lines 360-429 the same machine.

**Mobile allocation** (`MobileAlloc.dfy`) and **bit packing** (`Bits.dfy`, `BitVec.dfy`). Two
decoders of section 10.5.2.21 of GSM 04.08 that agree where both stay inside their buffers, and
exactly where that is; packing that is undone by unpacking.


## Model

| member | source | states |
|---|---|---|
| ConvCode.PathConcat | Src/osmolib/src/shared/libosmocore/src/conv.c:138-164 | End state and coded bits of a joined path are those of its first part, then those of the second part from the state the first one left |
| ConvCode.KeepConcat | Src/osmolib/src/shared/libosmocore/src/conv.c:108-135 | Puncturing a joined stream is puncturing its parts, if list position and bit number carry over |
| ConvCode.AllPuncturesHit | Src/osmolib/src/shared/libosmocore/src/conv.c:54-75 | Puncturing removes exactly one bit for each list entry if and only if the list is strictly increasing and below the number of coded bits |
| ConvTables.DroppedIsListed | Src/osmolib/src/shared/libosmocore/src/conv.c:108-135 | Of an increasing list exactly the bits it names are removed |
| ConvTables.FlushByTables | Src/osmolib/src/shared/libosmocore/src/conv.c:167-200 | With termination tables each termination step sends and goes where they say |
| ConvTables.FlushByZeros | Src/osmolib/src/shared/libosmocore/src/conv.c:167-200 | Without them the termination is that of zeros |
| ConvTables.TailBitingCloses | Src/osmolib/src/shared/libosmocore/src/conv.c:212-222 | For the tables of a shift register a tail-biting message ends in the state it starts in, and no other start state does that |
| ConvEncode.EncodedLength | Src/osmolib/src/shared/libosmocore/src/conv.c:54-75 | The encoder emits exactly the announced number of bits if and only if the puncture list is increasing and in range (for every message and termination) |
| ConvEncode.GetOutputLength | Src/osmolib/src/shared/libosmocore/src/conv.c:54-75 | The loop over the puncture list computes the announced length |
| ConvEncode.ChunkedEncoding | Src/osmolib/src/shared/libosmocore/src/conv.c:138-164 | Encoding in two chunks with the encoder state carried over emits the same bits and ends in the same state as encoding the concatenation |
| ConvEncode.Encoder.constructor | Src/osmolib/src/shared/libosmocore/src/conv.c:87-92 | A new encoder starts in state 0 with nothing sent |
| ConvEncode.Encoder.LoadState | Src/osmolib/src/shared/libosmocore/src/conv.c:95-105 | Shifting in K - 1 bits leaves the state those bits spell in binary |
| ConvEncode.Encoder.DoOutput | Src/osmolib/src/shared/libosmocore/src/conv.c:108-135 | Exactly the output bits that the puncture list keeps are written, in order, and everything else in the buffer stays; the list position moves past the hits |
| ConvEncode.ShiftSelects | Src/osmolib/src/shared/libosmocore/src/conv.c:120-133 | Shifting a bit of the output word to the lowest place and masking it selects exactly that bit |
| ConvEncode.Encoder.EncodeRaw | Src/osmolib/src/shared/libosmocore/src/conv.c:138-164 | What was sent since the start is always the punctured code word of the whole path so far; the new bits go to their place in the buffer and nowhere else |
| ConvEncode.Encoder.EncodeFlush | Src/osmolib/src/shared/libosmocore/src/conv.c:167-200 | The same for the K - 1 termination steps, with or without a termination table |
| ConvEncode.Encode | Src/osmolib/src/shared/libosmocore/src/conv.c:212-232 | A whole message is written as the punctured code word of its path from the start state its termination asks for; the result is its length |
| ConvTrellis.NoPathCheaper | Src/osmolib/src/shared/libosmocore/src/conv.c:370-412 | No input sequence ending in a state is cheaper than that state's accumulated error |
| ConvTrellis.SurvivorCost | Src/osmolib/src/shared/libosmocore/src/conv.c:559-587 | Tracing the recorded origins back from any unsaturated state finds a path into that state whose metric is exactly the accumulated error |
| ConvTrellis.RunOptimal | Src/osmolib/src/shared/libosmocore/src/conv.c:349-412 | After any number of steps each accumulated error is the lesser of saturation and the least metric of all paths into the state |
| ConvTrellis.TryStateKeeps | Src/osmolib/src/shared/libosmocore/src/conv.c:376-405 | Relaxing all branches of one more state keeps the survivor invariant: no tried branch is cheaper, and each unsaturated entry is attained by a tried branch |
| ConvTrellis.ReachedByReadBranch | Src/osmolib/src/shared/libosmocore/src/conv.c:575-585 | The input bit read off two consecutive survivor states is the branch the survivor took, provided the two branches of a state differ |
| ConvDecode.Decoder.constructor | Src/osmolib/src/shared/libosmocore/src/conv.c:242-267 | A new decoder has room for the message and its termination, and no steps |
| ConvDecode.Decoder.Reset | Src/osmolib/src/shared/libosmocore/src/conv.c:270-288 | All steps are forgotten; only the given state, or every state, is possible |
| ConvDecode.Decoder.ReadSym | Src/osmolib/src/shared/libosmocore/src/conv.c:357-368 | The soft bits of a step are rebuilt with 0 at exactly the positions the encoder drops |
| ConvDecode.StepsSnoc | Src/osmolib/src/shared/libosmocore/src/conv.c:458-469 | Steps read in separate calls are the steps of the whole input: positions carry over from scan to flush |
| ConvDecode.StepsPrefix | Src/osmolib/src/shared/libosmocore/src/conv.c:357-368 | Soft bits that come later never change the steps already read |
| ConvDecode.AddErr | Src/osmolib/src/shared/libosmocore/src/conv.c:386-399 | The loop over the output bits adds up the metric of the branch word |
| ConvDecode.MaskSelects | Src/osmolib/src/shared/libosmocore/src/conv.c:394-399 | The shifted 8-bit mask selects one output bit, and shifting it selects the next |
| ConvDecode.Decoder.Compute | Src/osmolib/src/shared/libosmocore/src/conv.c:370-412 | One step leaves, for every state, the cheapest branch into it (or saturation) and where it came from, in one row of the state history; earlier rows are untouched |
| ConvDecode.Decoder.DoSteps | Src/osmolib/src/shared/libosmocore/src/conv.c:321-524 | Scan and flush: any number of data or termination steps extend the recorded run by the steps the received soft bits describe, and consume exactly what the encoder would have sent |
| ConvDecode.Decoder.Rewind | Src/osmolib/src/shared/libosmocore/src/conv.c:291-308 | The errors are lowered by their minimum and everything else starts over |
| ConvDecode.Decoder.Traceback | Src/osmolib/src/shared/libosmocore/src/conv.c:570-585 | The output bits, followed by the skipped termination steps, are the survivor path into the end state; the rest of the buffer stays |
| ConvDecode.Decoder.GetOutput | Src/osmolib/src/shared/libosmocore/src/conv.c:527-590 | The result is the error of a best end state (or of the given one) and the output its survivor path; -1, with nothing written, exactly when no end state was given and all states are saturated or, with 256 states, the last one alone is best |
| ConvMessage.Decode | Src/osmolib/src/shared/libosmocore/src/conv.c:603-629 | For each termination: the message returned has the least metric of all messages the code allows, and the result is that metric. Never -1 for a decodable flushed code; for the other two -1 exactly if no message is below saturation (for tail biting, counted from the start the first pass left) or, with 256 states, all best ones end in the last state |
| ConvMessage.LostIsMissed | Src/osmolib/src/shared/libosmocore/src/conv.c:527-557 | The search for an end state fails exactly if no message is below saturation or the best all end in the last of 256 states |
| ConvMessage.FirstPassOne | Src/osmolib/src/shared/libosmocore/src/conv.c:603-614 | The first pass of tail biting leaves exactly one set of errors |
| ConvMessage.Verdict | Src/osmolib/src/shared/libosmocore/src/conv.c:603-629 | A finished traceback gives a best message, for flushed, truncated and tail-biting codes |
| ConvMessage.NoMessageCheaper | Src/osmolib/src/shared/libosmocore/src/conv.c:349-412 | No message is cheaper than the accumulated error of the state it ends in |
| ConvDistance.AnswerDistance | Src/osmolib/src/shared/libosmocore/src/conv.c:386-399 | For a flushed or truncated code, on the received soft bits and the encoder's output alone: 512 times the result is at most the squared distance of the answer, which is less than that plus 512 for each soft bit that is no erasure, and at most the squared distance of every message allowed |
| ConvDistance.TailBitingDistance | Src/osmolib/src/shared/libosmocore/src/conv.c:603-629 | The same for both passes of tail biting: the first leaves the least distance into each state, lowered by the least of them; the second is nearest over all start states at those costs |
| ConvDistance.PathDistance | Src/osmolib/src/shared/libosmocore/src/conv.c:386-399 | The error of any path is the squared distance of what was received from what the encoder sends for it, in units of 512 rounded down for each soft bit |
| ConvRoundTrip.NoWordErr | Src/osmolib/src/shared/libosmocore/src/conv.c:386-399 | Against undisturbed soft bits a word has no error exactly if it is the same word after puncturing |
| ConvRoundTrip.NoPathErr | Src/osmolib/src/shared/libosmocore/src/conv.c:138-164 | A path has no error against an undisturbed transmission exactly if it is transmitted as the same bits, for paths of any length and any puncture list |
| ConvRoundTrip.NoMessageErr | Src/osmolib/src/shared/libosmocore/src/conv.c:603-629 | A message has no error exactly if it is encoded to the word that was sent |
| ConvRoundTrip.NoiselessRoundTrip | Src/osmolib/src/shared/libosmocore/src/conv.c:603-629 | Every best answer to an undisturbed word has error 0 and is encoded to the same word; it is the message itself when the encoder is injective |
| ConvRoundTrip.UndisturbedDecodable | Src/osmolib/src/shared/libosmocore/src/conv.c:422-524 | An undisturbed word never saturates, however long the message |
| ConvRoundTrip.ShortDecodable | Src/osmolib/src/shared/libosmocore/src/conv.c:386-412 | Whatever was received, a flushed message below a stated length never saturates |
| ConvTailBiting.UndisturbedVerdict | Src/osmolib/src/shared/libosmocore/src/conv.c:611-614 | Tail biting: the result for an undisturbed word is 0 exactly if some state the first pass found best can send that word, and the answer then does |
| ConvTailBiting.FreeStart | Src/osmolib/src/shared/libosmocore/src/conv.c:291-308 | The second pass charges a start state nothing exactly if the first pass ended cheapest there |
| ConvTailBiting.TailBitingRoundTrip | Src/osmolib/src/shared/libosmocore/src/conv.c:603-629 | For any best answer to a word that reveals its message, in whatever follows it on the line: error 0 and the message itself if and only if the first pass ends cheapest in the sender's start state |
| ConvTailBiting.TailBitingRoundTripFails | Src/osmolib/src/shared/libosmocore/src/conv.c:603-629 | A concrete code and message whose undisturbed word is decoded to a message with a different word |
| ConvChannel.Transmit | Src/osmolib/src/shared/libosmocore/src/conv.c:603-629 | Encode, map to soft bits, decode: a flushed message comes back with result 0 and the same code word, as itself when no two messages share a word; a truncated one too, unless the best paths all end in the last of 256 states; a tail-biting word is answered with 0 if and only if the first pass favours some state that can send it and not all messages sent so end in the last of 256 states, and then with such a message; a message its word reveals comes back if and only if the first pass favours its start state and that is not the last of 256 |
| ConvChannel.TailBitingAnswer | Src/osmolib/src/shared/libosmocore/src/conv.c:603-629 | Whatever the decoder answers to an undisturbed tail-biting word, it is 0 if and only if that condition holds, and then the answer is a message that causes the word |
| ConvChannel.TailBitingDecoded | Src/osmolib/src/shared/libosmocore/src/conv.c:603-629 | For a word only one message can cause, the answer is that message with result 0 if and only if the first pass favours its start state and it does not end in the last of 256 states |
| ConvChannel.MissedIfLast | Src/osmolib/src/shared/libosmocore/src/conv.c:545-557 | For a word some favoured state can send, the decoder gives up exactly if all messages sent so end in the last of 256 states |
| RbShape.InOrderPlug | Src/osmolib/src/shared/libosmocore/src/rbtree.c:25-69 | The in-order sequence around a subtree does not depend on what is inside it |
| RbShape.PlugBalanced | Src/osmolib/src/shared/libosmocore/src/rbtree.c:71-134 | A balanced subtree of the right height in fitting surroundings makes a red-black tree unless red meets red |
| RbShape.HoldsPlug | Src/osmolib/src/shared/libosmocore/src/rbtree.c:310-336 | Links and parent links of a whole tree are consistent exactly if they are around and inside any one position |
| RbTree.LeftRotation | Src/osmolib/src/shared/libosmocore/src/rbtree.c:25-46 | The links a left rotation leaves behind are those of the rotated tree in unchanged surroundings, parent links included |
| RbTree.RightRotation | Src/osmolib/src/shared/libosmocore/src/rbtree.c:48-69 | The same for a right rotation |
| RbTree.LeftRotationKeepsOrder | Src/osmolib/src/shared/libosmocore/src/rbtree.c:25-46 | Rotating left keeps the in-order sequence |
| RbTree.RightRotationKeepsOrder | Src/osmolib/src/shared/libosmocore/src/rbtree.c:48-69 | Rotating right keeps the in-order sequence |
| RbTree.Root.RotateLeft | Src/osmolib/src/shared/libosmocore/src/rbtree.c:25-46 | The pointer assignments turn the tree at a position into its left rotation and change nothing else |
| RbTree.Root.RotateRight | Src/osmolib/src/shared/libosmocore/src/rbtree.c:48-69 | The pointer assignments turn the tree at a position into its right rotation and change nothing else |
| RbInsert.UncleShape | Src/osmolib/src/shared/libosmocore/src/rbtree.c:82-91 | Recolouring under a red uncle keeps the order and moves the only possible violation two levels up |
| RbInsert.InnerShape | Src/osmolib/src/shared/libosmocore/src/rbtree.c:93-100 | Rotating at the parent brings an inner grandchild to the outside, with order and heights kept |
| RbInsert.LeftLeftShape | Src/osmolib/src/shared/libosmocore/src/rbtree.c:102-104 | Recolouring and rotating at the grandparent removes the violation |
| RbInsert.FixUnderLeft | Src/osmolib/src/shared/libosmocore/src/rbtree.c:79-104 | One iteration under a left parent keeps the order and either removes the violation or moves it up |
| RbInsert.FixUnderRight | Src/osmolib/src/shared/libosmocore/src/rbtree.c:105-130 | The same under a right parent |
| RbInsert.InsertColor | Src/osmolib/src/shared/libosmocore/src/rbtree.c:71-134 | From one possible red-red violation the loop terminates in a red-black tree with the same in-order sequence |
| RbLink.LinkNode | Src/osmolib/src/shared/libosmocore/include/osmocom/core/linuxrbtree.h:151-158 | The new node becomes a red leaf at the given link, all other nodes where they were |
| RbUnlink.MinFirst | Src/osmolib/src/shared/libosmocore/src/rbtree.c:229-231 | The leftmost node below is first in order, followed by the order without it |
| RbUnlink.Bypass | Src/osmolib/src/shared/libosmocore/src/rbtree.c:263-276 | A node with at most one child is replaced by that child; the node is in the tree no more |
| RbUnlink.SplicedHolds | Src/osmolib/src/shared/libosmocore/src/rbtree.c:233-258 | The link changes around the successor leave a consistent tree with the successor in the erased node's place |
| RbUnlink.TakeOut | Src/osmolib/src/shared/libosmocore/src/rbtree.c:229-258 | The successor takes over place and colour; child, parent and colour for the fix-up are those at the successor's old place |
| RbErase.RedSiblingRight | Src/osmolib/src/shared/libosmocore/src/rbtree.c:146-152 | A red sibling is rotated away: the shortage is the same, the sibling black |
| RbErase.BlackNephews | Src/osmolib/src/shared/libosmocore/src/rbtree.c:153-159 | Painting a sibling with two black children red moves the shortage one level up |
| RbErase.InnerNephewRight | Src/osmolib/src/shared/libosmocore/src/rbtree.c:162-168 | A red inner nephew is turned to the outside with the shortage unchanged |
| RbErase.OuterNephewRight | Src/osmolib/src/shared/libosmocore/src/rbtree.c:169-174 | A red outer nephew ends the shortage: the tree is red-black again with the same order |
| RbErase.EaseLeft | Src/osmolib/src/shared/libosmocore/src/rbtree.c:143-176 | One iteration for a left child ends the shortage or moves it up, with the order kept |
| RbErase.EaseRight | Src/osmolib/src/shared/libosmocore/src/rbtree.c:177-210 | The same for a right child |
| RbErase.EraseColor | Src/osmolib/src/shared/libosmocore/src/rbtree.c:136-214 | From a shortage of one black node the loop terminates in a red-black tree with the same order |
| RbErase.BypassedShape | Src/osmolib/src/shared/libosmocore/src/rbtree.c:263-280 | Replacing a red node by its child keeps all rules; replacing a black one leaves a shortage of one |
| RbErase.TakenOverShape | Src/osmolib/src/shared/libosmocore/src/rbtree.c:229-280 | The same where the successor was taken out; the order is the old one less the erased node |
| RbErase.Erase | Src/osmolib/src/shared/libosmocore/src/rbtree.c:216-281 | Erasing leaves a red-black tree with consistent links whose in-order sequence is the old one less exactly that node |
| RbHeight.TreeIsShallow | Src/osmolib/src/shared/libosmocore/src/rbtree.c:71-134 | What the colours are for: with n nodes there is an h with 2^h at most n + 1 and no way down longer than 2h |
| RbIter.First | Src/osmolib/src/shared/libosmocore/src/rbtree.c:286-296 | The first node of the in-order sequence, or null |
| RbIter.Last | Src/osmolib/src/shared/libosmocore/src/rbtree.c:298-308 | The last node of the in-order sequence, or null |
| RbIter.Next | Src/osmolib/src/shared/libosmocore/src/rbtree.c:310-336 | From node i of the in-order sequence to node i + 1, null behind the last |
| RbIter.Prev | Src/osmolib/src/shared/libosmocore/src/rbtree.c:338-360 | From node i to node i - 1, so it inverts rb_next |
| RbIter.OrderDistinct | Src/osmolib/src/shared/libosmocore/src/rbtree.c:310-336 | No node is visited twice |
| TimerSpec.LessIsMicros | Src/osmolib/src/shared/libosmocore/src/timer.c:46-65 | On normalised values the comparison of the two fields is that of the times |
| TimerSpec.ArmKeeps | Src/osmolib/src/shared/libosmocore/src/timer.c:70-76 | Adding keeps the order sorted and free of duplicates, and takes the timer off the eviction list |
| TimerSpec.CancelKeeps | Src/osmolib/src/shared/libosmocore/src/timer.c:106-115 | Deleting keeps the order and takes the timer off both lists |
| TimerSpec.FirstComeFirst | Src/osmolib/src/shared/libosmocore/src/timer.c:46-65 | An added timer comes behind all that expire no later and before all that expire later |
| TimerSpec.ScheduledFor | Src/osmolib/src/shared/libosmocore/src/timer.c:88-98 | A scheduled timer expires the given delay after the present time, and no other timeout changes |
| TimerSpec.OthersKeepOrder | Src/osmolib/src/shared/libosmocore/src/timer.c:46-65 | Adding a timer leaves the order of the others |
| TimerSpec.SetAhead | Src/osmolib/src/shared/libosmocore/src/timer.c:88-98 | Writing the timeout of a timer still in the tree is harmless, since it is removed before the tree is searched |
| TimerSpec.EvictedKeeps | Src/osmolib/src/shared/libosmocore/src/timer.c:187-200 | The eviction list holds exactly the active timers that have expired |
| TimerSpec.FiredInOrder | Src/osmolib/src/shared/libosmocore/src/timer.c:202-218 | The fired timers are evicted ones in list order, none of them twice, whatever the callbacks do |
| TimerSpec.LatestFirst | Src/osmolib/src/shared/libosmocore/src/timer.c:192-218 | Whatever the callbacks do: of two timers that fire in a pass the one that fires first stood behind the other in the tree, and does not expire earlier |
| TimerSpec.LastArmedFirst | Src/osmolib/src/shared/libosmocore/src/timer.c:192-218 | A timer armed for the time of another or later fires before it |
| TimerSpec.TwoTimers | Src/osmolib/src/shared/libosmocore/src/timer.c:182-223 | Two due timers: the later fires first, then the earlier, or only the later if its callback deletes the other |
| TimerSpec.FiresUnlessForestalled | Src/osmolib/src/shared/libosmocore/src/timer.c:202-218 | An evicted timer fires if and only if no callback before its turn deletes or re-adds it |
| TimerSpec.TouchedWaits | Src/osmolib/src/shared/libosmocore/src/timer.c:202-218 | A timer deleted or re-added by a callback does not fire later in that pass |
| TimerSpec.LastWordCounts | Src/osmolib/src/shared/libosmocore/src/timer.c:182-223 | After a pass a timer is active exactly if the last event about it, its firing or a callback's call, left it so |
| TimerSpec.UndisturbedPass | Src/osmolib/src/shared/libosmocore/src/timer.c:182-223 | A timer no callback names fires if and only if it was active and due; otherwise it and its timeout stay as they were |
| Timer.TimerQueue.constructor | Src/osmolib/src/shared/libosmocore/src/timer.c:44 | No timer is active |
| Timer.TimerQueue.Del | Src/osmolib/src/shared/libosmocore/src/timer.c:106-115 | The timer leaves tree and eviction list and is inactive; no other timer changes |
| Timer.TimerQueue.Insert | Src/osmolib/src/shared/libosmocore/src/timer.c:46-65 | The search and rb_insert_color put the node right behind all nodes that expire no later |
| Timer.TimerQueue.Add | Src/osmolib/src/shared/libosmocore/src/timer.c:70-76 | A timer, active or not, ends up in the queue once, at the place of its timeout |
| Timer.TimerQueue.Schedule | Src/osmolib/src/shared/libosmocore/src/timer.c:88-98 | The timer is queued for the present time plus the given delay |
| Timer.TimerQueue.Evict | Src/osmolib/src/shared/libosmocore/src/timer.c:187-200 | The walk from rb_first collects the expired timers, the latest first |
| Timer.TimerQueue.Update | Src/osmolib/src/shared/libosmocore/src/timer.c:182-223 | The restart loop over the eviction list terminates and does what the pass specification says, with callbacks that add, re-schedule or delete any timers; the tree stays consistent throughout |
| Timer.TimerQueue.Prepare | Src/osmolib/src/shared/libosmocore/src/timer.c:143-177 | nearest is the time left of an earliest active timer, never negative; none if every timeout is at the end of time |
| Timer.TimerQueue.Check | Src/osmolib/src/shared/libosmocore/src/timer.c:225-234 | The number of active timers |
| TallocShape.HoldsPlug | Src/osmolib/src/shared/libosmocore/src/talloc.c:198-223 | The links of a whole hierarchy are consistent exactly if they are around and inside any one list of siblings |
| TallocHeap.TakenOutHolds | Src/osmolib/src/shared/libosmocore/src/talloc.c:554-562 | After unlinking, the hierarchy without the chunk is linked consistently and nothing else changed |
| TallocHeap.PutInHolds | Src/osmolib/src/shared/libosmocore/src/talloc.c:366-378 | After linking in front, the new first child knows its parent and the old one no longer does |
| TallocHeap.ReplacingHolds | Src/osmolib/src/shared/libosmocore/src/talloc.c:1077-1089 | After a move, all neighbours point to the new place |
| TallocLinks.Chunks.Unlink | Src/osmolib/src/shared/libosmocore/src/talloc.c:554-562 | The list assignments for a first and for a later sibling both take the chunk out and nothing else |
| TallocLinks.Chunks.LinkNew | Src/osmolib/src/shared/libosmocore/src/talloc.c:366-378 | The chunk becomes the first child of its owner |
| TallocLinks.Chunks.LinkMoved | Src/osmolib/src/shared/libosmocore/src/talloc.c:664-666 | The chunk becomes the first child of its new owner |
| TallocLinks.Chunks.Retarget | Src/osmolib/src/shared/libosmocore/src/talloc.c:1077-1089 | All neighbours of a moved chunk are turned to it |
| TallocWhole.AllLinkedBothWays | Src/osmolib/src/shared/libosmocore/src/talloc.c:198-223 | next and prev are inverse, and of each list of siblings exactly the head has a parent, whose child it is |
| TallocWhole.PrunedHolds | Src/osmolib/src/shared/libosmocore/src/talloc.c:509-612 | After a free the links are those of the hierarchy without the subtree |
| TallocWhole.GraftedHolds | Src/osmolib/src/shared/libosmocore/src/talloc.c:664-666 | After linking a subtree under a chunk the links are those of the grafted hierarchy |
| TallocWhole.SwappedHolds | Src/osmolib/src/shared/libosmocore/src/talloc.c:999-1095 | After a move the links are those of the hierarchy with the new chunk in the old one's place |
| TallocWhole.FirstChildStays | Src/osmolib/src/shared/libosmocore/src/talloc.c:650-652 | Stealing a first child to the owner it already has changes nothing |
| TallocSpec.FreedTotals | Src/osmolib/src/shared/libosmocore/src/talloc.c:1112-1140 | A free lowers the total of every ancestor by exactly the subtree's total, and no other total |
| TallocSpec.SubtreeNodes | Src/osmolib/src/shared/libosmocore/src/talloc.c:509-612 | What a free removes is the chunk and all below it; everything else stays, once |
| TallocSpec.MovedKeeps | Src/osmolib/src/shared/libosmocore/src/talloc.c:619-669 | A steal loses nothing, keeps all sizes and leaves the moved subtree as it was, below its new owner |
| TallocSpec.MovedGoesWithOwner | Src/osmolib/src/shared/libosmocore/src/talloc.c:619-669 | Freeing the new owner frees what was moved to it, and the rest as before |
| TallocSpec.FreestandingNodes | Src/osmolib/src/shared/libosmocore/src/talloc.c:633-646 | Stealing to no owner keeps every chunk and every size |
| TallocSpec.FreeUndoesAlloc | Src/osmolib/src/shared/libosmocore/src/talloc.c:336-384 | Freeing a newly allocated chunk restores the hierarchy |
| TallocSpec.AddedFirst | Src/osmolib/src/shared/libosmocore/src/talloc.c:366-378 | A new chunk adds its size to the total and comes first among its owner's children |
| TallocSpec.SwappedTotal | Src/osmolib/src/shared/libosmocore/src/talloc.c:999-1095 | Reallocating changes the total by the difference of the sizes |
| TallocPool.MembersApart | Src/osmolib/src/shared/libosmocore/src/talloc.c:282-331 | Live members of one pool occupy disjoint ranges inside the pool |
| TallocPool.CountIsMembers | Src/osmolib/src/shared/libosmocore/src/talloc.c:258-276 | The object count is the number of live members, plus one while the pool itself lives |
| TallocPool.HeldWhileNeeded | Src/osmolib/src/shared/libosmocore/src/talloc.c:589-607 | The memory of a pool is held exactly as long as the pool or a member lives |
| TallocPool.Taken | Src/osmolib/src/shared/libosmocore/src/talloc.c:282-331 | Taking the next aligned bytes of a pool keeps all pool rules |
| TallocPool.Freed | Src/osmolib/src/shared/libosmocore/src/talloc.c:589-607 | Freeing a member or the pool keeps them; the memory goes exactly when the count reaches 0 |
| TallocPool.Reset | Src/osmolib/src/shared/libosmocore/src/talloc.c:944-951 | A pool with no members left can be given out again from its start |
| TallocPool.MovedOutRight | Src/osmolib/src/shared/libosmocore/src/talloc.c:1048-1060 | Reallocating a member to outside its pool keeps the pool rules if and only if the pool itself or another member still lives |
| TallocPool.MovedOutLeaks | Src/osmolib/src/shared/libosmocore/src/talloc.c:1048-1060 | The count of a pool, already freed, whose last member moves out is 0 while its memory is still held |
| TallocPool.Resized | Src/osmolib/src/shared/libosmocore/src/talloc.c:1040-1046 | Shrinking a member where it is keeps all pool rules |
| Talloc.Allocator.Release | Src/osmolib/src/shared/libosmocore/src/talloc.c:589-607 | The chunk is gone; its pool's memory too if this was the last object |
| Talloc.Allocator.FreeAt | Src/osmolib/src/shared/libosmocore/src/talloc.c:509-612 | The recursive free removes exactly the chunk's subtree; all other links and loop flags are as before |
| Talloc.Allocator.Free | Src/osmolib/src/shared/libosmocore/src/talloc.c:509-612 | The hierarchy is pruned by the subtree; -1 for null |
| Talloc.Allocator.FreeChildren | Src/osmolib/src/shared/libosmocore/src/talloc.c:913-952 | The chunk stays, childless; a pool without members starts over |
| Talloc.Allocator.TotalAt | Src/osmolib/src/shared/libosmocore/src/talloc.c:1112-1140 | The recursion with loop flags adds up every size below the chunk once, and clears the flags |
| Talloc.Allocator.TotalSize | Src/osmolib/src/shared/libosmocore/src/talloc.c:1112-1140 | The total of the subtree |
| Talloc.Allocator.Steal | Src/osmolib/src/shared/libosmocore/src/talloc.c:619-669 | The subtree is moved to the front of its new owner's children, or stands alone |
| Talloc.Allocator.AllocPool | Src/osmolib/src/shared/libosmocore/src/talloc.c:282-331 | A chunk comes out of the pool exactly if the aligned request fits what is left |
| Talloc.Allocator.Alloc | Src/osmolib/src/shared/libosmocore/src/talloc.c:336-384 | A fresh chunk at the front of the owner's children, from the owner's pool exactly if it fits there; null with nothing changed exactly for sizes from the limit on or when malloc is needed and has nothing: outside of pools whenever there is none, otherwise when the rest of the pool is too small as well |
| Talloc.Allocator.MakePool | Src/osmolib/src/shared/libosmocore/src/talloc.c:390-411 | For any context a fresh chunk that is an empty pool with object count 1, or null with nothing changed; the pool rules survive if and only if the new pool does not itself lie in a pool |
| Talloc.Allocator.Realloc | Src/osmolib/src/shared/libosmocore/src/talloc.c:999-1095 | Hierarchy and result after every case (free, refusal, no memory, new, in place, moved), stated on sizes alone as well: less than 1024 bytes of shrinking stay in place, anything else outside of pools needs memory, and a member moves; no chunk ever outgrows the memory granted for it; the pool rules survive if and only if the move does not strand a pool |
| Talloc.Allocator.Resize | Src/osmolib/src/shared/libosmocore/src/talloc.c:1040-1095 | Resizing in place changes that chunk's size in the hierarchy and nothing else, and keeps all rules |
| Talloc.Allocator.Regrant | Src/osmolib/src/shared/libosmocore/src/talloc.c:1064-1095 | A block that realloc leaves in place gets as much memory as its new size |
| Talloc.Allocator.Uncount | Src/osmolib/src/shared/libosmocore/src/talloc.c:1048-1060 | The count goes down before malloc is asked: when that fails, the member still lives but is no longer counted |
| Talloc.Leak | Src/osmolib/src/shared/libosmocore/src/talloc.c:1048-1060 | A run of the allocator from nothing: a pool, one member, stolen to no owner, the pool freed, the member reallocated; the memory is held for ever with a count of 0 |
| MemLoad.Loader.StartLoad | Src/osmolib/src/host/osmocon/osmoload.c:761-807 | Sends the first chunk of the image |
| MemLoad.Loader.DoLoad | Src/osmolib/src/host/osmocon/osmoload.c:655-692 | Sends the next chunk with its checksum and arms the timeout, or quits at the end |
| MemLoad.Loader.Timeout | Src/osmolib/src/host/osmocon/osmoload.c:214-225 | Goes back by the outstanding request and sends again |
| MemLoad.Loader.Reply | Src/osmolib/src/host/osmocon/osmoload.c:415-425 | Goes on after a matching checksum, goes back after a wrong one |
| MemLoad.ReplySane | Src/osmolib/src/host/osmocon/osmoload.c:415-425 | Any reply keeps: memoff - memreq is the start of the last chunk sent, memoff is within memlen, and the chunks acknowledged are the first ones in order |
| MemLoad.Again | Src/osmolib/src/host/osmocon/osmoload.c:214-225 | A timeout repeats exactly the outstanding request and changes nothing else |
| MemLoad.DoneIsConfirmed | Src/osmolib/src/host/osmocon/osmoload.c:655-692 | In every run of requests and replies that arrive, are lost, damaged, late or repeated, quitting means every chunk was acknowledged with its own checksum, once each, in ascending order |
| MemLoad.DoneIsLoaded | Src/osmolib/src/host/osmocon/osmoload.c:655-692 | In every run in which replies come before the next request is sent or never, and what is damaged is noticed (damaged data have neither the checksum that came with them nor that of the request), quitting means the whole image is in the phone's memory |
| MemLoad.AlwaysLoadsIff | Src/osmolib/src/host/osmocon/osmoload.c:415-425 | Over a line that loses, delays, repeats, reorders and damages, if damage is noticed, quitting means the image is loaded in every run if and only if no two chunks of the image have the same checksum; and it takes the same condition over a line that damages nothing |
| MemLoad.StrayedRun | Src/osmolib/src/host/osmocon/osmoload.c:214-225 | For any two chunks with one checksum, a run without damage that quits although the second never arrived: the late reply to the first, sent twice because of the timer, is taken for it |
| MemLoad.ChecksumDamaged | Src/osmolib/src/target/firmware/apps/loader/main.c:258-292 | A request of which only the checksum is damaged is not written, but answered with the checksum the loader waits for: it quits with nothing loaded |
| MemLoad.AddressDamaged | Src/osmolib/src/target/firmware/apps/loader/main.c:258-292 | A request of which only the address is damaged is written elsewhere and confirmed |
| MemLoad.AnswersFinish | Src/osmolib/src/host/osmocon/osmoload.c:655-692 | From any reachable point there are prompt and undamaged events, two for each chunk missing, that finish the load |
| FlashRange.FlashTool.constructor | Src/osmolib/src/host/osmocon/osmoload.c:810-844 | Asks for the layout first |
| FlashRange.FlashTool.ParseFlashInfo | Src/osmolib/src/host/osmocon/osmoload.c:228-273 | The table holds one block for each block of each region of each chip, in order; it is written past its end exactly if there are more than 512 |
| FlashRange.ChipTiles | Src/osmolib/src/host/osmocon/osmoload.c:249-271 | The blocks of a chip lie end to end from its base to the sum of its regions |
| FlashRange.InfoSeparate | Src/osmolib/src/host/osmocon/osmoload.c:228-273 | Blocks never overlap if the chips do not |
| FlashRange.BlocksPlaced | Src/osmolib/src/host/osmocon/osmoload.c:235-266 | Every block of the table carries the number of its chip, its address is its offset from that chip, and its size that of a region of the chip |
| FlashRange.CommandsPlaced | Src/osmolib/src/host/osmocon/osmoload.c:875-897 | So does every command of a walk |
| FlashRange.ChipCount | Src/osmolib/src/host/osmocon/osmoload.c:249-266 | A chip has as many blocks as its regions count, each count kept in 16 bits |
| FlashRange.NextBoundary | Src/osmolib/src/host/osmocon/osmoload.c:883-893 | The end of a block is never inside another block |
| FlashRange.WalkCovers | Src/osmolib/src/host/osmocon/osmoload.c:875-897 | From a block boundary the commands go to exactly the blocks meeting the range, ascending and end to end; the walk completes if and only if the range is covered |
| FlashRange.FlashTool.Advance | Src/osmolib/src/host/osmocon/osmoload.c:875-897 | The first of the commands ahead is issued, and only that one; with none ahead it quits or aborts, whichever the walk says |
| FlashRange.FlashTool.Reply | Src/osmolib/src/host/osmocon/osmoload.c:847-900 | The layout, or a confirmation of the command, issues exactly one more command of the walk, or with none left quits or aborts; any other reply changes nothing |
| FlashRange.FlashTool.Run | Src/osmolib/src/host/osmocon/osmoload.c:847-900 | From the request for the layout, with any replies: after n confirmations the first n + 1 commands of the walk were issued; it quits, or aborts, exactly when there were as many confirmations as commands, by whether the walk completes |
| FlashRange.RangeDone | Src/osmolib/src/host/osmocon/osmoload.c:875-897 | For the layout of any chips that do not overlap and any range: the walk completes if and only if the range starts at a block boundary and is covered, and then has one command for each block meeting the range |
| RomLoad.PayloadsAreFile | Src/osmolib/src/host/osmocon/osmocon.c:442-455 | The payloads of consecutive blocks are the file, then zeros |
| RomLoad.PaddedIs | Src/osmolib/src/host/osmocon/osmocon.c:448-455 | The filled-up file starts with the file and has only zeros behind it |
| RomLoad.BlockAddress | Src/osmolib/src/host/osmocon/osmocon.c:426-439 | Read big endian, the header of block k holds ROMLOAD_ADDRESS + k * payload size |
| RomLoad.BlockOnWire | Src/osmolib/src/host/osmocon/osmocon.c:426-455 | A block on the wire: command, index, its payload size and address read big endian, then the file from there on and zeros behind it |
| RomLoad.BlockSumIs | Src/osmolib/src/host/osmocon/osmocon.c:461-468 | What is complemented for a block is 5 and the sum of all its bytes from the low one of the size on |
| RomLoad.ByteArrives | Src/osmolib/src/host/osmocon/osmocon.c:442-455 | Every byte of the file comes in exactly one block, at the place of its address |
| RomLoad.FinalChecksum | Src/osmolib/src/host/osmocon/osmocon.c:461-468 | The final byte, which complements the added complements of the block sums, is one less than the sum of the block sums plus the number of blocks, modulo 256 |
| RomLoad.LastUnique | Src/osmolib/src/host/osmocon/osmocon.c:445-458 | There is one last block |
| RomLoad.LastExists | Src/osmolib/src/host/osmocon/osmocon.c:445-458 | Every file has a last block, however long |
| RomLoader.Downloader.ParamAck | Src/osmolib/src/host/osmocon/osmocon.c:900-918 | Starts with block 0 of the size the phone asked for, a size of just the header included |
| RomLoader.Downloader.PrepareBlock | Src/osmolib/src/host/osmocon/osmocon.c:402-476 | The buffer holds block k with header, payload and zeros; the checksum that of the blocks so far |
| RomLoader.Downloader.WriteBlock | Src/osmolib/src/host/osmocon/osmocon.c:551-590 | With any pattern of short and failed writes the wire holds the blocks before, then exactly the part of this one taken so far; the state moves on only behind a whole block |
| RomLoader.Downloader.BlockAck | Src/osmolib/src/host/osmocon/osmocon.c:919-937 | Next block in a buffer of its own or the old one; after the last one the wire holds all blocks whole and in order, then the checksum command and the complement of the summed complements |
| RomLoader.Downloader.BlockNack | Src/osmolib/src/host/osmocon/osmocon.c:938-945 | Back to the identification |
| RomLoader.Downloader.ChecksumReached | Src/osmolib/src/host/osmocon/osmocon.c:919-937 | The checksum is only ever reached by files of at most 256 blocks, and then no block was sent twice (the block number is an 8-bit field) |
| RomLoader.Downloader.ChecksumSent | Src/osmolib/src/host/osmocon/osmocon.c:922-935 | Behind the blocks the checksum command and one byte went out: one less than the sum of the block sums and the number of blocks, modulo 256 |
| RomLoader.Downloader.SendBlock | Src/osmolib/src/host/osmocon/osmocon.c:551-590 | Any pattern of positive short writes sends the whole block |
| RomLoader.Downloader.Download | Src/osmolib/src/host/osmocon/osmocon.c:900-937 | A whole download, with any short writes and any number of acknowledgements: the checksum is reached if and only if the last block is among the first 256 and was acknowledged, so with 256 acknowledgements if and only if the file fits into 256 payloads |
| RomLoader.LastWithin | Src/osmolib/src/host/osmocon/osmocon.c:445-458 | The last block is among the first 256 exactly if the file is no longer than 256 payloads |
| RomLoader.NeverDone | Src/osmolib/src/host/osmocon/osmocon.c:402-476 | A file of 257 bytes in blocks of one byte never reaches the checksum, however many acknowledgements come |
| SimNav.SimClient.constructor | Src/osmolib/src/host/layer23/src/common/sim.c:1211-1226 | Idle, with a path that is no card's |
| SimNav.SimClient.ProcessJob | Src/osmolib/src/host/layer23/src/common/sim.c:654-735 | One step of navigation: MF, a child, or the job's own command |
| SimNav.SimClient.Dequeue | Src/osmolib/src/host/layer23/src/common/sim.c:193-229 | The first job with a handler is begun, those before it are dropped |
| SimNav.SimClient.ApduResp | Src/osmolib/src/host/layer23/src/common/sim.c:839-1135 | Every response leads to one command or one reply, as the function below says; a response without a job is ignored |
| SimNav.SuccessMeans | Src/osmolib/src/host/layer23/src/common/sim.c:878-931 | Whatever a card answers: success is replied exactly to the answer to the job's own command, or the algorithm's result, with status words of section 9.4 of GSM 11.11 that say it was carried out; every other status words end the job, as a PIN problem exactly for 98 04 and 98 40 |
| SimNav.ShortAnswers | Src/osmolib/src/host/layer23/src/common/sim.c:961-1060 | Answers below 22, 14 and 12 octets, and those of another file, end the job as card errors |
| SimNav.Begin | Src/osmolib/src/host/layer23/src/common/sim.c:687-735 | A job begins with the one SELECT, or command, that is right for where the client believes the card to be; it is refused at once only if it cannot be done |
| SimNav.Exchange | Src/osmolib/src/host/layer23/src/common/sim.c:961-1022 | After each response sim->path and the card's directory move together; the exchange ends exactly with the answer to the job's own command, or where the job cannot be done |
| SimNav.ServeFromHere | Src/osmolib/src/host/layer23/src/common/sim.c:961-1120 | From any waiting state the exchange ends in the reply: a refusal or what the card says of the job's command, which is sent exactly if the job can be done, with its length cut to one octet, once, on its file, in one directory, after a number of directory SELECTs known beforehand |
| SimNav.ActionIs | Src/osmolib/src/host/layer23/src/common/sim.c:1023-1112 | After the answer to the SELECT of its file a job's command is sent, with its length cut to one octet, if and only if the job's length fits the file, and otherwise refused |
| SimNav.IssuedIs | Src/osmolib/src/host/layer23/src/common/sim.c:269-305 | The command sent is the one the job asks for if and only if its length is below 256 octets and it is no SEEK |
| SimNav.AllMoved | Src/osmolib/src/host/layer23/src/common/sim.c:269-305 | A read moves as many octets as there are exactly for 1 to 256 of them, an update exactly for at most 255 |
| SimNav.JobPerformed | Src/osmolib/src/host/layer23/src/common/sim.c:654-735 | Whatever the client believes: with a card that accepts every SELECT, and any status words for the command itself, the reply is a refusal of the client if the job cannot be done (a condition on kind, data and file), and otherwise what the card says of its command; exactly one command was sent then, on the job's file; it is the one the job asks for if and only if moreover the length is below 256 and the job is no SEEK; every command goes out in one directory, known beforehand |
| SimNav.JobServed | Src/osmolib/src/host/layer23/src/common/sim.c:654-735 | A client that is right about where the card is, or has just started, does every job in the job's own directory, with at most 1 + path length directory SELECTs; success if and only if the job can be done and the card carried it out, a PIN problem if and only if it can be done and the card denied access; it is right again afterwards |
| SimNav.PartlyDone | Src/osmolib/src/host/layer23/src/common/sim.c:1070-1083 | Reading and updating a file of 300 octets, carried out by the card, ends in success with 44 octets moved |
| SimNav.RefusedSelect | Src/osmolib/src/host/layer23/src/common/sim.c:703-711 | After a refused directory SELECT the client's path is the card's only if both are empty |
| SimNav.LostRecovers | Src/osmolib/src/host/layer23/src/common/sim.c:687-735 | From a wrong belief the next job ends in its own directory if and only if its path is not the believed one or below it |
| SimNav.GoesAstray | Src/osmolib/src/host/layer23/src/common/sim.c:687-735 | A refused SELECT of DF TELECOM, and then the same job again: SELECT EF SMS and the command go out in the master file |
| SimNav.IncreaseNeverSent | Src/osmolib/src/host/layer23/src/common/sim.c:1101-1109 | INCREASE compares the length of the response and is never sent |
| CellScan.RoundDetermined | Src/osmolib/src/host/layer23/src/misc/cell_log.c:302-347 | Two undisturbed rounds over the same measurement tune to the same channels in the same order |
| CellScan.TunedNext | Src/osmolib/src/host/layer23/src/misc/cell_log.c:302-347 | Tuning to the best candidate keeps the round in order: no channel twice, falling power, lowest number first on ties, none below the minimum |
| CellScan.LevelsFall | Src/osmolib/src/host/layer23/src/misc/cell_log.c:302-347 | Said of the levels: in a finished round they fall from channel to channel, the number rises where two are the same, none twice and none below the minimum |
| CellScan.ToInt8Is | Src/osmolib/src/host/layer23/src/misc/cell_log.c:386-387 | The level is the measured value in the eight lowest bits |
| CellScan.NotReadYet | Src/osmolib/src/host/layer23/src/misc/cell_log.c:611-628 | What was not read yet counts as 23 zeros |
| CellScan.BestIsEnough | Src/osmolib/src/host/layer23/src/misc/cell_log.c:302-347 | Some channel is left to tune to exactly if the best one is strong enough |
| Scanner.Scan.FindBest | Src/osmolib/src/host/layer23/src/misc/cell_log.c:304-317 | The strongest unsynchronised channel, the lowest number on ties |
| Scanner.Scan.StartSync | Src/osmolib/src/host/layer23/src/misc/cell_log.c:302-347 | Tunes to the best channel of the round not tuned to yet; exactly if the place changed or none is strong enough, the round ends and everything is measured again |
| Scanner.Scan.Reset | Src/osmolib/src/host/layer23/src/misc/cell_log.c:411-418 | Only the first reset starts the scan, with a cleared table; any other changes nothing |
| Scanner.Scan.PmRes | Src/osmolib/src/host/layer23/src/misc/cell_log.c:383-391 | One channel gets its level, in 8 bits, and no other entry changes, in any state |
| Scanner.Scan.PmDone | Src/osmolib/src/host/layer23/src/misc/cell_log.c:392-395 | Next band with the table kept; after the last band the round goes on with that table; in any state, and one report too many leaves the table of bands, exactly behind its last entry |
| Scanner.Scan.FbsbResp | Src/osmolib/src/host/layer23/src/misc/cell_log.c:396-406 | One more synchronisation, reading starts, round and records stay, in any state |
| Scanner.Scan.FbsbErr | Src/osmolib/src/host/layer23/src/misc/cell_log.c:407-410 | In any state the round goes on to the next channel or ends, exactly as said for start_sync |
| Scanner.Scan.StartRach | Src/osmolib/src/host/layer23/src/misc/cell_log.c:247-300 | One more request with nothing else changed, or exactly one record and then on with the round |
| Scanner.Scan.NewSysinfo | Src/osmolib/src/host/layer23/src/misc/cell_log.c:562-595 | Exactly with complete information requests start, or without any requests the record is written and the round goes on |
| Scanner.Scan.Bcch | Src/osmolib/src/host/layer23/src/misc/cell_log.c:597-664 | A message that is new while reading or requesting is stored with what it says of optional messages, and then acts as said for new_sysinfo; any other changes nothing. Every record has SI1 to SI4, and the announced SI2bis and SI2ter exactly unless the announcement came while requests were under way |
| Scanner.Scan.Assigned | Src/osmolib/src/host/layer23/src/misc/cell_log.c:423-485 | A matching assignment or rejection while requesting writes one record with its timing advance and the round goes on; any other changes nothing |
| Scanner.Scan.Timeout | Src/osmolib/src/host/layer23/src/misc/cell_log.c:218-231 | While reading the round goes on without a record; while requesting another request until there were enough, then one record; in the other states nothing |
| Scanner.AnnouncedTooLate | Src/osmolib/src/host/layer23/src/misc/cell_log.c:562-595 | A new SI2 that announces SI2bis while requests are under way: the record is written without SI2bis |
| MobileAlloc.ServingListIs | Src/osmolib/src/host/layer23/src/common/sysinfo.c:422-431 | The list is exactly the serving channels, in the order 1 to 1023, then 0 |
| MobileAlloc.PickedBits | Src/osmolib/src/host/layer23/src/common/sysinfo.c:436-453 | A channel is in the sequence exactly if its bit of the map is set |
| MobileAlloc.BitOfNumber | Src/osmolib/src/host/layer23/src/common/sysinfo.c:436-441 | Bit i of the map is that of the number its octets spell, the first octet the highest |
| MobileAlloc.AllocationIs | Src/osmolib/src/host/layer23/src/common/sysinfo.c:405-456 | The hopping sequence is the ordered subsequence of serving channels picked by the bits of that number, without duplicates, and only serving channels |
| MobileAlloc.TwoOctets | Src/osmolib/src/host/layer23/src/common/sysinfo.c:405-456 | The element 02 05 in a cell that serves 1 to 9 and 0 gives the channels 1, 3 and 0 |
| MobileAlloc.DecodeMobileAlloc | Src/osmolib/src/host/layer23/src/common/sysinfo.c:405-456 | Fills the table with that sequence; with si4 the hopping flag ends up on exactly those channels and all other flags stay; an element over 8 octets is refused with nothing changed; an empty one writes outside the list exactly if some channel is serving |
| MobileAlloc.OneFlag | Src/osmolib/src/host/layer23/src/common/sysinfo.c:417-419 | Setting and clearing the hopping flag touches no other flag |
| MobileAlloc.DecodeInAssignment | Src/osmolib/src/host/layer23/src/misc/app_ccch_scan.c:214-225 | The other loop computes the same sequence, and stays inside element and table exactly with at most 8 serving channels for each octet and at most 64 picked ones; up to where it leaves them it is right |
| MobileAlloc.AssignmentInBounds | Src/osmolib/src/host/layer23/src/misc/app_ccch_scan.c:215-221 | That loop indexes inside the element if and only if the cell has at most 8 channels for each octet |
| MobileAlloc.AssignmentOutside | Src/osmolib/src/host/layer23/src/misc/app_ccch_scan.c:215-221 | A cell that serves all channels and an element of one octet: the index becomes negative |
| LogText.AtoiPrinted | Src/osmolib/src/host/gsmmap/log.c:236-258 | Reading back a printed decimal number gives the number, negative ones included |
| LogText.StrtoulPrinted | Src/osmolib/src/host/gsmmap/log.c:299-376 | Reading back a printed time gives the time |
| LogText.AtofFixed | Src/osmolib/src/host/gsmmap/log.c:190-217 | Reading back a coordinate printed with eight places gives the coordinate |
| LogText.HexRoundTrip | Src/osmolib/src/host/gsmmap/log.c:263-296 | Reading back printed octets gives the octets |
| LogText.PrintedSamples | Src/osmolib/src/host/layer23/src/misc/cell_log.c:137-145 | Numbers and octets as printf writes them |
| LogText.ReadSamples | Src/osmolib/src/host/gsmmap/log.c:299-376 | Numbers as atoi and, in each base, strtoul read them |
| CellLog.RowsRestore | Src/osmolib/src/host/layer23/src/misc/cell_log.c:147-176 | The rows say the level of every measured channel and nothing of the others, for every table and every way it splits into rows |
| CellLog.LogPm | Src/osmolib/src/host/layer23/src/misc/cell_log.c:147-176 | Prints exactly those rows |
| CellLog.RowRoundTrip | Src/osmolib/src/host/gsmmap/log.c:220-260 | Reading a printed row restores the levels it was printed for |
| CellLog.ReadLogPower | Src/osmolib/src/host/gsmmap/log.c:220-260 | The loop over the buffer stores what the specification of a row says, up to the last channel |
| LogRecords.ReadFrame | Src/osmolib/src/host/gsmmap/log.c:263-296 | The loop over the digits reads 23 octets or stops |
| LogRecords.ReadPosition | Src/osmolib/src/host/gsmmap/log.c:190-217 | Two coordinates, of which the second may be missing |
| LogRecords.ReadCode | Src/osmolib/src/host/gsmmap/log.c:164-187 | The two parts of the base station code, put together in 8 bits |
| LogRecords.PrintFrame | Src/osmolib/src/host/layer23/src/misc/cell_log.c:137-145 | Prints the frame's word and its octets |
| LogRecords.PrintSysinfo | Src/osmolib/src/host/layer23/src/misc/cell_log.c:178-216 | Prints exactly the lines of the record: number, time, position, code, level, each frame there is, timing advance |
| LogRecords.RowShort | Src/osmolib/src/host/gsmmap/log.c:299-376 | A printed row is far below the length of the reader's line buffer |
| LogRecords.LinesShort | Src/osmolib/src/host/gsmmap/log.c:299-376 | No line of any record is too long for the reader's buffer of 256 characters |
| LogRecords.PowerRead | Src/osmolib/src/host/gsmmap/log.c:299-376 | The lines of a power record restore time and place, the level of every measured channel and -128 for all others |
| LogRecords.PowerPlaceUnmarked | Src/osmolib/src/host/gsmmap/log.c:368-370 | The place of a power table is read, but it is the cell's place that is marked as valid |
| LogRecords.PositionRead | Src/osmolib/src/host/gsmmap/log.c:190-217 | A printed position is read back |
| LogRecords.BsicRead | Src/osmolib/src/host/gsmmap/log.c:164-187 | A printed base station code is read back |
| LogRecords.SysinfoRead | Src/osmolib/src/host/gsmmap/log.c:299-376 | The lines of a record restore the channel number, time, position, base station code, level, each printed frame and the timing advance |
| LogRecords.Reader.ReadLog | Src/osmolib/src/host/gsmmap/log.c:299-376 | One call reads up to the next head line and remembers its type for the next call |
| LogRecords.ReadFrom | Src/osmolib/src/host/gsmmap/log.c:299-376 | Calls of read_log from behind a head line give the records one by one |
| LogRecords.LogRoundTrip | Src/osmolib/src/host/gsmmap/log.c:299-376 | Reading a log of any records in any order gives the records back, one by one |
| Bits.PackedGet | Src/osmolib/src/shared/libosmocore/src/bits.c:93-107 | Packing changes exactly the addressed positions, in either bit order |
| Bits.GetIsBit | Src/osmolib/src/shared/libosmocore/src/bits.c:84-129 | A position of a packed buffer is a bit of its octet as a number, counted from the low or the high end |
| Bits.PackRoundTrip | Src/osmolib/src/shared/libosmocore/src/bits.c:118-129 | Unpacking gets back what was packed, at any offset and in either bit order, and every other stretch reads as before |
| Bits.PackedTwice | Src/osmolib/src/shared/libosmocore/src/bits.c:93-107 | Packing again over the same stretch forgets the first packing |
| Bits.OctetsPacked | Src/osmolib/src/shared/libosmocore/src/bits.c:20-41 | Octets filled one by one are the packed form from the high end on a cleared buffer |
| Bits.Ubit2PbitExt | Src/osmolib/src/shared/libosmocore/src/bits.c:93-107 | The loop leaves the packed buffer; the result is the number of octets up to the last bit, or 0x20000000 for none at all, since the length is computed in 32 bits |
| Bits.Pbit2UbitExt | Src/osmolib/src/shared/libosmocore/src/bits.c:118-129 | The loop leaves the unpacked bits at their offset and everything else as it was |
| Bits.Ubit2Pbit | Src/osmolib/src/shared/libosmocore/src/bits.c:20-41 | The same as the extended form from the high end on a cleared buffer |
| Bits.Pbit2Ubit | Src/osmolib/src/shared/libosmocore/src/bits.c:48-82 | The same as the extended form from the high end |
| BitVec.UintRoundTrip | Src/osmolib/src/shared/libosmocore/src/bitvec.c:205-237 | A number that fits its width is spelled and read back |
| BitVec.BitsRoundTrip | Src/osmolib/src/shared/libosmocore/src/bitvec.c:205-237 | Bits read as a number are spelled again by it |
| BitVec.FieldsRoundTrip | Src/osmolib/src/shared/libosmocore/src/bitvec.c:205-237 | Any list of fields of up to 32 bits that fits, written one behind the other, reads back as the same numbers from the same cursor if and only if all numbers are below 2^31 |
| BitVec.FieldsRead | Src/osmolib/src/shared/libosmocore/src/bitvec.c:205-237 | What is read back is each number as an int: from 2^31 on it is negative |
| BitVec.ReadsAsRefusal | Src/osmolib/src/shared/libosmocore/src/bitvec.c:222-237 | The number 0xffffffea in 32 bits reads as -EINVAL |
| BitVec.HighRoundTrip | Src/osmolib/src/shared/libosmocore/src/bitvec.c:95-111 | Against the padding pattern, a bit reads as H exactly if it was set as H |
| BitVec.PatternIs | Src/osmolib/src/shared/libosmocore/src/bitvec.c:30-60 | The padding pattern is 0x2b |
| BitVec.Vector.SetBitPos | Src/osmolib/src/shared/libosmocore/src/bitvec.c:138-157 | Changes one bit, or refuses a position outside |
| BitVec.Vector.GetBitPos | Src/osmolib/src/shared/libosmocore/src/bitvec.c:74-89 | The bit at a position, or the refusal |
| BitVec.Vector.GetBitPosHigh | Src/osmolib/src/shared/libosmocore/src/bitvec.c:95-111 | H or L against the padding pattern |
| BitVec.Vector.SetNext | Src/osmolib/src/shared/libosmocore/src/bitvec.c:163-172 | Changes the bit at the cursor and moves on, unless at the end |
| BitVec.Vector.SetUint | Src/osmolib/src/shared/libosmocore/src/bitvec.c:205-219 | Writes the number from its highest bit; at the end of the vector the first bits are in and the rest is refused; defined exactly for up to 32 bits |
| BitVec.Vector.GetUint | Src/osmolib/src/shared/libosmocore/src/bitvec.c:222-237 | The number at the cursor as an int, or the refusal with the cursor at the end; defined exactly if no bit more than 32 before the end of the field is set |

## Left out

- ConvMessage.Decode: requires that the two branches of a state lead to different states, since the traceback tells the bit by the next state; for a flushed code it requires some message below saturation, because the source returns an unset history otherwise.
- ConvChannel.Transmit: with a termination table of its own a flushed code must end in state 0, as the decoder takes for granted.
- ConvDecode.Decoder.DoSteps: the buffer of input symbols is a sequence here, and the positions are written back after each step instead of after the loop.
- Timer.TimerQueue.Update: a pass started from inside a callback is not modelled; callbacks are lists of calls, and the time a callback reads is part of the call.
- Timer.TimerQueue.Prepare: assumes normalised timeouts whose seconds fit a long; overflow of a sum of times is not modelled.
- Talloc.Allocator.Alloc: references, destructors, names and the null context are left out.
- Talloc.Allocator.MakePool: what becomes of a hierarchy after a pool inside a pool was made; the other operations ask for the pool rules.
- Talloc.Allocator.Realloc: the identity of a chunk is kept apart from its address; what follows after a pool was stranded.
- Talloc.Allocator.Steal: the new owner is not inside the moved subtree, as the source asks of its callers.
- MemLoad.DoneIsLoaded: images are below 4 GiB, so that no address comes twice. The checksum function itself is a parameter.
- MemLoad.AlwaysLoadsIff: the same; what the phone does is one function here, its memory a map, and other commands do not write to it.
- MemLoad.Loader.Reply: a reply that is not known ends the program and is an event of its own; other commands of the loader are left out.
- FlashRange.WalkCovers: no wrap of 32-bit addresses; without it the walk is still what the source does, but not ascending.
- FlashRange.FlashTool.ParseFlashInfo: the reply is a list of chips, not octets; blocks of size 0, with which the walk never ends, are left out of the walk.
- FlashRange.FlashTool.Run: layouts of at most 512 blocks; what the source does after writing past its table is undefined.
- RomLoader.Downloader.ParamAck: what the last copy reads behind the file is overwritten with zeros in the source and not modelled. Commands are written in one piece.
- SimNav.SimClient.ProcessJob: jobs for PINs and the counters of attempts left, which a PIN problem reports, are left out, and the data of a file command beyond where they come from.
- SimNav.SimClient.ApduResp: a response has status words; shorter ones are ignored by the source.
- SimNav.JobPerformed: a card that accepts every SELECT; file types by the first octet of the identifier (section 6.2 of GSM 11.11).
- Scanner.Scan.StartSync: whether the phone has moved is a parameter, and so is whether an assignment answers this phone's request; the measurement average is left out.
- Scanner.Scan.PmDone: what is read behind the table of bands is undefined; after power results or answers that come in other states than expected only the outcome of that event is stated, not the validity of the round.
- Scanner.Scan.Bcch: which of the optional messages a cell sends is a parameter, since the decoders of SI 2 and SI 3 are left out; the catcher's SI 5 and SI 6 are left out.
- MobileAlloc.DecodeMobileAlloc: what is written outside the list is undefined and not modelled. MobileAlloc.DecodeInAssignment likewise outside element and table.
- LogRecords.LogRoundTrip: positions are numbers of eight decimal places, so the rounding of a double is not modelled; codes, levels and times have the width they have in the source.
- LogText.AtofFixed: atof reads an optional sign, digits and a fraction; exponents, hexadecimal and names for infinity are left out.
- Bits.Pbit2Ubit: writes one bit even when none is asked for, like the source.
- BitVec.Vector.SetUint: a shift of an int by 31 is taken to give 2^31, as compilers do; what wider shifts give is undefined and not modelled. A negative number of bits, which does nothing, is left out.
- osmo_bit_reversal and the revbytebits functions: the swaps of groups of bits are left out; the buffer form works in whole words past the given length.
- conv.c: separate scan and flush calls by other callers than the decode function are covered by DoSteps, encoder and decoder for several bursts are not.
- rb_replace_node: not used by the timers.
- Memory dump, flash programming, the Compal and MTK loaders, HDLC and sercomm framing: other protocols of the same tools.
- pch_scan.c and enc_scan_old.c: near copies of app_ccch_scan.c.
- Write queues, signals, message buffers, rate counters, statistics, utilities, network tables: no property that spans functions.
- Sockets, serial ports, select, GSMTAP, logging, options, daemons: input and output; events stand for them.
- Distances, KML and GPS: floating point and trigonometry.
- PyCatcher: user interface, threads, web and database lookups.
