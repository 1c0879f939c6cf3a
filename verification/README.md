# A verified model of mpxcast

mpxcast receives FM radio with an RTL-SDR stick, decodes it, and streams it over HTTP; the RDS radiotext becomes the
title in the stream. This project models the seven parts of it that carry state from call to call, each in the form
the program has (objects with fields, loops over buffers, linked lists), proves every operation against a
specification on values, and proves about the specification what the part is for, over all inputs and all runs.

- **RDS block decoder** (`RdsCode`, `RdsBurst`, `RdsSoft`, `RdsErrorRing`, `RdsBlockStream`, `RdsSyncRuns`,
  `RdsDelivery`, `RdsSoftWitness`, `RdsAcquisition`): the error-protecting code of EN 50067:1998 (sections 2.3 and
  2.4, Annexes A to C), both correctors, the bit-serial synchroniser, and the theorem that says what becomes of every
  word of a group, from an encoder over a damaged channel to the groups delivered, from the acquisition of
  synchronisation on.
- **Radiotext** (`RdsText`, `RdsTextDelivery`, `RdsTextDamage`, `RdsReceiver`): merging by quality, the A/B flag,
  completeness, and the theorem from a text in the air, blocks of it lost, to the text reported, on top of the block
  decoder's, for the functions and for the two objects at work; and how two wrong bits make another text.
- **Shared chunk queue** (`ChunkQueue`, `ChunkServer`, `ChunkServerRuns`, `ChunkServerSources`): the protocol, in
  which each region under the lock is one step, its invariant over every interleaving, and the linked lists in memory,
  in which chunks are freed behind raw pointers, for single calls and for whole runs of one server; and that what
  listeners get is what the source delivered after they came.
- **MPEG transport stream** (`Crc32`, `MpegTs`, `MpegTsAudio`, `MpegTsMuxer`, `MpegTsClock`): ISO/IEC 13818-1,
  sections 2.4.3.2 to 2.4.3.7 and Annex A, against a small demultiplexer.
- **Filters** (`Convolution`, `Fir`, `FirSpecialized`, `FirAgreement`, `IqDecimator`): mirrored circular histories and
  unrolled fast forms against the plain convolution, over the reals.
- **ICY interleaver** (`Icy`): against a client that takes the stream apart. `ClientStream` puts it behind the
  transport stream, as a connection does, and shows that a listener gets every sample back; `Broadcast` puts that
  behind the chunk queue, for every listener of a run, and `StreamTitle` takes a text from the air to the title the
  listener reads.
- **Sample ring** (`SampleRing`): against a queue that drops its oldest bytes.

`Bytes`, `Binary` and `Common` hold what several parts share. A method over memory is tied to a function by its
`ensures`; where a state is large, that is the predicate `Is(s)` ("the object has value s"), and the method takes the
state it starts from as a ghost parameter. Where two objects or a whole run of one are compared (`RunBoth`,
`ReadBoth`, `RunRing`, `ChunkServerRuns.Run`, `RunAndSend`, `Listen`, `Send`), a method drives the objects call by
call; it stands for their callers.

## Reading the model

- A 26-bit block is a sequence of 26 Booleans, first received bit first; bit k of the program's register has index 25
  minus k. The register of the program is wider than that, but only these bits are ever used.
- Counters of 32 and 64 bits are numbers with the wrap-around written out. Floating-point numbers are reals.
  Characters are tested for being printable as in the C locale, in which the program runs.
- A chunk of the queue holds room for 1024 frames of two samples and says how many frames count.
- What the outside world does is a parameter: the bits and their confidences, what the source delivers and what the
  callback pushes during each wait, whether tuning succeeds, whether the clock allows producing, whether a chunk can
  be packaged.
- Where the source falls short of what it is for, the model keeps the source's behaviour and states the exact
  condition:
  - the soft corrector compares a candidate's syndrome with the offset *word* (block_sync.c:199, 214, 233), not with
    the syndrome of that word as the burst corrector does (:122-125), so a block it has corrected shows no offset at
    all (`SoftCorrectedWordHasNoOffset`; `SoftTargetDecides` says what any target gives). Its result has the data sent
    exactly when damage and flips together stay within the check bits (`StoredDataAreRightIff`, which covers every
    damage). What it returns is taken for corrected and used for text (`WhateverIsStoredIsUsable`), so a fourth block
    received with bits 0 and 13 changed, bit 22 being among the six least confident, puts two wrong characters into
    the text (`SoftCorrectionOfNoBlock`), which is reported as complete (`AnotherTextIsReported`, `OneHitExists`);
  - the clock reference agrees with the time stamp exactly when the 64-bit product has wrapped a multiple of 75 times
    (`PcrAgreesIff`, `PcrCanDisagree`);
  - the unrolled decimator drops what is left over after the last whole group of five in a block (fir.c:167-238), and
    the generic one carries it to the next block. On blocks of whole groups, such as the 5120 samples the pipeline
    passes, the two write the same (`RunBoth`). For block lengths in general they do if and only if what is left over
    in the first block that is not whole groups, together with everything after it, makes no group
    (`FormsAgreeExactly` for any filter that hears one of the five newest samples, `LengthsDecideForAllTaps` for all
    filters together); three samples and then two is a run on which they differ (`ThreeThenTwoGeneric`,
    `ThreeThenTwoSpecialized`);
  - a title of 225 to 240 bytes fits the title buffer but no metadata block (`LongTitleIsRefused`); radiotexts never
    come near that (`RadiotextIsAlwaysAnnounced`);
  - room in the chunk queue is made exactly when the queue is not full or some current client stands at its oldest
    chunk (`RoomIsMadeByDroppingLaggards`). A client whose chunk could not be packaged has already moved on and
    nothing has been pruned (server.c:424-430), so until it leaves, another client may be refused (`RoomCanBeRefused`
    gives such a run, `RoomIsAlwaysMade` shows it is the only way).

## Model

| member | source | states |
|---|---|---|
| `RdsCode.CalculateSyndrome` | `src/rds/block_sync.c:61-76` | the loop over the register computes the sum of the matrix rows of the set bits, for every word |
| `RdsCode.SyndromeXor` | `src/rds/block_sync.c:61-76` | the syndrome of a sum of two words is the sum of their syndromes |
| `RdsCode.SyndromeIsRemainder` | `src/rds/block_sync.c:61-76` | the matrix implements the code of EN 50067: sixteen multiplications by x take the syndrome to the remainder of the word modulo the generator polynomial |
| `RdsCode.ZeroSyndromeIffCodeword` | `src/rds/block_sync.c:61-76` | a word has syndrome zero if and only if its last ten bits are the checkword of its first sixteen |
| `RdsCode.SyndromeOfOffset` | `src/rds/block_sync.c:78-101` | the table of syndromes is the table of offset words put through the syndrome: each offset word alone has the syndrome by which it is recognised |
| `RdsBurst.CorrectBurstErrors` | `src/rds/block_sync.c:103-140` | the search finds the first pattern in its order whose syndrome accounts for the block, the raw block otherwise |
| `RdsBurst.PatternsDiffer` | `src/rds/block_sync.c:108-131` | the 51 single-bit and adjacent-pair patterns have pairwise distinct syndromes |
| `RdsBurst.ClippedPair` | `src/rds/block_sync.c:118-120` | at shift 25 the pair is cut to a single bit, with the syndrome of the single-bit pattern, which is found first |
| `RdsBurst.BurstCorrectionIsExact` | `src/rds/block_sync.c:103-140` | for every offset, every word carrying it and every one of the 51 errors: the original word and the true number of flipped bits come back |
| `RdsBurst.BurstCorrectionOutcome` | `src/rds/block_sync.c:103-140` | success exactly when some pattern repairs the block; the repaired block has the expected syndrome and differs by that pattern; a failure returns the raw block |
| `RdsSoft.WeakestIsSelection` | `src/rds/block_sync.c:161-189` | the insertion loop keeps the (at most six) least confident positions, in order of confidence and then of position; nothing outside is weaker |
| `RdsSoft.SelectWeakest` | `src/rds/block_sync.c:156-189` | one array holds that selection, the other the confidence of each of its members, and the confidences given are left alone |
| `RdsSoft.TrySingles` | `src/rds/block_sync.c:195-205` | the first single flip among the candidates that reaches the target |
| `RdsSoft.TryPairs` | `src/rds/block_sync.c:207-223` | the first pair that does |
| `RdsSoft.TryTriples` | `src/rds/block_sync.c:225-242` | the first triple that does |
| `RdsSoft.CorrectSoftErrors` | `src/rds/block_sync.c:142-268` | singles, then pairs, then triples of the six weakest bits |
| `RdsSoft.SoftSearchOutcome` | `src/rds/block_sync.c:142-268` | for every target: success returns a smallest set of at most three of the six weakest positions that reaches it, with its size; failure means there is none |
| `RdsSoft.SoftCorrectedWordHasNoOffset` | `src/rds/block_sync.c:199-233` | as written, with the offset word as target, a corrected block has a syndrome that belongs to no offset |
| `RdsSoft.SoftTargetDecides` | `src/rds/block_sync.c:199-233` | a word the search succeeds on has exactly the target as syndrome, so it carries the expected offset if and only if the target is the syndrome of that offset |
| `RdsErrorRing.PushDescribes` | `src/rds/block_sync.c:327-345` | if the ring describes a list of verdicts (the newest fifty, their count and their sum), then after a push it describes the list with one more |
| `RdsBlockStream.BlockStream.constructor` | `src/rds/block_sync.c:443-446` | the initial state |
| `RdsBlockStream.BlockStream.RecentErrorPush` | `src/rds/block_sync.c:327-338` | the ring becomes the ring with that verdict; nothing else changes |
| `RdsBlockStream.BlockStream.RecentErrorClear` | `src/rds/block_sync.c:340-345` | the ring becomes empty |
| `RdsBlockStream.BlockStream.SyncBufferPush` | `src/rds/block_sync.c:292-303` | the pulse history moves by one and ends with the new pulse |
| `RdsBlockStream.BlockStream.SyncBufferIsSequenceFound` | `src/rds/block_sync.c:305-325` | true if and only if two earlier entries and the newest form a chain |
| `RdsBlockStream.BlockStream.AcquireSync` | `src/rds/block_sync.c:347-363` | an unsynchronised stream records the pulse and enters synchronisation exactly on a chain, with an empty group and ring |
| `RdsBlockStream.BlockStream.Decode` | `src/rds/block_sync.c:403-432` | the block is stored as it is when it carries the expected offset, as corrected when a corrector succeeds, and else not at all |
| `RdsBlockStream.StoredConfidenceIsMean` | `src/rds/block_sync.c:270-279` | the confidence stored with a block: each of its bits counts for a twenty-sixth, and equal bits give their own |
| `RdsBlockStream.BlockStream.FindBlockInRegister` | `src/rds/block_sync.c:372-441` | one block: acquiring, judging, losing synchronisation or decoding and finishing, the whole new state |
| `RdsBlockStream.BlockStream.TakeBlock` | `src/rds/block_sync.c:384-440` | the part of it that runs in synchronisation |
| `RdsBlockStream.BlockStream.PushBitWithConfidence` | `src/rds/block_sync.c:452-468` | one bit: the whole new state |
| `RdsSyncRuns.RunsAreConsistent` | `src/rds/block_sync.c:281-468` | in every run of bits and caller actions the two registers are the last 26 bits and the last 26 confidences, the history the last eight pulses, the ring the verdicts since the acquisition |
| `RdsSyncRuns.RegistersAreAligned` | `src/rds/block_sync.c:452-460` | in every run index i of the two registers belongs to one input: the bit received 25 - i places ago and its confidence |
| `RdsSyncRuns.RingSumCountsMismatches` | `src/rds/block_sync.c:327-338` | in synchronisation the sum in the ring is the number of mismatches among the last fifty blocks since the acquisition, and at most 35 |
| `RdsSyncRuns.SyncIsLostExactlyAbove35` | `src/rds/block_sync.c:393-401` | a bit loses synchronisation if and only if it ends a block whose verdict takes that number above 35 |
| `RdsSyncRuns.SyncIsAcquiredExactlyByThreePulses` | `src/rds/block_sync.c:281-363` | a bit acquires synchronisation if and only if it ends a block with a known offset that follows two earlier pulses, each one to six whole blocks after the one before and in block order, the first at most seven pulses back (runs under 2^32 bits) |
| `RdsDelivery.OffsetOfWire` | `src/rds/block_sync.c:78-93` | a correctable block shows its offset exactly when undamaged, and a damaged third block is never taken for its alternative |
| `RdsDelivery.WireIsCorrected` | `src/rds/block_sync.c:403-432` | a damaged correctable block is corrected to the block sent, with the true count, whatever the confidences |
| `RdsDelivery.FittingBlock` | `src/rds/block_sync.c:389-393` | a block that arrives correctable in its place is judged a mismatch exactly when it is damaged |
| `RdsDelivery.OutcomeIsRight` | `src/rds/block_sync.c:403-432` | for every word, place and confidences: if the word can have come of a correctable block, what is stored of it is that block, with the true mark and count |
| `RdsDelivery.LostIffNothingIsStored` | `src/rds/block_sync.c:403-432` | nothing is stored of a word exactly when it shows another offset than expected and neither corrector succeeds |
| `RdsDelivery.TakeBlockOfGroup` | `src/rds/block_sync.c:372-441` | 26 bits of any word, in its place in a group of which nothing is stored from there on: alignment is kept, what is stored of it is what its word and confidences determine, and the fourth one delivers exactly the group assembled |
| `RdsDelivery.ReceptionIsDetermined` | `src/rds/block_sync.c:372-477` | whatever words arrive, as long as no more than 35 of the last fifty show a wrong offset: alignment is kept, one group comes out per group of four, and each block in it is exactly what its own word and confidences make of it |
| `RdsDelivery.GroupsAreCounted` | `src/rds/block_sync.c:365-370` | over any bits from any state, the count of groups rises by the number of groups that come out, modulo 2^64 |
| `RdsDelivery.EveryCorrectableBlockIsDelivered` | `src/rds/block_sync.c:372-477` | in particular every block that arrives correctable is delivered exactly, with the true mark and count, whatever has become of the others |
| `RdsDelivery.LightlyDamagedGroupsAreDelivered` | `src/rds/block_sync.c:372-477` | from any synchronised state between groups: any sequence of groups sent with a checkword and offset, each block damaged in at most one bit or two adjacent ones (a third block with the alternative offset undamaged) and never more than 35 of the last fifty damaged, is delivered exactly, in order, with exactly the damaged blocks marked and counted |
| `RdsSoftWitness.StoredDataAreRightIff` | `src/rds/block_sync.c:403-432` | for every block, every damage to it and all confidences: what is stored of it has the data sent if and only if damage and changes together stay within the check bits; when it is undamaged to the decoder or repaired by the burst corrector that is if and only if the changes undo the damage, and the changes of the soft corrector never do |
| `RdsSoftWitness.SoftCorrectionOfNoBlock` | `src/rds/block_sync.c:142-268` | it does go wrong: any fourth block received with bits 0 and 13 changed, bit 22 among the six least confident: the burst corrector gives up, and the soft one flips bit 22, reports one correction and returns a word of no offset |
| `RdsSoftWitness.ItIsStoredAsReceived` | `src/rds/block_sync.c:403-432` | and what is stored is its data, other than those sent, as received and corrected in one bit |
| `RdsSoftWitness.FirstSixAreWeakest` | `src/rds/block_sync.c:161-189` | with equal confidences the six candidates are exactly the six bits received first, bit 22 among them |
| `RdsSoftWitness.NothingIsStored` | `src/rds/block_sync.c:403-432` | any fourth block received with bits 0 and 4 changed and equal confidences: both correctors give up and nothing is stored |
| `RdsAcquisition.RunsAreTidy` | `src/rds/block_sync.c:281-468` | in every run, in synchronisation: nothing is stored of the block awaited and of those after it |
| `RdsAcquisition.BoundariesOfRuns` | `src/rds/block_sync.c:372-441` | so in any run, whenever the stream is in synchronisation with a whole first block to come, it is between groups and the delivery theorems apply |
| `RdsAcquisition.DeliveryAfterAcquisition` | `src/rds/block_sync.c:347-441` | in any run, after an acquisition at any block of a group, while no more than 35 of the last fifty blocks show a wrong offset: the rest of that group passes, without a first block if it was begun in the middle, and from the next one on each group comes out exactly as its words determine |
| `RdsText.QualityRanksDamage` | `src/rds/parser.c:64-84` | at equal confidence an undamaged block outranks a damaged one and each further correction costs |
| `RdsText.GroupQualityRanksDamage` | `src/rds/parser.c:77-94` | and so it is for groups: a worse second, fourth or, in version A, third block makes a worse group |
| `RdsText.SanitizedStaysSo` | `src/rds/parser.c:14-24` | printable characters are kept, exactly NUL, line feed and carriage return end the text, everything else becomes a space; sanitising again changes nothing |
| `RdsText.TextPosition` | `src/rds/parser.c:116-142` | every character of a group falls inside the 64 positions, so the guard in the loop never acts |
| `RdsText.Parser.constructor` | `src/rds/parser.c:198-201` | the initial state: nothing seen, flagged or reported |
| `RdsText.Parser.ClearRadiotext` | `src/rds/parser.c:110-114` | every position is unseen again |
| `RdsText.Parser.UpdateRadiotextChars` | `src/rds/parser.c:116-142` | each position in the stretch merges its character, no other changes, and nothing is written past the text |
| `RdsText.Parser.RadiotextIsComplete` | `src/rds/parser.c:148-196` | the three loops decide completeness: some position ends the text, all before it are received, one of them not a space |
| `RdsText.Parser.ProcessGroup` | `src/rds/parser.c:203-318` | the whole new state for every group, whether it was understood, and whether a text was reported |
| `RdsText.UpToZero` | `src/rds/parser.c:300-305` | a zero-terminated string ends at the first zero |
| `RdsText.CompleteIffNoHole` | `src/rds/parser.c:148-196` | complete if and only if every position before the first terminator received (or all 64) is received and one is not a space |
| `RdsText.EveryRunMergesByQuality` | `src/rds/parser.c:110-142` | in every run each position holds the best quality among all usable observations since the flag last changed, and the character of the latest observation of that quality; unseen exactly when there is none |
| `RdsText.EveryRunKeepsStablePi` | `src/rds/parser.c:226-230` | in every run the programme identification is that of the latest group with a usable first block, or while there is none, of the first group understood |
| `RdsTextDelivery.SegmentHeaderIsRead` | `src/rds/parser.c:6-12` | the parser reads type, version, flag and segment from the second block as a sender writes them, for both versions |
| `RdsTextDelivery.TwoBytesAreRead` | `src/rds/parser.c:265-271` | and the two characters from a data word |
| `RdsTextDelivery.PaddedTextIsSent` | `src/rds/parser.c:14-24` | any text of at most 64 characters, closed by a terminator and padded to whole segments, means the sanitised text |
| `RdsTextDelivery.PlainTextIsSent` | `src/rds/parser.c:14-24` | a text of printable characters, so closed and padded, means itself, character for character |
| `RdsTextDelivery.CellsTellWhatWasReceived` | `src/rds/parser.c:252-287` | with segments of one text, of four characters or two, in any order, with repeats, losses and other groups between, exactly the positions received are filled, each with its character |
| `RdsTextDelivery.CompleteTextIsWholeText` | `src/rds/parser.c:148-196` | whatever was received, a text found complete is the whole text, never a part of it |
| `RdsTextDelivery.CompleteIffAllReceived` | `src/rds/parser.c:148-196` | it is found complete if and only if every position up to the terminator was received and it shows something |
| `RdsTextDelivery.RepeatedTextIsReported` | `src/rds/parser.c:252-305` | once they all were, the sanitised text is what has been reported |
| `RdsTextDelivery.ReportedTextIsRightIff` | `src/rds/parser.c:148-196` | of whatever characters the groups say, all positions being said: the text reported is the one sent if and only if each character up to the terminator is said rightly, as far as sanitising can tell |
| `RdsTextDelivery.SparedGroup` | `src/rds/parser.c:252-287` | a group of which each block after the first carries the data sent, however corrected, or is lost says nothing wrong of the text, and covers exactly what it was sent for, if the blocks it needs have come (the third only in version A) |
| `RdsTextDelivery.WhateverIsStoredIsUsable` | `src/rds/parser.c:144-146` | whatever the block stream stores of a word, undamaged or corrected by either corrector, the parser takes for usable text, for every word, place and confidences; it refuses exactly what was lost |
| `RdsTextDelivery.HasTextIff` | `src/rds/parser.c:252-287` | in terms of the channel: a group has every block its text needs exactly when none of them is lost |
| `RdsTextDelivery.SparedTextIsReported` | `src/rds/parser.c:203-318` | the parser, fed with what is left of the groups of a station, has the text complete if and only if every position up to the terminator has come in some group and the text shows something, and then has reported exactly that text |
| `RdsTextDelivery.TextDespiteLosses` | `src/rds/parser.c:203-318` | from bits to text with blocks lost: each block that carries text stored with the data sent or not at all, no more than 35 of the last fifty wrong; through the block stream and the parser the text is complete if and only if every position up to the terminator is sent in a group of which no needed block is lost, and then it is the one reported |
| `RdsTextDelivery.PlainTextIsReported` | `src/rds/parser.c:203-318` | so a text of printable characters, not all spaces, all of whose positions arrive, is reported character for character |
| `RdsTextDelivery.TextOverTheAirIsReported` | `src/rds/parser.c:203-318` | in particular a text repeated in 2A and 2B groups, among others, over a channel that damages it lightly, is reported whole |
| `RdsTextDamage.TwoBytesMisread` | `src/rds/parser.c:265-271` | two printable characters become two others |
| `RdsTextDamage.AnotherTextIsReported` | `src/rds/parser.c:203-318` | for every text and every segment of it sent in one group only, whose fourth block is so hit, all else arriving as in the theorem above: the text with those two characters changed, which is another text, is complete and reported |
| `RdsTextDamage.OneHitExists` | `src/rds/parser.c:203-318` | every text in whole segments, whichever segment is to be hit, can be sent and received so: the inputs are given |
| `RdsReceiver.Listen` | `src/dsp/rds_demod.c:144-187` | the two objects, fed bit by bit with each group handed on, end in the states and with the text that the functions say |
| `RdsReceiver.HearText` | `src/dsp/rds_demod.c:144-187` | so the parser object has the text on the air complete if and only if it gets through, and then it is the one the object has reported; a text of printable characters is reported as it is |
| `RdsReceiver.TextAfterAcquisition` | `src/dsp/rds_demod.c:144-187` | a receiver that acquires synchronisation in the middle of a group, in whatever run: the rest of that group has no effect on the parser, and from the next one on the text is complete if and only if it arrives, and then is the one reported |
| `ChunkQueue.PruneMoves` | `src/stream/server.c:251-269` | pruning stops at the first chunk that a current client is to read next, or at the end; it passes no such chunk |
| `ChunkQueue.PruneKeeps` | `src/stream/server.c:251-269` | pruning frees no chunk that a current client has still to read, and leaves the head to some current client |
| `ChunkQueue.RoomIsMadeByDroppingLaggards` | `src/stream/server.c:271-297` | room is made if and only if the queue is not full or a current client is at its oldest chunk; dropped are exactly the current clients there, a whole 256 chunks behind; one round is enough |
| `ChunkQueue.RoomIsAlwaysMade` | `src/stream/server.c:271-297` | room is always made when no client is pending after a packaging failure |
| `ChunkQueue.RoomCanBeRefused` | `src/stream/server.c:424-430` | a run in which it is not: a reachable state in which a client may produce and is refused |
| `ChunkQueue.DriverIsNotDropped` | `src/stream/server.c:438-440` | the client that drives production is not dropped to make room |
| `ChunkQueue.StepKeepsInv` | `src/stream/server.c:251-631` | every step keeps the invariant: at most 256 chunks, every client sound, active exactly while there are current clients, the head held |
| `ChunkQueue.EveryRunKeepsInv` | `src/stream/server.c:251-631` | so it holds in every run, whatever the interleaving |
| `ChunkQueue.EveryListenerIsServedWithoutGaps` | `src/stream/server.c:410-436` | in every run each listener has received exactly the consecutive chunks of its own session from where it joined to where it stands, and a current one stands at a chunk not freed or at the end |
| `ChunkQueue.StepExtendsHistory` | `src/stream/server.c:360-390` | no step changes what a session has produced; a session is only added to |
| `ChunkQueue.HistoryAfter` | `src/stream/server.c:360-390` | what each step adds to what has been produced: a production that finds room (queue not full, or its oldest chunk held) appends exactly the chunk delivered to the newest session, a replacement begins an empty session, and nothing else changes anything |
| `ChunkQueue.NewListenerStandsAtTheEnd` | `src/stream/server.c:564-627` | a new listener has nothing yet, belongs to the newest session, and stands behind everything that session has produced |
| `ChunkServer.Server.constructor` | `src/stream/server.c:664-667` | the empty server |
| `ChunkServer.Server.ClearChunks` | `src/stream/server.c:224-233` | every chunk of the session ends freed, each while live; head, tail and count say so |
| `ChunkServer.Server.ClientCount` | `src/stream/server.c:235-245` | the number of clients of a session |
| `ChunkServer.Server.HasCurrentClients` | `src/stream/server.c:247-249` | whether a current client is in the list |
| `ChunkServer.Server.CountIsPositive` | `src/stream/server.c:235-249` | the count is positive if and only if there is one |
| `ChunkServer.Server.PruneChunks` | `src/stream/server.c:251-269` | the memory becomes that of the pruned queue, in which exactly the chunks before the head are freed |
| `ChunkServer.Server.MakeChunkRoom` | `src/stream/server.c:271-297` | the loop terminates; the memory becomes that of the queue with room made, and the result says whether it was |
| `ChunkServer.Server.ProduceChunk` | `src/stream/server.c:360-390` | a newly allocated chunk is linked at the end and every waiting current client is pointed at it, if room was made and the source delivered |
| `ChunkServer.Server.ContentReader` | `src/stream/server.c:410-451` | one turn of the reader is the protocol step it should be (read, failed read, produce, failed produce or nothing), keeps memory and invariant in agreement, follows only live chunks, and hands out the chunk the listener stands at |
| `ChunkServer.Server.ContentFree` | `src/stream/server.c:454-484` | leaving takes exactly that client out of the list, ends the session with its last client, and prunes otherwise |
| `ChunkServer.Server.HandleRequest` | `src/stream/server.c:564-627` | a matching request joins; any other clears the queue, leaving no chunk of the session it replaces unfreed, and starts a new session with one client; if tuning fails nothing changes |
| `ChunkServerRuns.Admit` | `src/stream/server.c:564-627` | a request on the running server: protocol state, connections and steps become those that the request makes of them (joining, replacing the session, or nothing), at most one connection more |
| `ChunkServerRuns.TakeTurn` | `src/stream/server.c:410-451` | a turn of any listener: they become what that turn makes of them (the step it is, if it is one, the chunk handed out, and whether it was the last turn) |
| `ChunkServerRuns.Depart` | `src/stream/server.c:454-484` | a departure: they become what it makes of them, and what that listener was handed is on record |
| `ChunkServerRuns.Run` | `src/stream/server.c:251-631` | one server in memory, over any script of requests, turns and departures: memory, connections, steps and records end exactly as the script says when played on values; the data handed to every listener are the consecutive chunks of its session from where it joined, and so were those of every listener that has gone |
| `ChunkServerSources.SessionsAreSources` | `src/stream/server.c:360-390` | over every script the chunks of each session are, in order, exactly what the source delivered in the turns that produced in it |
| `ChunkServerSources.ListenersJoinWhereTheyCome` | `src/stream/server.c:564-627` | over every script each listener present came with some request, joined the session in force after it, and joined behind as many chunks as that session had produced by then |
| `ChunkServerSources.HeardSinceTheRequest` | `src/stream/server.c:360-451` | so chunk j that a listener has been handed is the one the source delivered in some later turn than its request, the j-th of its session since then: nothing from before, nothing left out, nothing altered |
| `Crc32.ComputeCrc` | `src/stream/mux_mpegts.c:11-25` | the two loops compute the CRC |
| `Crc32.GeneratorIsNumber` | `src/stream/mux_mpegts.c:20` | the generator is the number 0x04c11db7 |
| `Crc32.GeneratorTerms` | `src/stream/mux_mpegts.c:20` | its terms are those of the polynomial of ISO/IEC 13818-1, Annex A |
| `Crc32.CrcIsSerial` | `src/stream/mux_mpegts.c:11-25` | taking in bytes and shifting eight times is the serial register of Annex A, fed bit by bit |
| `Crc32.CrcResidueIsZero` | `src/stream/mux_mpegts.c:11-25` | over any bytes followed by their own CRC, big-endian, the CRC is zero (Annex A of ISO/IEC 13818-1) |
| `Crc32.DecoderEndsAtZero` | `src/stream/mux_mpegts.c:59-63` | the serial register, set to ones and fed any data and its CRC, ends at zero |
| `MpegTs.PtsRoundTrip` | `src/stream/mux_mpegts.c:113-121` | the five bytes decode to the time stamp modulo 2^33, with all marker bits in place |
| `MpegTs.PcrRoundTrip` | `src/stream/mux_mpegts.c:123-133` | the six bytes decode to the same value with extension 0, as long as the product fits 64 bits |
| `MpegTs.PcrAgreesIff` | `src/stream/mux_mpegts.c:123-133` | for every 64-bit time stamp: they agree if and only if the number of wraps of the product is a multiple of 75 |
| `MpegTs.PcrCanDisagree` | `src/stream/mux_mpegts.c:123-133` | the first time stamp with which they do not: its extension is 284, and every smaller one agrees |
| `MpegTs.TablePacketParses` | `src/stream/mux_mpegts.c:37-111` | a table packet parses: header, pointer, and a section whose CRC is zero |
| `MpegTs.TablesParse` | `src/stream/mux_mpegts.c:203-220` | the two tables are two whole packets with their counters and checked sections |
| `MpegTs.TablesLeadToAudio` | `src/stream/mux_mpegts.c:37-111` | a client of any stream that begins with the tables gets from the association table to the map, both checked, and from there to the LPCM stream and its clock, and these are the packets the audio is sent in |
| `MpegTsAudio.PesRoundTrip` | `src/stream/mux_mpegts.c:135-186` | a PES packet decodes to its time stamp, its LPCM header and exactly its samples |
| `MpegTsAudio.WordsCarryFrames` | `src/stream/mux_mpegts.c:166-181` | the words of a call: for stereo the two samples of each frame in order, for mono its sample and a zero, and no more |
| `MpegTsAudio.HeaderIsLpcm` | `src/stream/mux_mpegts.c:197-201` | the LPCM header read by its fields: one channel or a stereo pair as configured, 48 kHz, 16 bits |
| `MpegTsAudio.AudioPacketParses` | `src/stream/mux_mpegts.c:222-306` | each packet is 188 bytes from 0x47 on; without its adaptation field, whatever its stuffing, its payload is the next stretch of the PES packet, and the first one carries the clock |
| `MpegTsAudio.AudioPacketsParse` | `src/stream/mux_mpegts.c:267-306` | for a PES packet of any length the payloads concatenate to it and the counters run on modulo 16 |
| `MpegTsAudio.MaxAudioBytesSuffices` | `src/stream/mux_mpegts.h:10-21` | the documented capacity suffices for every PES packet that can be built |
| `MpegTsAudio.AudioIsRecovered` | `src/stream/mux_mpegts.c:222-306` | what a successful call writes demultiplexes to tables with the right counters and to the PES packet, which decodes to its time stamp and frame by frame to exactly the samples given (mono with a zero word each) |
| `MpegTsMuxer.Muxer.constructor` | `src/stream/mux_mpegts.c:197-201` | the initial state |
| `MpegTsMuxer.Muxer.WriteTablePacket` | `src/stream/mux_mpegts.c:37-111` | the packet is written in place, nothing before it changes |
| `MpegTsMuxer.Muxer.BuildPrelude` | `src/stream/mux_mpegts.c:203-220` | the tables, and the count of the interleaver set to the bytes due after them; refused when they do not fit |
| `MpegTsMuxer.Muxer.BuildPes` | `src/stream/mux_mpegts.c:135-186` | the PES packet in the buffer, or refused exactly when it would not fit 4608 bytes |
| `MpegTsMuxer.Muxer.WriteAudioPacket` | `src/stream/mux_mpegts.c:237-306` | one packet, written over filler, is the packet that the specification gives, and the payload taken is returned |
| `MpegTsMuxer.Muxer.WritePackets` | `src/stream/mux_mpegts.c:237-306` | all of them, or a refusal exactly when they do not fit |
| `MpegTsMuxer.Muxer.WriteAudio` | `src/stream/mux_mpegts.c:222-306` | succeeds exactly when PES packet and packets fit, and then writes exactly the bytes of the specification and advances time and counters |
| `MpegTsMuxer.AdvanceIsOnTime` | `src/stream/mux_mpegts.c:188-195` | if 48000 times the time stamp plus the remainder is 90000 times the frames so far, it is after any chunk size (modulo the wrap of the 64-bit time stamp), with the remainder under 48000 |
| `MpegTsMuxer.RunsAreSound` | `src/stream/mux_mpegts.c:203-306` | in every run of successful calls the stream is whole packets, the k-th packet of each stream carries k modulo 16, prelude included, the audio payloads are the PES packets in order, and time never drifts |
| `MpegTsClock.CallShowsTime` | `src/stream/mux_mpegts.c:222-306` | the packets of one call show one time stamp, and in the same packet the clock with that value and extension 0 while the product fits 64 bits |
| `MpegTsClock.RunsShowTheTime` | `src/stream/mux_mpegts.c:188-306` | over every run the time stamp of each chunk is the time of the frames sent before it, 90000 ticks for 48000 frames rounded down, modulo 2^33, whatever the chunk sizes; and until the product leaves 64 bits every clock agrees with it |
| `Convolution.FoldedIsConvolution` | `src/dsp/fir.c:136-151` | adding the samples that share a tap first, and the middle one for an odd number of taps, gives the convolution |
| `Convolution.ImpulseResponse` | `src/dsp/fir.c:136-151` | the response to a single one is the taps, forwards and backwards, and then nothing |
| `Convolution.ConvolutionIsLinear` | `src/dsp/fir.c:136-151` | and the convolution is linear, so it is determined by that |
| `Convolution.FilteredInBlocks` | `src/dsp/fir.c:35-59` | filtering does not depend on how the input is cut into blocks |
| `Convolution.DecimatedInBlocks` | `src/dsp/fir.c:71-121` | nor does decimating |
| `Convolution.DecimatedIsEveryFactorth` | `src/dsp/fir.c:71-121` | decimating gives exactly every factor-th filtered sample |
| `Fir.StoreKeepsMirrored` | `src/dsp/fir.c:45-54` | storing a sample in both halves keeps the two equal and the window, oldest first, the newest samples |
| `Fir.Filter.Store` | `src/dsp/fir.c:45-51` | the object does so and remembers the sample |
| `Fir.Filter.ComputeCurrent` | `src/dsp/fir.c:136-151` | the sum over the window is the convolution of everything received so far |
| `Fir.Filter.ExecuteBlock` | `src/dsp/fir.c:35-59` | every output of a block is the convolution at its sample |
| `Fir.Decimator.ProcessBlock` | `src/dsp/fir.c:71-121` | exactly the outputs due, up to the limit given, with the phase carried to the next block; an unconfigured decimator emits nothing |
| `Fir.OverlapIsNewestOfCircle` | `src/dsp/fir.c:165-238` | any number of newest samples saved apart are the newest of the circle |
| `FirSpecialized.UnrolledIsFolded` | `src/dsp/fir.c:182-226` | the unrolled sum of 45 pairs is the folded sum |
| `FirSpecialized.ProcessBlock` | `src/dsp/fir.c:153-241` | for any block and limit, with every index in range: the outputs of the whole groups of five, and the newest 85 samples saved |
| `FirSpecialized.FreshIsOverlapping` | `src/dsp/fir.c:63-69` | a configured decimator starts in the state the fast form needs |
| `FirSpecialized.SpecializedRefinesGeneric` | `src/dsp/fir.c:71-241` | over any run of blocks of whole groups, with any limits, both forms emit the same |
| `FirSpecialized.SpecializedEqualsGeneric` | `src/dsp/fir.c:123-134` | so the choice between them cannot be observed |
| `FirAgreement.RunGeneric` | `src/dsp/fir.c:71-121` | an object of the generic form, over any blocks, writes exactly that run |
| `FirAgreement.RunSpecialized` | `src/dsp/fir.c:153-241` | and one of the fast form its own |
| `FirAgreement.RunBoth` | `src/dsp/fir.c:71-241` | two objects in related states, over any run of whole groups with any limits, write the same and stay related |
| `FirAgreement.RunFresh` | `src/dsp/fir.c:63-134` | so two decimators just configured with the same ninety coefficients write the same, which is the run of the generic form from silence |
| `FirAgreement.RelatedHistories` | `src/dsp/fir.c:165-238` | in related states the 85 samples saved are the newest 85 of the circle |
| `FirAgreement.FormsAgreeExactly` | `src/dsp/fir.c:71-241` | for given block lengths and a filter that hears any of the five newest samples: both forms write the same for every signal if and only if what the first block of not whole groups leaves over, with all that follows, makes no group |
| `FirAgreement.LengthsDecideForAllTaps` | `src/dsp/fir.c:71-241` | over all filters at once the block lengths alone decide, in the same way |
| `FirAgreement.ThreeThenTwoGeneric` | `src/dsp/fir.c:92-118` | after three samples and two more the generic form writes one output |
| `FirAgreement.ThreeThenTwoSpecialized` | `src/dsp/fir.c:167-240` | the fast form writes none |
| `IqDecimator.UnrolledIsConvolution` | `src/input/rtl/rtl_iq_decimator.c:84-108` | the unrolled sum of sixteen taps is the convolution |
| `IqDecimator.LevelsAreCentred` | `src/input/rtl/rtl_iq_decimator.c:72-87` | bytes stand for levels symmetric about zero: complement and sign go together, one step is two, and 255 is 255 |
| `IqDecimator.ChannelsTakeTurns` | `src/input/rtl/rtl_iq_decimator.c:72-87` | in-phase and quadrature bytes take turns, in-phase first, and half the level is the distance from 127.5 |
| `IqDecimator.IqDecimator.ReadBlockGeneric` | `src/input/rtl/rtl_iq_decimator.c:129-181` | both channels of the block decimated by eight, from the mirrored history; a failed read changes nothing |
| `IqDecimator.IqDecimator.ReadBlockSpecialized` | `src/input/rtl/rtl_iq_decimator.c:43-126` | the same outputs from the eight samples saved, and the newest eight saved |
| `IqDecimator.OutputsAreDetermined` | `src/input/rtl/rtl_iq_decimator.c:33-41` | the outputs of the two channels fix everything that is written |
| `IqDecimator.ReadBoth` | `src/input/rtl/rtl_iq_decimator.c:33-181` | two objects, one of each form, with the same taps and the same past: over any run of blocks, failed reads among them, each returns and writes exactly the results of the plain convolution of that past and the blocks, and they stay related |
| `IqDecimator.ReadFresh` | `src/input/rtl/rtl_iq_decimator.c:24-181` | so two objects just made with the same coefficients return and write the results of the convolution from silence |
| `IqDecimator.ReadComplement` | `src/input/rtl/rtl_iq_decimator.c:24-181` | for the objects, over any run of blocks: complementing every byte negates every output from silence |
| `IqDecimator.RelatedHistories` | `src/input/rtl/rtl_iq_decimator.c:43-181` | in related states the eight samples saved are the newest eight of the circles |
| `Icy.CopyText` | `src/stream/icy.c:22-53` | the title copied into a buffer of any capacity, terminated; nothing at all for capacity 0 |
| `Icy.CopiedTextIsTitle` | `src/stream/icy.c:22-53` | what is copied is printable, without quotes or semicolons, without a space at either end, and fits |
| `Icy.CopiedUnchangedIffTitle` | `src/stream/icy.c:22-53` | a text is copied unchanged if and only if it is such a title and fits |
| `Icy.CopiedTextIsCleaned` | `src/stream/icy.c:22-53` | any text is copied as follows: unprintable bytes vanish, quotes and semicolons are spaces, the spaces at both ends go, and what does not fit is cut |
| `Icy.QuotesBecomeSpaces` | `src/stream/icy.c:34-40` | so a printable text that begins and ends with a letter keeps its length, with a space for each quote and semicolon and all else as it is |
| `Icy.Metadata.BuildBlock` | `src/stream/icy.c:55-83` | the block announcing the title, or a refusal exactly from 225 bytes on |
| `Icy.ClientReadsTitle` | `src/stream/icy.c:55-83` | a client reads exactly that title back from the block |
| `Icy.Metadata.Update` | `src/stream/icy.c:85-104` | the block announces the complete radiotext, or else the last title |
| `Icy.RadiotextIsAlwaysAnnounced` | `src/stream/icy.c:85-104` | updates from radiotexts never fail |
| `Icy.CompleteRadiotextIsRead` | `src/stream/icy.c:85-104` | a complete radiotext that can be a title reaches the client unchanged |
| `Icy.LongTitleIsRefused` | `src/stream/icy.c:68-72` | a title with which an update fails, and the next one as well |
| `Icy.Metadata.Wrap` | `src/stream/icy.c:106-145` | the body with the block at every boundary, or a refusal exactly when that does not fit; the count carries on |
| `Icy.DemuxInterleaved` | `src/stream/icy.c:106-145` | a client takes one wrapped body apart into the body and the blocks |
| `Icy.ClientGetsItsBodiesBack` | `src/stream/icy.c:12-145` | over a whole stream, with metadata changing between calls: prelude and bodies come back, and at each boundary the block current there |
| `Icy.WrapInPieces` | `src/stream/icy.c:106-145` | with the same metadata, wrapping two parts one after the other is wrapping them together |
| `ClientStream.RunsDecode` | `src/stream/mux_mpegts.c:135-306` | over every run the PES packets sent, taken apart by their own lengths, decode chunk by chunk and frame by frame to the samples given, with the channels in the header and the time of the frames before |
| `ClientStream.ListenerHearsEverySample` | `src/stream/server.c:299-358` | a whole connection with metadata changing between chunks: the listener takes out every metadata block as it was due, is led by the tables to the audio, and hears every sample of every chunk in its place, with its time |
| `ClientStream.PackChunk` | `src/stream/server.c:309-358` | every chunk that a PES packet can hold is packed, with the metadata in force at each boundary, and fits the connection's buffer |
| `ClientStream.Send` | `src/stream/server.c:299-358` | the objects of a connection, from the tables over any chunks and metadata, send exactly the stream specified, and it is heard sample by sample |
| `StreamTitle.RefreshMetadata` | `src/stream/session.c:86-100` | the parser object hands its text and whether it is complete to the interleaver, whose block and stored title become what the two determine; nothing about the parser changes |
| `StreamTitle.AnnounceTextOnAir` | `src/stream/session.c:86-100` | from bits to title: a text on the air that gets through is what the metadata block announces, and a text of printable characters is reported character for character and announced unchanged if it can be a title, cleaned as copying does otherwise |
| `StreamTitle.ReadAtNextBoundary` | `src/stream/icy.c:106-145` | and as long as that block is in force, it is what a listener reads at the next boundary, wherever that falls |
| `Broadcast.RecordIsHeard` | `src/stream/server.c:299-358` | a listener, still there or gone, that was handed what is on its record is sent a stream in which the frames of those consecutive chunks of its session, and nothing else, are heard sample by sample, each chunk with its time |
| `Broadcast.RunAndSend` | `src/stream/server.c:299-631` | one server over any script, and for each listener the objects of its connection with any metadata: memory ends as the script says, and what each listener hears is, sample by sample, what the source delivered to its session after its request |
| `SampleRing.Ring.PushBytes` | `src/input/rtl/rtl_source.c:18-55` | the contents become the newest bytes, up to the capacity, of the contents followed by the input |
| `SampleRing.Ring.Read` | `src/input/rtl/rtl_source.c:300-330` | returns the oldest bytes in order, waiting as often as needed, and fails exactly when the source ends first |
| `SampleRing.Ring.Reset` | `src/input/rtl/rtl_source.c:247-252` | tuning empties the ring |
| `SampleRing.PushedInPieces` | `src/input/rtl/rtl_source.c:18-55` | how input is cut into pushes makes no difference |
| `SampleRing.OnlyTheOldestAreDropped` | `src/input/rtl/rtl_source.c:18-55` | a push drops items only from the old end, and only if the queue ends up full |
| `SampleRing.ReadIsInOrder` | `src/input/rtl/rtl_source.c:300-330` | as long as everything fits, what a read delivers and what it leaves are what was there followed by what was pushed in the waits it needed, in order; it is complete unless nothing more comes |
| `SampleRing.AlignmentSurvives` | `src/input/rtl/rtl_source.c:18-55` | with even capacity, pushes and reads, and resets in between, items that show their channel stay in alternating order |
| `SampleRing.EveryItemKeepsItsChannel` | `src/input/rtl/rtl_source.c:18-55` | for any bytes: follow each one with the channel it came in on, and whatever is held or delivered after any number of overflows begins with an I byte and alternates; following the channels changes nothing about the bytes |
| `SampleRing.RunRing` | `src/input/rtl/rtl_source.c:18-330` | the ring itself, over any run of pushes, reads and resets, holds and delivers what the queue does |

## Left out

- Programme-service text: its trimming (parser.c:26-33, 107) rewrites stored characters, so no merge by quality holds
  of it; the station's other fields (PTY, TP, TA, group name) and the previews are copies and are left out with it.
- Floating-point rounding and NaN: filters, samples, confidences and qualities are real numbers.
- The other signal processing (liquid-dsp, demodulation, de-emphasis, tap design, PCM conversion) and the bit slicer
  in front of the block stream.
- HTTP and command-line parsing, sockets, threads, signals, file input, logging, the WAV header and the cover image.
- Atomicity: a region under the server's lock or the ring's lock is taken to be one step.
- RdsText.Parser.UpdateRadiotextChars: tests the position before the seen bit is read, where the source shifts first
  (parser.c:123-128); the difference would need a position past 63, which no group gives. The seen mask is an array of
  64 Booleans, and the last reported text is kept as its characters.
- RdsSyncRuns.SyncIsAcquiredExactlyByThreePulses: is stated for runs under 2^32 bits (about 42 days of signal), after
  which positions repeat.
- RdsBlockStream.BlockStream.TakeBlock: keeps the counts of blocks seen and corrected and the soft-reliability mark as
  the source does, but nothing further is proved of these three, which nothing outside the decoder reads.
- RdsSoft.CorrectSoftErrors: leaves out the search for four flips, which RDS_SOFT_MAX_FLIPS switches off.
- RdsSoft.SelectWeakest: leaves out that the source first fills its six slots with a confidence of 1.0e9 and index 0;
  these are never read.
- ChunkServer.Server.HandleRequest: numbers sessions without bound (the source's number has 64 bits), takes allocation
  as always succeeding, and has no failure of the first metadata update, which cannot happen with an empty title.
- ChunkServer.Server.ContentReader: takes packaging as one outcome and stands for the locked part of one turn; the
  prelude is sent before it and touches no shared state. A listener whose packaging failed is not read from again.
- ChunkServer.Server.ContentFree: takes the listener out of the list; its own memory is not followed further.
- MpegTsMuxer.Muxer.WriteAudio: says nothing about the state after a refusal, after which the client's stream ends.
- Icy.Metadata.Wrap: is for a block built by a successful update or none at all; after a failed update the source
  keeps a length no buffer has. After a refusal the count is unspecified, and the client's stream ends.
- Icy.ClientGetsItsBodiesBack: is for preludes shorter than the interval of 16384 bytes (they have 376 or 44).
- Fir.Filter.ExecuteBlock: is for at least one tap; with none the source would never wrap its index.
- ClientStream.Send: is for the transport stream with metadata; without it the same bodies go out as they are. A WAV
  stream is its samples behind a header.
- RdsReceiver.Listen: leaves the two synchronisation events alone, which the demodulator consumes between bits for its
  own scoring (rds_demod.c:147-169); they affect nothing else in the block stream.
- RdsReceiver.TextAfterAcquisition: is for an acquisition at the second, third or fourth block. Acquired at its first
  block, a group is whole.
- Broadcast.RunAndSend: sends each listener its data after the run, not turn by turn; what a connection sends depends
  only on its own chunks and the metadata in force at each, which are parameters.
- SampleRing.Ring.Read: is the branch for a device; the branch for a file only repeats the file.
