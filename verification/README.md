# Verification model of the OpenDAB receive chain

OpenDAB receives Digital Audio Broadcasting, transmission mode I, as laid down in ETSI EN 300 401.
This project models its receive chain from the packets of a recording, each with the 384 bytes of an
OFDM symbol, up to the ensemble database (fast information channel, FIC) and up to the bytes of an
audio frame (main service channel, MSC), and proves what the chain promises. The sending side of the same stages, which the
repository also holds for most of them (`encode`, `puncture`, the interleavers, the symbol mapper),
is modelled too, so that the main results are round trips over the whole chain.

How the files hang together, bottom up:

* `Bits`, `ByteBits`: C's unsigned arithmetic digit by digit; buffers of bits and of bytes.
* `ConvCode`, `Trellis`, `Viterbi`, `Encoder`: the mother code, the dynamic program as a specification,
  and the decoder with its butterflies, packed decisions and trace back. `Decoding` says what its output
  means: maximum likelihood, nearest code word, exact recovery from erasures. `FreeDistance` and
  `ErrorCorrection` prove how many errors are corrected, by a potential on the states of the encoder, and
  `Mixing` that every sixteenth bit may be anything at all.
* `Puncturing`, `Tables`, `Depuncture`, `FicPuncture`: the puncturing vectors in closed form, the protection
  profiles, and the depuncturers of MSC and FIC as one operation with different masks. `Standard` lists the
  profiles a second time, as EN 300 401 does, for the sender to use.
* `Lcg`, `Interleaver`, `Symbols`: the carrier table, frequency interleaving, one symbol there and back.
* `CrcRegister`, `CrcTable`, `CrcCcitt`, `CrcAudio`, `CrcFire`, `CrcChecks`: division by a generator polynomial, the
  three tables, the table-driven checks and the bit-serial one.
* `Scrambler`: the energy dispersal sequence.
* `Fic`, `FicSender`, `FicLoopback`: `fic_decode`, the round trip of the whole FIC as a statement about it, and the
  sending routines connected to it.
* `Ensemble`, `Figs`, `FigWalk`, `FicProcess`, `FicAssemble`, `FicDatabase`: the linked list of services, the FIG
  formats printed and parsed, the walk over a buffer that the walk itself changes, `process_fic` and
  `fic_assemble`, and the round trip from printed FIGs to the database. `FicMeaning` says what printed groups mean,
  apart from the parser and from what it stores, and that the database says the same; `FicStream` carries this
  down to the packets of a recording.
* `SymbolRange`, `SymbolSelect`: where a sub-channel lies, and the selection mask sent to the receiver.
* `MscBuffer`, `MscDecode`, `MscAssemble`, `MscRun`: the circular buffer, the decoding of a logical frame, the
  state machine over packets, and whole runs of it. `MscSender` defines the frames of the standard
  independently of the receiver, and `MscEndToEnd` connects the two over whole runs. `MscStream` starts from the
  multiplex of the standard and the packets of a recording. `MixingLimit` shows where this stops.

State that the C code keeps in static variables is a class with those fields (`CircularBuffer`,
`Assembler`, `FicReceiver`, `EnsInfo`); its loops are loops over arrays, each method proved against a
function of its inputs or of the old state, and the properties are proved about that function.

## What the code does not do as its documentation says

* **Time deinterleaving mixes two frames.** The comment at src/wfmsc.c:41 calls `head` the index of the first
  logical frame, but `wcbuf` advances it together with `lframe`, so it is the newest slot. Every bit whose
  index is a multiple of 16 is therefore taken from logical frame R and all others from frame R - 16
  (`MscBuffer.DeinterleavedMixes`). What is read is frame R - 16 if and only if both frames agree on those bits
  (`MscBuffer.FrameRestoredIff`); a run where nothing that was sent comes out is `MscBuffer.NoFrameRestored`; starting
  from the slot after `head` would be right (`MscBuffer.OldestSlotRestores`). With the stronger protection profiles
  the Viterbi decoder makes up for all of it: whatever frame R says, the audio frames come out complete, in
  order and undamaged (`Mixing.MixedDecoded`, `MscEndToEnd.EndToEnd`, `MscStream.PlayRecording`). This holds for the levels 1-A and 1-B, 2-A
  above 8 kbit/s, and the first two levels of unequal protection (`MscSender.StrongLevels`). It does not hold for
  every profile: at 4-B and 32 kbit/s `MixingLimit.MixingDefeats` names two frames of which the earlier one is lost.
* **EEP 2-A at 8 kbit/s** (src/wftables.c:115-117) keeps 336 of its 512 bits with the vector indices written
  there. The conservation theorem holds for a profile if and only if it is not this one
  (`Depuncture.EepConservation`), and so does the agreement of the mask with that of a sender
  (`MscSender.SentMaskIff`); vectors that fit are in `Depuncture.Eep2aVectorsThatFit`. The consequence: of the 24 bytes
  of a frame only the first 16 have any influence on what is decoded, so that the last third is lost even on
  a channel without errors (`MscSender.LastThirdLost`).
* **A label for a data service** (FIG 1/5) is ended by `fig_1_5` with a zero written into the buffer that is
  being parsed, 22 bytes after the header of the group, wherever the group ends (src/wffigproc.c:528-538). What
  is read afterwards changes if and only if the group is shorter than 22 bytes and that byte is not zero
  already (`FigWalk.StoreSeenIff`). A block in which the description of five sub-channels turns into six, one of them
  with the wrong protection and one that nobody sent, is `FigWalk.ShortLabelTears`; where every such label has its
  22 bytes the walk sees exactly what was sent (`FigWalk.WalkUndisturbed`, `FigWalk.WalkOfGroups`).
* **A sub-channel that ends with the last capacity unit** (start address + size = 864) asks for a symbol 77, which
  does not exist, so a frame leaves one symbol too few: a complete frame yields four complete CIFs if and only if
  the sum is below 864 (`MscRun.CompleteFrameIff`).
* **Selecting a service** by the number printed beside it works for every number if and only if every service but
  perhaps the last has a primary component (`Ensemble.SelectionIff`); two calls that lead to a list where it fails are
  in `Ensemble.WrongSelection`.
* The comment at src/wfic/viterbi.c:483 says 1 -> 127 and 0 -> 129; the code maps 1 -> 129 and 0 -> 127.

## Model

| member | source | states |
|---|---|---|
| ConvCode.Partab | src/wfic/viterbi.c:66-99 | the 256 entries are the parities of their indices |
| ConvCode.Parity | src/wfic/viterbi.c:314-320 | folding twice and looking up gives the parity of all 32 digits, of negative arguments too, whose shifts bring in ones |
| ConvCode.OutFlipNewest | src/wfic/viterbi.c:37 | every generator polynomial taps the newest bit of the register |
| ConvCode.OutFlipOldest | src/wfic/viterbi.c:37 | every generator polynomial taps the oldest bit of the register |
| Viterbi.SymButterfly | src/wfic/viterbi.c:374-382 | Syms[i+1] = 15 - Syms[i] and Syms[i+64] = Syms[i+1]: two table entries serve four transitions |
| Viterbi.SymsTable | src/wfic/viterbi.c:374-382 | the loop over polynomials computes the four code symbols of every register |
| Viterbi.BranchMetrics | src/wfic/viterbi.c:395-400 | the sixteen branch metrics of a step |
| Viterbi.Butterfly | src/wfic/viterbi.c:405-422 | the two-at-a-time update with `m0 -= b1; m1 += b1` gives the metrics and decisions of the per-state rule |
| Viterbi.PackPair | src/wfic/viterbi.c:412-427 | decisions go to the right bit of the right word, for 64-bit and for 32-bit words |
| Viterbi.AddCompareSelect | src/wfic/viterbi.c:403-431 | after a step every metric is the dynamic program's value and every decision is stored |
| Viterbi.RunTrellis | src/wfic/viterbi.c:387-437 | after nbits + 6 steps nmetric[s] is the best score of state s, and all decisions are in `paths`, in range |
| Viterbi.ChainBack | src/wfic/viterbi.c:439-454 | following the stored decisions delivers the bits of the surviving path |
| Viterbi.KViterbi | src/wfic/viterbi.c:353-456 | the decoded bits and the final metric, as functions of the received symbols |
| Trellis.BestIsUpperBound | src/wfic/viterbi.c:403-431 | no path of length t into a state, from any start state, scores more than its metric |
| Trellis.SurvivorAttains | src/wfic/viterbi.c:403-454 | the surviving path ends in its state and attains the metric |
| Trellis.DecisionTellsBit | src/wfic/viterbi.c:445-454 | the decision taken six steps later is the data bit, and leads to the predecessor |
| Trellis.DecodedIsOptimal | src/wfic/viterbi.c:387-454 | maximum likelihood: the decoded bits attain the maximum over all messages and all start states |
| Trellis.DecodedLocal | src/wfic/viterbi.c:393-401 | nothing after the last of the 4 (nbits + 6) symbols influences the result |
| Decoding.ScoreIsDistance | src/wfic/viterbi.c:395-400 | the score of a path is the ideal score less a penalty per mismatch on the positions not erased |
| Decoding.StartsInZero | src/wfic/viterbi.c:388-390 | -999999 behaves as minus infinity while (nbits + 6) * 4 * (g - w) < 999999 |
| Decoding.NearestCodeword | src/wfic/viterbi.c:353-456 | for every received word, the output is the message of a code word at minimum Hamming distance |
| Decoding.NoiselessRoundTrip | src/wfic/viterbi.c:324-456 | for every message, of any length, and every mask that keeps each first symbol, decoding the punctured code word gives the message back |
| FreeDistance.SymbolsDiffer | src/wfic/viterbi.c:37 | the code is linear: whether two symbols differ depends on the differences of the last seven bits alone |
| FreeDistance.PotentialStep | src/wfic/viterbi.c:37 | on none of the 128 transitions does the potential grow faster than the weight of the symbols |
| FreeDistance.MessagesApart | src/wfic/viterbi.c:37 | any two messages of equal length differ in at least 2, 10, 14 or 19 of the symbols sent, if the first 1, 2, 3 or all 4 of every group are |
| FreeDistance.ApartAttained | src/wfic/viterbi.c:37 | and for two, three and four symbols a group no more can be promised |
| ErrorCorrection.Apart | src/wfic/viterbi.c:37 | through any received word the distances of two code words add up to at least that free distance |
| ErrorCorrection.ErrorsCorrected | src/wfic/viterbi.c:353-456 | fewer errors than half the free distance, anywhere, are corrected, for messages of any length |
| ErrorCorrection.TransmissionCorrected | src/wfic/viterbi.c:353-456 | the same counted in transmitted bits, through depuncturing |
| Mixing.MarginStep | src/wfic/viterbi.c:37 | if every sixteenth transmitted bit counts against the right path, a second potential still bounds what a path is worth, on every transition, for two to four symbols a group and every distance to the next such bit |
| Mixing.MessageLeads | src/wfic/viterbi.c:353-456 | so every other message is farther from the received word, by three at least |
| Mixing.MixedDecoded | src/wfic/viterbi.c:353-456 | the message comes back whatever every sixteenth transmitted bit says, and even if one of the others is wrong |
| Mixing.MixedCorrected | src/wfic/viterbi.c:353-456 | the same in transmitted bits, through depuncturing |
| Encoder.Encode | src/wfic/viterbi.c:324-349 | the symbols are the code of the data bits, most significant first, followed by the six bits of the end state |
| Encoder.DecodeHard | src/wfic/viterbi.c:470-491 | hard bits and erasure marks are mapped to soft symbols and decoded |
| ByteBits.ByteToBit | src/wfic/wfic.c:37-64 | the bits of the bytes in the chosen order, and nothing else written |
| ByteBits.BitToByte | src/wfic/wfic.c:68-95 | eight cells to a byte in the chosen order, for any length, and nothing else written |
| ByteBits.PackUndoesBits | src/wfic/wfic.c:37-95 | `bit_to_byte` undoes `byte_to_bit`, in both orders |
| ByteBits.BitsUndoPack | src/wfic/wfic.c:37-95 | `byte_to_bit` undoes `bit_to_byte` on bits, in both orders |
| ByteBits.Bitswap16 | src/wfic/wfic.c:101-126 | cell i comes from the mirror cell of its group of sixteen, for any length |
| ByteBits.SwapTwice | src/wfic/wfic.c:101-126 | swapping twice is the identity |
| Puncturing.CountPeriods | src/wftables.c:123-148 | vector i keeps i + 9 of every 32 symbols |
| Puncturing.VectorIsMask | src/wftables.c:123-148 | the rows follow one rule: the first of every four, then group by group in bit-reversed order |
| Puncturing.Pvec | src/wftables.c:123-148 | the 24 rows as written are those vectors |
| Standard.TableIsStandard | src/wftables.c:33-98 | every row has the size, the block lengths, the vectors and the padding that section 11.3.1 lists for its bit rate and level |
| Standard.IndexAscends | src/wftables.c:33-98 | the rows stand in the order of the table index of section 6.2.1: by bit rate, and from level 5 to level 1 |
| Standard.TailOfMask | src/wfmdepunc.c:48-53 | of the last 24 symbols of every frame those are sent that 1100 1100 ... marks |
| Tables.UepRowFitsAt | src/wftables.c:33-98 | every row of the table fits its bit rate and its sub-channel size |
| Depuncture.FillBlocks | src/wfmdepunc.c:39-54 | the loops fill in the received symbols where the mask keeps them and erasures elsewhere |
| Depuncture.UepDepuncture | src/wfmdepunc.c:34-56 | the depunctured frame of a sub-channel with unequal protection |
| Depuncture.EepDepuncture | src/wfmdepunc.c:58-84 | the depunctured frame of a sub-channel with equal protection |
| Depuncture.UepConservation | src/wftables.c:33-98 | each row consumes 64 subchsz - padbits bits, yields 96 bitrate + 24 symbols, and never drops a first symbol |
| Depuncture.EepConservation | src/wftables.c:104-117 | every level, for every n, yields 96 bitrate + 24 symbols, and consumes 64 subchsz bits if and only if it is not 2-A at 8 kbit/s, which consumes 336 |
| Depuncture.Eep2aVectorsThatFit | src/wftables.c:115-117 | vectors 12 and 11 would consume the 512 bits |
| FicPuncture.Puncture | src/wfic/puncture.c:13-62 | the unrolled loops send the 2304 symbols of the mask, in order |
| FicPuncture.DepunctureFic | src/wfic/puncture.c:67-122 | the unrolled loops restore 3096 symbols, with the value 8 for erasures |
| FicPuncture.PunctureUndoesDepuncture | src/wfic/puncture.c:13-122 | `puncture` after `depuncture` is the identity |
| FicPuncture.FicMaskIsProfile | src/wfic/puncture.c:13-122 | the unrolled scheme is the generic one with l = (21, 3, 0, 0) and vectors 15 and 14 |
| FicSender.UnrolledIsGeneric | src/wfic/viterbi.c:481-485 | for every hard block, `depuncture` and the symbol mapping equal the generic loop |
| Lcg.OrbitInjective | src/wfic/interleaver.c:49-53 | the first 2^k values of x -> 13x + 511 modulo 2^k are distinct, for every k |
| Lcg.OrbitSurjective | src/wfic/interleaver.c:49-53 | each residue occurs among them |
| Lcg.OrbitPeriod | src/wfic/interleaver.c:49-53 | then the sequence starts over: the period is full |
| Interleaver.InitTable49 | src/wfic/interleaver.c:43-71 | the loops build the table of the selected generator values, in order |
| Interleaver.TableIsBijective | src/wfic/interleaver.c:43-71 | the table holds each of the 1536 carriers -768..768 other than 0 exactly once |
| Interleaver.CellsAscend | src/wfic/interleaver.c:85-91 | the cells run through the carriers from the lowest to the highest: a higher carrier has a higher cell |
| Interleaver.PermIsCell | src/wfic/interleaver.c:85-91 | the cell that the loops compute for a carrier is the number of carriers below it |
| Interleaver.FrequencyInterleaver | src/wfic/interleaver.c:75-95 | every pair goes to the cell whose number is the number of carriers of the table below its own |
| Interleaver.FrequencyDeinterleaver | src/wfic/interleaver.c:99-119 | every pair comes from that cell |
| Interleaver.MovedInjective | src/wfic/interleaver.c:75-119 | the deinterleaver undoes the interleaver, for every buffer |
| Interleaver.MovedFunctional | src/wfic/interleaver.c:75-119 | the interleaver undoes the deinterleaver, for every buffer |
| Interleaver.QpskSymbolMapper | src/wfic/interleaver.c:11-23 | the halves of the block become real and imaginary parts |
| Interleaver.QpskSymbolDemapper | src/wfic/interleaver.c:26-38 | and are separated again |
| Interleaver.PairedInjective | src/wfic/interleaver.c:11-38 | demapping undoes mapping |
| Symbols.Demodulate | src/wfmsc.c:112-124 | the four stages from 384 bytes to the 3072 bits of a symbol |
| Symbols.Modulate | src/wfic/interleaver.c:11-95 | the stages of the sender, down to the bytes |
| Symbols.SymbolRoundTrip | src/wfmsc.c:112-124 | the block that a symbol was made from comes back |
| Symbols.BitOfSymbol | src/wfmsc.c:112-124 | which digit of which of the 384 bytes every bit of the block is |
| CrcRegister.BurstDetected | src/wfcrc.c:68-78 | two messages of any length that differ only within 16 consecutive bits leave different remainders |
| CrcRegister.AcceptedIff | src/wfcrc.c:68-78 | the remainder is zero exactly when the last 16 bits are the remainder of the rest |
| CrcCcitt.Table | src/wfcrc.c:27-61 | all 256 entries are eight division steps of their index |
| CrcAudio.Table | src/wfcrc.c:90-124 | the same for the MPEG audio polynomial |
| CrcFire.Table | src/wffirecrc.c:28-62 | the same for the fire code polynomial |
| CrcChecks.TableStepIsDivision | src/wfcrc.c:68-78 | one table step is eight bit steps of the division, for every table and register |
| CrcChecks.CrcCheck | src/wfcrc.c:68-78 | accepts exactly the buffers whose division leaves zero |
| CrcChecks.Crc16Check | src/wfcrc.c:131-141 | accepts exactly the buffers whose division leaves zero |
| CrcChecks.FireCrcCheck | src/wffirecrc.c:73-84 | accepts exactly when bytes 2 to 10 followed by bytes 0 and 1 leave no remainder |
| CrcChecks.BurstNeverAccepted | src/wfcrc.c:68-141 | of two messages that differ in a burst of at most 16 bits, at most one is accepted |
| CrcChecks.Crc16 | src/wfic/wfic.c:11-30 | the bit-serial register over cells of any width, compared with the good value |
| CrcChecks.SerialGood | src/wfic/wfic.c:11-30 | the reflected register is good exactly when the division leaves 0x1d0f |
| CrcChecks.ImplementationsAgree | src/wfdabplus.c:256-260 | for every buffer, the bit-serial check accepts it exactly when the table-driven one accepts it with its last two bytes inverted |
| Scrambler.Scramble | src/wfic/scrambler.c:16-40 | the 16-bit register produces p[i] = p[i-5] xor p[i-9], with ones before the start |
| Scrambler.ScrambleTwice | src/wfic/scrambler.c:16-40 | scrambling twice restores every buffer |
| Scrambler.Period511 | src/wfic/scrambler.c:16-40 | the sequence repeats after 511 bits |
| Scrambler.LeastPeriod | src/wfic/scrambler.c:16-40 | and after no smaller number of bits |
| Fic.DecodeBlock | src/wfic/wfic.c:285-331 | one block is depunctured, decoded and descrambled |
| Fic.CheckFib | src/wfic/wfic.c:357-371 | one FIB is checked, and its 30 bytes appended if it is good |
| Fic.FicDecode | src/wfic/wfic.c:195-381 | for any three symbols, the output is the payloads of exactly the good FIBs, in order, and their number is returned |
| FicSender.GoodIff | src/wfic/wfic.c:355-376 | a FIB is kept if and only if its last 16 bits are the complemented CRC of its first 240 |
| FicSender.EncodedIsCodeword | src/wfic/viterbi.c:324-349 | `encode` with both states 0 makes a zero-terminated code word of the bits |
| FicSender.BlockRoundTrip | src/wfic/wfic.c:285-331 | depuncturing, decoding and descrambling restore a block |
| FicSender.FicRoundTrip | src/wfic/wfic.c:195-381 | twelve payloads sent through CRC, dispersal, code, puncturing and three symbols come back, all twelve and in order |
| FicLoopback.SendBlock | src/wfic/viterbi.c:324-349 | `scramble`, `bit_to_byte`, `encode` and `puncture` produce the block that the round trip speaks of |
| FicLoopback.Loopback | src/wfic/wfic.c:195-381 | the repository's own sending routines connected to `fic_decode` deliver whatever twelve payloads went in |
| FicSender.BlockCorrected | src/wfic/wfic.c:285-331 | a block with at most four wrong bits is restored |
| FicSender.FicCorrectsErrors | src/wfic/wfic.c:195-381 | the same payloads come back if at most four bits of each block are wrong |
| Ensemble.EnsInfo.FindService | src/wfficproc.c:64-80 | the first service with the identifier, or null |
| Ensemble.EnsInfo.Append | src/wfficproc.c:90-108 | walking to the tail and linking keeps the list a chain with matching back links |
| Ensemble.EnsInfo.AddService | src/wfficproc.c:85-133 | the list, num_srvs and the sub-channels after a call |
| Ensemble.EnsInfo.AddSubchannel | src/wfficproc.c:138-147 | the first description of a sub-channel stays |
| Ensemble.EnsInfo.DispEnsemble | src/wfficproc.c:178-219 | the ensemble identifier, and the rows, each with its position as its number and the description that is stored for its sub-channel |
| Ensemble.RowsShow | src/wfficproc.c:189-214 | every service has a row with its primary sub-channel, followed by one with the secondary if it has both |
| Ensemble.EnsInfo.UserSelectService | src/wfficproc.c:224-260 | the service that a number selects |
| Ensemble.RunKeeps | src/wfficproc.c:85-133 | after any calls identifiers are distinct, every service has a sub-channel, and num_srvs counts primaries and secondaries |
| Ensemble.FirstSeenOrder | src/wfficproc.c:85-133 | after any calls the list holds the services in the order in which they were first named |
| Ensemble.FirstComponentsStay | src/wfficproc.c:115-123 | a service keeps the first primary and the first secondary it was described with |
| Ensemble.RowsCount | src/wfficproc.c:178-219 | num_srvs is the number of rows |
| Ensemble.SelectionIff | src/wfficproc.c:224-260 | every number selects the row printed beside it if and only if every service but perhaps the last has a primary |
| Ensemble.WrongSelection | src/wfficproc.c:224-260 | two calls after which number 1 selects another service than the one beside it |
| Figs.OrgsOfBytes | src/wffigproc.c:186-236 | parsing printed sub-channel entries (section 6.2) gives them back, long and short forms mixed, whatever follows, and goes on with what follows if the length says so |
| Figs.ServicesOfBytes | src/wffigproc.c:241-338 | parsing printed services (section 6.3.1) gives them back, with 16-bit and 32-bit identifiers |
| Figs.FigEventsOfGroup | src/wffigproc.c:66-116 | dispatching a printed group has the effect that was printed |
| Figs.FibEventsOfGroups | src/wfficproc.c:286-292 | the groups read from an unchanging FIB are exactly the printed ones, in order, up to the end marker or byte 30 |
| FigWalk.StoreSeenIff | src/wffigproc.c:528-538 | a group changes what is read after it if and only if it is a FIG 1/5 of fewer than 22 bytes and byte 22 from its header is not zero |
| FigWalk.WalkUndisturbed | src/wfficproc.c:286-292 | if every FIG 1/5 visited has its 22 bytes inside the FIB, the walk sees the groups as they came and changes nothing behind the FIB |
| FigWalk.FibsUndisturbed | src/wfficproc.c:275-293 | so does the walk over all FIBs of a buffer |
| FigWalk.WalkOfGroups | src/wfficproc.c:286-292 | the walk over a FIB, with its writes, visits exactly the printed groups, in order |
| FigWalk.ShortLabelTears | src/wffigproc.c:528-538 | a FIG 1/5 of one byte before any five sub-channel entries: the walk stores six others |
| FicProcess.Fig01 | src/wffigproc.c:186-236 | the loop stores the parsed entries, for any bytes |
| FicProcess.Fig02 | src/wffigproc.c:241-338 | the loops make the calls of the parsed services, for any bytes |
| FicProcess.Fig15 | src/wffigproc.c:528-538 | one byte of the buffer is cleared |
| FicProcess.UnpickFig | src/wffigproc.c:544-571 | the jump tables have the effect of the group at the position, on the database and on the buffer |
| FicProcess.WalkFib | src/wfficproc.c:286-292 | the database and the buffer after a block are those of the walk, which ends, for any bytes |
| FicProcess.ProcessFic | src/wfficproc.c:262-296 | the database changes by the walk over the good FIBs of three symbols, and the buffer holds what the walk leaves |
| FicAssemble.CompletesOnce | src/wfficproc.c:306-317 | of all packets that have come in, the last one completes at most one symbol 2 |
| FicAssemble.AfterOpen | src/wfficproc.c:310-317 | after a symbol 2 that can still be completed, a symbol 3 or 4 completes its frame if and only if it belongs to the frame and the other one has come; one of another frame ends the matter |
| FicAssemble.AfterClosed | src/wfficproc.c:310-317 | without such a symbol 2, no symbol 3 or 4 completes anything |
| FicAssemble.FicReceiver.Collect | src/wfficproc.c:303-317 | the flags reach 15 exactly when the last of all packets completes a frame, and then the buffers hold its three symbols |
| FicAssemble.FicReceiver.Assemble | src/wfficproc.c:298-326 | for any packets in any order: the FIC is processed if and only if the last packets are symbol 2, one or more copies of symbol 3 or of symbol 4, and the other one, all with one frame number; what is decoded is symbols 2, 3 and 4 in this order |
| FicDatabase.DatabaseRoundTrip | src/wfficproc.c:262-296 | groups printed into the FIBs of a frame, sent and received, have exactly their effects on the database, in order, the writes of the walk included |
| FicDatabase.ServicesOfEvents | src/wfficproc.c:262-296 | the services depend on the calls of `add_service` alone |
| FicDatabase.DatabaseInvariant | src/wfficproc.c:85-133 | the list invariant and the count hold in every database that FIGs can build |
| FicDatabase.SubchannelStays | src/wfficproc.c:138-147 | a sub-channel keeps its first description over any run |
| FicDatabase.ParsedIsProper | src/wffigproc.c:208-231 | a parsed entry can be decoded if and only if its option is in the table and its size is at least one unit |
| FicMeaning.EidOfGroups | src/wffigproc.c:160-179 | after any printed groups the identifier of the database is that of the last FIG 0/0 or FIG 1/0 |
| FicMeaning.SubchannelOfGroups | src/wffigproc.c:186-236 | a sub-channel that was unused holds the first entry printed for it: identifier, start address and, in the long form, size, level and bit rate, in the short form size, bit rate, level and index of its row; without an entry it stays unused |
| FicMeaning.TypeOfGroups | src/wfficproc.c:110-113 | for a sub-channel described before, dabplus says whether the last component printed for it has the DAB+ type |
| FicMeaning.ServicesOfGroups | src/wffigproc.c:241-338 | the list holds exactly the services printed with an audio component, once each, in the order of their first one, with the first primary and the first secondary sub-channel |
| FicMeaning.GroupsHeld | src/wffigproc.c:66-116 | all of this at once for the database that starts empty, with num_srvs the number of references |
| FicMeaning.FrameHeld | src/wfficproc.c:262-296 | a frame received on top of any groups leaves the database of all groups together |
| FicStream.TripleCompletes | src/wfficproc.c:298-326 | whatever came before, packets with symbols 2, 3, 4 or 2, 4, 3 of one frame complete it, with the three symbols in the order 2, 3, 4 |
| FicStream.ReadPackets | src/wfx.c:101-106 | from a recording of packets, with others in between, the database comes to hold what the FIGs of all recorded frames say |
| SymbolRange.StartSym | src/wfsymsel.c:38-53 | first and last symbol in each CIF, and the offset |
| SymbolRange.RangeHolds | src/wfmsc.c:139 | every read at 64 startcu + i lies within the numsyms symbols |
| SymbolRange.RangesFit | src/wfsymsel.c:42-48 | the last range ends by symbol 76, and the ranges are apart, exactly when start + size < 864 |
| SymbolSelect.NextSymbol | src/wfsymsel.c:89-94 | one more symbol sets its two adjacent bits in the word that has room for them |
| SymbolSelect.SwabAt | src/wfsymsel.c:96-97 | swapping moves every digit to the other byte of its 16-bit word |
| SymbolSelect.WfSymSel | src/wfsymsel.c:83-109 | the split words, swapped and combined, are the simple 80-bit mask with the bytes of every word exchanged and symbols 2 to 4 forced |
| SymbolSelect.PlaceIsBijective | src/wfsymsel.c:101-107 | every position of the simple mask is one digit of the ten bytes |
| SymbolSelect.StartSymFits | src/wfsymsel.c:38-53 | the ranges that `startsym` computes for a sub-channel within the 864 capacity units meet what `wfsymsel` demands |
| MscBuffer.CircularBuffer.Write | src/wfmsc.c:63-106 | head and lframe stay equal; no slot overflows; slot r % 16 holds CIF r for the sixteen newest; true is returned exactly when the sixteenth or a later CIF is complete |
| MscBuffer.CircularBuffer.Reset | src/wfmsc.c:69-76 | the buffer is empty again |
| MscBuffer.CircularBuffer.TimeDisinterleave | src/wfmsc.c:132-142 | bit i is read from CIF R, or from CIF R - 16 + d if its delay d is not 0 |
| MscBuffer.DeinterleavedMixes | src/wfmsc.c:132-142 | against section 12, bits with i % 16 = 0 come from frame R, all others from frame R - 16 |
| MscBuffer.FrameRestoredIff | src/wfmsc.c:132-142 | the output is frame R - 16 if and only if frames R and R - 16 agree where i % 16 = 0 |
| MscBuffer.NoFrameRestored | src/wfmsc.c:132-142 | for every size that fits one symbol, a run whose output is no frame that was sent |
| MscBuffer.OldestSlotRestores | src/wfmsc.c:132-142 | counting from the slot after head would restore frame R - 15 always |
| MscDecode.FrameFits | src/wfmsc.c:165-172 | for every sub-channel whose profile stays within its capacity units, the depunctured frame fits the buffer of 4 * 64 cells per unit |
| MscDecode.DecodeFrame | src/wfmsc.c:147-193 | the stages in their order, for every such sub-channel |
| MscSender.SentMaskIff | src/wftables.c:104-117 | the mask of the receiver is that of section 11.3 if and only if the profile is not 2-A at 8 kbit/s |
| MscSender.SentMaskFits | src/wftables.c:104-117 | the masks of section 11.3 fill 96 symbols per kbit/s and 24 more from no more bits than the sub-channel has |
| MscSender.ProperFits | src/wftables.c:33-117 | every sub-channel whose fields agree with the tables can be decoded, into 3 bytes per kbit/s |
| MscSender.FrameRoundTrip | src/wfmsc.c:183-193 | for every profile but 2-A at 8 kbit/s, the bytes of a frame dispersed, coded and punctured as the standard says come back |
| MscSender.LastThirdLost | src/wftables.c:115-117 | at 2-A and 8 kbit/s two frames that agree in their first 16 bytes of 24 are decoded alike |
| MscSender.FrameCorrected | src/wfmsc.c:183-193 | with fewer wrong bits than half the free distance the bytes come back too |
| MscSender.FrameMixed | src/wfmsc.c:183-193 | with vectors from index 7 on they come back whatever every sixteenth bit says, and even if one more is wrong |
| MscSender.StrongLevels | src/wftables.c:33-117 | the levels for which that holds: 1-A, 1-B, 2-A above 8 kbit/s, and 1 and 2 of unequal protection |
| MscAssemble.Assembler.Decode | src/wfmsc.c:147-205 | the frame read from a full buffer is handed on |
| MscAssemble.Assembler.Assemble | src/wfmsc.c:212-254 | one packet, its symbol number in byte 2, its frame number in byte 3 and its symbol from byte 12 on, is one step of the state machine, whatever the numbers |
| MscRun.FrameWrites | src/wfmsc.c:224-248 | of the symbols up to 76 exactly 4 numsyms are stored, or one less if start + size = 864 |
| MscRun.Ignored | src/wfmsc.c:224-248 | a symbol outside the ranges changes nothing |
| MscRun.MismatchResets | src/wfmsc.c:229-248 | a symbol of another frame empties the buffer, from where the next result starts over |
| MscRun.IntactRun | src/wfmsc.c:212-254 | after f intact frames the buffer has received their 4f CIFs in order, and max(0, 4f - 15) frames were decoded, each from the CIFs up to its own |
| MscRun.CompleteIsIntact | src/wfmsc.c:224-248 | symbols 0 to 76 in order under one number are such a frame |
| MscRun.CompleteFrameIff | src/wfmsc.c:212-254 | a complete frame leaves four complete CIFs if and only if start + size < 864 |
| MscEndToEnd.AgreeingFrames | src/wfmsc.c:147-205 | from interleaved coded frames of any profile but 2-A at 8 kbit/s, the data of frame R - 16 is delivered if frames R and R - 16 agree on every sixteenth bit |
| MscEndToEnd.MixedFrames | src/wfmsc.c:147-205 | with the stronger profiles it is delivered whatever frame R says, and even if one bit of frame R - 16 is wrong |
| MscEndToEnd.EndToEnd | src/wfmsc.c:147-254 | over a whole run of intact frames with such a profile, the data of the logical frames comes out complete and in order |
| MscStream.PacketOfBuffer | src/wfmsc.c:221-228 | a packet with the symbol number in byte 2, the frame number in byte 3 and a modulated symbol from byte 12 on is that symbol of that frame with the block that was sent |
| MscStream.KeptSelected | src/wfmsc.c:226-248 | symbols outside the ranges may be missing |
| MscStream.PartBit | src/wfsymsel.c:38-53 | bit b of the sub-channel, where the assembly puts it, is bit 64 startaddr + b of the CIF that the 18 blocks of section 13 make up |
| MscStream.MultiplexInterleaved | src/wfmsc.c:212-254 | so the CIFs put together from packets of a multiplex are interleaved as section 12 says |
| MscStream.RecordedRun | src/wfmsc.c:147-254 | from any number of frames of packets to the bytes of the audio frames, complete and in order |
| MscStream.ReadSymbols | src/wfx.c:113-120 | the loop over a recording is a run of the state machine over its packets of the MSC |
| MscStream.PlayRecording | src/wfx.c:113-120 | playing the recording of a multiplex hands on the data of the logical frames, complete and in order |
| MixingLimit.MixtureMisleads | src/wfic/viterbi.c:353-456 | at level 4-B and 32 kbit/s there are two messages of which the decoder does not deliver the first one from its code word with every sixteenth bit of the other |
| MixingLimit.MixingDefeats | src/wfmsc.c:132-193 | so there are two frames, sent without error, of which the earlier one is not delivered |

## Left out

- Viterbi.KViterbi: metrics are unbounded integers, not `long` and `int`; the table of code symbols is computed on every call instead of once; start and end state are below 64, which the masks clear to 0, because larger ones index outside the metric arrays.
- Decoding.NearestCodeword: the metric table is any table with one value for a match, a smaller one for a mismatch and equal values for erasures; `gen_met`, which fills it in floating point, is not modelled.
- ErrorCorrection.ErrorsCorrected: the same number of symbols is assumed at the front of every group, so a mask that keeps more in places is credited with the least it keeps; for the FIC that is two.
- Symbols.Modulate: the repository has no routine that packs a symbol for sending; this one composes its mapper, interleaver, `bitswap16` and `bit_to_byte`.
- FicSender.FicRoundTrip: the channel is free of errors here; `FicSender.FicCorrectsErrors` admits four in every block. More errors are covered by the nearest code word only.
- FicProcess.WalkFib: bytes past the end of a buffer, which the parser reads without a check in malformed groups, count as zero, and what `fig_1_5` writes there is lost.
- FicProcess.Fig01: an option beyond the protection table, for which the source reads past its end, gets bit rate 0; `dabplus`, and `uep_indx` for equal protection, which the source leaves unset before copying, are given fixed values.
- FicAssemble.FicReceiver.Assemble: symbol numbers are 2, 3 and 4, which both callers check (src/wf.c:186-187, src/wfx.c:104-105).
- Ensemble.EnsInfo.DispEnsemble: returns numbers, identifiers and descriptions of sub-channels; labels and the text around them are not modelled.
- Ensemble.EnsInfo.UserSelectService: the number is a parameter; reading it from the terminal and the prompt are not modelled.
- MscBuffer.CircularBuffer.Write: the sixteen separately allocated slots are the rows of one matrix, and a fresh row holds zeros.
- MscAssemble.Assembler.Assemble: the frames handed to `wfmp2` or `wfdabplusdec` are collected in a sequence; `cifcnt`, which nothing reads, is dropped.
- MscDecode.DecodeFrame: a sub-channel whose profile asks for more bits than its capacity units hold, which no entry of the tables describes, makes the source read past its buffer.
- MscEndToEnd.MixedFrames: vectors below index 7 are not covered; for them the frames must agree as in `MscEndToEnd.AgreeingFrames`. At 4-B it is false (`MixingLimit.MixingDefeats`); levels 3 and 4 of unequal protection, 3-A, 2-B and 3-B, whose vectors keep a single symbol of some groups, are left open.
- MscRun.IntactRun: streams in which symbols of one frame are missing are covered by the step function and the buffer's bounds only; the code does not detect them, so CIFs then lose their alignment.
- FicStream.ReadPackets: the test for labels that ends the loop (src/wfx.c:101) is not modelled, so the recording is what was read up to then; its packets of the FIC are those of complete frames. What others do is said packet by packet by `FicAssemble.FicReceiver.Assemble`.
- FicMeaning.SubchannelOfGroups: dabplus of a sub-channel whose components are printed before its description is left open, because the description overwrites it with a value that the source leaves unset.
- MscStream.PlayRecording: the recording starts after the packets that are skipped at its beginning (src/wfx.c:115).
- Labels (FIG type 1), date and time (FIG 0/10), packet mode (FIG 0/3): the source decodes them; of their effects only the ensemble identifier and the write of FIG 1/5 matter to what is modelled.
- DAB+ superframes, Reed-Solomon decoding, ADTS and MP2 output: a foreign library and output formats.
- Synchronization, FFT, AFC, tuning, USB and kernel driver: floating point and hardware.
- Log files, diagnostics, allocation failures, option parsing: input and output.
