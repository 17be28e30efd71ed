# Fax engine: models and proofs

Dafny models of the bit-exact and protocol parts of a software fax engine (T.30, T.38, V.34,
V.27ter, V.29, T.4/T.6), and proofs of what these parts are for.  Where the engine changes
buffers, registers and counters step by step, the model is a class whose methods do the same
steps and are proved against a specification function; the laws are lemmas about those
functions, and a last method joins sender and receiver end to end.

| component | files |
|---|---|
| V.34 shell mapper: counting tables, ranking, greedy search | V34ShellCounting, V34ShellMapper |
| V.34 mapping frames: switching pattern, frame layout, rate tables, coder, extractor | V34Switching, V34Frame, V34Layout, V34Modes, V34FrameCoder, V34FrameExtractor, V34FrameTransfer |
| V.34 scrambler; MPh sequences of the control channel; 16-state search and its code | V34Scrambler, V34Mph, V34MphStations, V34Viterbi, V34TrellisCode |
| T.4 and T.6 images: codes, rows, pages, encoder, decoder | T4Codes, T4Runs, T4Rows, T4Pixels, T4Page, T4PageProofs, T4Resync, T4Compact, T4Encoder, T4Decoder, T4Transfer |
| T.30 error correction mode: protocol, delivery, progress, perseverance, termination | EcmProtocol, EcmDelivery, EcmBursts, EcmProgress, EcmPerseverance, EcmResilience, EcmDuplicate, EcmTermination, EcmStations |
| HDLC framing and its check sequence | HdlcCrc, HdlcFraming, HdlcStations |
| UDPTL and the T.38 terminal | Udptl, UdptlForeign, UdptlStations, T38Ifp, T38Pump, T38Bursts, T38Transfer, T38Timing, T38Stations |
| V.27ter and V.29 data pipelines | PhaseSteps, V27Modem, V27Stations, V29Modem, V29Stations |
| shared | Arithmetic, BitIo, Plane |

Bit streams are sequences of booleans, refined by the accumulators, shift registers and
buffers of the classes.  A page, a datagram or a burst is one value of the specification; a
lossy or reordering link is a free choice of events.  Distances of the 16-state search are
reals.  `dafny verify dfyconfig.toml` checks everything.

Where a law turned out to need a condition, the condition is part of the result:

- Unmapping cuts the shell index to 32 bits, so `map(unmap(rings)) = rings` holds exactly if
  the index is below 2^32 (`RingsRoundTrip`).  It always is up to 16 rings and not beyond:
  from 17 on the tuple at index 2^32 is taken for 0 (`AllComeBack`, `FirstWrapped`).
- For the same reason the extractor's count of invalid ring tuples, which its comment promises,
  is right for all symbols exactly without a shell or up to M = 16 (`BadIsExact`); with 17 or
  18 rings it can be too low (`MissedAt14400`), never too high (`BadFramesAreOverfull`).
- Image bits sent over T.38 are taken in whole octets and the rest is dropped, so they arrive
  in full exactly if their number is a multiple of eight, or the rest is zero and the zero
  trailer makes up for it (`ImageIntact`, `TailLost`).
- An ECM acknowledgement names no block.  Delivery is exactly-once because the line carries
  one frame at a time; an acknowledgement left over would lose a block or a page
  (`StaleMcfLosesABlock`, `DuplicatedMcfLosesAPage`).
- Bits that decode to nothing conceal one line of an MH page, but zeros are FILL, and a line
  replaced by zeros is missing without a trace (`DamagedLineConcealed`, `ZeroedLineVanishes`).
- A coded line reaches the minimum length exactly if it is that long already or has more than
  13 bits; shorter ones are left unfilled (`MinimumLength`).
- Retransmission ends unless the peer keeps saying it is busy (`SenderEnds`,
  `BusyPeerLoops`).

In one place code and header comment differ: the comment at nf_v34.h:1049 says that training
sequences ignore the control-channel rate, but nf_v34_cc_tx_mph sends through
nf_v34_cc_tx_bits (nf_v34.c:4573-4640), which follows it.  The session only sends MPh before
the rate is set, and the model is of that case.

## Model

| member | source | states |
|---|---|---|
| V34ShellCounting.CountIsCardinality | nf_v34.c:849-884 | the tabulated numbers are true counts: as many as there are 1-, 2-, 4- or 8-tuples of rings below M with the given ring sum |
| V34ShellCounting.PairCountClosedForm | nf_v34.c:849-857 | the closed formula of the g2 table is the number of ring pairs of each sum |
| V34ShellCounting.TotalIsPower | nf_v34.c:872-884 | all tuples counted: z8(8(M-1)+1) = M^8 |
| V34ShellCounting.RankUnrank | nf_v34.c:918-982 | below the count of a ring sum every rank has a tuple of that sum with that rank |
| V34ShellCounting.IndexInjective | nf_v34.c:984-1024 | different tuples have different indexes |
| V34ShellCounting.LargerIndexNoSmallerSum | nf_v34.c:904-958 | a larger R0 never gets a smaller ring sum |
| V34ShellMapper.IndexRoundTrip | nf_v34.c:904-1024 | unmap(map(R0)) = R0 for every R0 below M^8 |
| V34ShellMapper.RingsRoundTrip | nf_v34.c:984-1024 | map(unmap(rings)) = rings exactly if the index survives the cut to 32 bits |
| V34ShellMapper.FirstWrapped | nf_v34.c:984-1024 | from seventeen rings on the 8-tuple at index 2^32 is legal and is unmapped to 0: it does not come back |
| V34ShellMapper.AllComeBack | nf_v34.c:984-1024 | every legal 8-tuple comes back if and only if M is at most 16 |
| V34ShellMapper.NoTruncationUpTo16 | nf_v34.c:984-1024 | up to 16 rings no index is cut, so the mapping is a bijection without condition |
| V34ShellMapper.IndexWrittenOut | nf_v34.c:984-1024 | the arithmetic of unmap (half ranks, prefix sums, products) is the position of the rings in the order by sum and rank |
| V34ShellMapper.ShellMapper.GetTables | nf_v34.c:849-884 | after the bottom-up fill all four tables hold the counts for M, whether they were filled now or before |
| V34ShellMapper.ShellMapper.FindTotal | nf_v34.c:912-919 | the greedy search over A stops at the ring sum whose index range holds R0 |
| V34ShellMapper.ShellMapper.SplitQuadSum | nf_v34.c:919-929 | the greedy search over B leaves a remainder below g4(B) g4(A-B) |
| V34ShellMapper.ShellMapper.SplitPairSum | nf_v34.c:935-951 | the greedy searches over C and D leave remainders below g2(C) g2(B-C) and g2(D) g2(A-B-D) |
| V34ShellMapper.ShellMapper.SplitRank | nf_v34.c:931-958 | quotient and remainder lie within both factors, and no divisor is zero |
| V34ShellMapper.ShellMapper.Map | nf_v34.c:904-982 | the rings found are the 8-tuple at index R0, all below M |
| V34ShellMapper.ShellMapper.Unmap | nf_v34.c:984-1024 | the number returned is the index of the rings, modulo 2^32 |
| V34Switching.HighsAreEven | nf_v34.c:292-302 | the counter marks exactly floor(k r / P) high frames among the first k |
| V34Switching.FrameIsWhole | nf_v34.c:292-302 | P mapping frames hold exactly r high frames and bring the counter back to where it was |
| V34Switching.Periodic | nf_v34.c:292-302 | the pattern repeats with every data frame |
| V34Switching.Split | nf_v34.c:284-287 | b = ceil(N/P) and r are the split for which a data frame carries exactly N bits |
| V34Switching.Pattern | nf_v34.c:292-302 | bit P-1-k of the pattern word says whether mapping frame k is high |
| V34Switching.FrameBits | nf_v34.c:377-382 | the bits of a data frame, summed off the pattern word, are P(b-1)+r |
| V34Frame.RateGivesMode | nf_v34.c:238-340 | a rate of at least eight bits a mapping frame, split by the counter, with rings for its shell bits, gives frames the coder can lay out |
| V34Modes.EveryRateGivesMode | nf_v34.c:45-190 | each of the 130 rows of Tables 8 and 10, with minimum and with expanded shaping, has frames the coder can lay out |
| V34Modes.EveryRateKeepsItsBits | nf_v34.c:45-190 | in each row a frame is high, at every frame number, exactly where the counter put it, and from any frame on P frames carry the N bits of the rate |
| V34Modes.WordBits | nf_v34.c:285-301 | the pattern word built bit by bit from the counter marks exactly the high frames |
| V34Modes.CheckRow | nf_v34.c:266-331 | one row passes the engine's check exactly if N is whole, b, pattern, K and q follow from the rate, and M is 2^(K/8) rounded up, or 1.25 of it rounded, with at most 1664 points |
| V34Modes.CheckAll | nf_v34.c:238-335 | the check finds nothing wrong with any row |
| V34Frame.LayoutBalances | nf_v34.c:4751-4874 | the last group ends exactly where the mapping frame ends, high or low, with and without a shell |
| V34Layout.WhereBitsGo | nf_v34.c:4751-4874 | every bit of a mapping frame in its place: shell index first, lowest bit first, then for each interval I1, I2, I3 and the uncoded bits of both symbols; I2 and I3 turn the first symbol on from the last interval, I1 and U0 the second against the first, and labels carry ring and uncoded bits |
| V34Frame.GroupRoundTrip | nf_v34.c:3190-3247 | one 4D interval: bits and rings come back from labels and rotations whatever U0 was |
| V34Frame.FrameRoundTrip | nf_v34.c:4751-4874 | one mapping frame: shell bits, I bits and uncoded bits come back from its symbols |
| V34Frame.StreamRoundTrip | nf_v34.c:3190-3247 | any number of mapping frames, high and low in turn, are undone by extraction |
| V34Frame.SamePosition | nf_v34.c:3190-3247 | extraction depends on the frame number only modulo P |
| V34Frame.DataInverse | nf_v34.c:4751-4874 | scrambled, encoded, extracted and descrambled data are the data, for any U0 |
| V34FrameCoder.FrameEncoder.Encode | nf_v34.c:4751-4874 | the encoder, its scrambler ring and differential state consume exactly the layout's bits and send the specified symbols |
| V34FrameExtractor.ExtractBits | nf_v34.c:3190-3247 | the extractor writes exactly the decoded stream and counts the frames whose index, cut to 32 bits, does not fit the shell bits of its kind of frame |
| V34FrameExtractor.BadIsExact | nf_v34.c:3190-3247 | for all symbols the frames counted are those whose rings no frame is mapped to, if and only if there is no shell or M is at most 16 |
| V34FrameExtractor.MissedAt14400 | nf_v34.c:3190-3247 | at 14400 bit/s and 2743 symbols with expanded shaping (M = 17) an impossible frame is not counted |
| V34FrameExtractor.BadFramesAreOverfull | nf_v34.c:3190-3247 | for every M the count is never too high |
| V34FrameExtractor.CodedStreamIsGood | nf_v34.c:3190-3247 | no frame of a coded stream is counted |
| V34FrameTransfer.Transfer | nf_v34.c:3190-3247 | coder, extractor and descrambler joined: the data come back and no frame is counted bad, whatever U0 |
| V34Scrambler.DescrambleInverts | nf_v34.c:1282-1309 | from equal histories the descrambler inverts the scrambler |
| V34Scrambler.SelfSynchronising | nf_v34.c:1282-1309 | from any history the data are right after 23 line bits |
| V34Scrambler.WrongBitTravels | nf_v34.c:1282-1309 | fewer than 23 are not enough: a wrong history bit reaches the longer tap and spoils that data bit |
| V34Scrambler.WrongLineBit | nf_v34.c:1282-1309 | a line bit received wrong spoils exactly three data bits: its own, the one 18 (call modem) or 5 (answer modem) later, and the one 23 later |
| V34Scrambler.Scrambler.ScrambleBit | nf_v34.c:1290-1301 | the ring of 32 with its write position behaves as the last 32 line bits |
| V34Scrambler.Scrambler.DescrambleBit | nf_v34.c:1303-1309 | the same ring, fed with the line bit |
| V34Viterbi.NearestAreNearest | nf_v34.c:1133-1149 | after any number of insertions the list holds the k smallest distances, sorted, each candidate once |
| V34Viterbi.TopK.Offer | nf_v34.c:1133-1149 | the shifting insertion puts the candidate behind the last one as near and drops the farthest when full |
| V34Viterbi.Frontier.Relax | nf_v34.c:1191-1237 | all kept branches out of a state are considered and the cheapest way into each next state is recorded |
| V34Viterbi.Frontier.Normalise | nf_v34.c:1239-1247 | the least new metric is taken off all reached states; unreached ones stay at infinity |
| V34Viterbi.StepKeepsExact | nf_v34.c:1176-1248 | after every step metric plus everything taken off so far is the least cost of any path into the state, and the records trace a path of that cost |
| V34Viterbi.TraceBack | nf_v34.c:1250-1274 | following the recorded states back and reading the points forward gives the survivor of the final state |
| V34Viterbi.PathIsLegal | nf_v34.c:1191-1237 | every branch leads to the state where the next begins, and the rotation parity of the second symbol always equals U0 |
| V34TrellisCode.Table13Law | nf_v34.c:1028-1041 | the subset table in closed form, for all pairs of labels |
| V34TrellisCode.CodeIsParity | nf_v34.c:1028-1051 | what the code is, in decoded points only: they belong to a legal path from some state if and only if U0 four intervals on is Y1(k+3) + Y2(k+2) + Y2(k+1) + U0(k+1) + U0(k), U0 read as rotation parity |
| V34TrellisCode.LabelsAreRotated | nf_v34.c:1151-1174 | the alphabet built from quarter-constellation points and their turns has the subset labels the law asks for |
| V34TrellisCode.BitsAreRotations | nf_v34.c:1028-1041 | U0 and Y1 of an interval are read off the rotations of its two points alone |
| V34TrellisCode.CodeTurns | nf_v34.c:1028-1051 | a stream of the code turned by any number of quarters is a stream of the code |
| V34TrellisCode.NoCodewordNearer | nf_v34.c:1151-1278 | no stream that obeys the law is nearer to what was received than the one decoded, provided its points were kept |
| V34TrellisCode.CodewordComesBack | nf_v34.c:1151-1278 | received undisturbed, a stream that obeys the law is decoded to itself at cost 0 |
| V34TrellisCode.ReceiveUndisturbed | nf_v34.c:1151-1278 | encoder points from any state, fed to the search undisturbed, come out of it |
| V34Viterbi.Decode | nf_v34.c:1151-1278 | bad arguments are refused; otherwise the decoded points are those of a legal path, which CodeIsParity characterises, and no path of the pruned trellis is nearer to what was received |
| V34Mph.FieldsBack | nf_v34.c:1409-1436 | every field of an MPh frame is read back in its width, precoder taps included, bits 24 to 27 in both readings |
| V34Mph.BodySealed | nf_v34.c:1438-1515 | the start bits and the sum of a built frame pass the receiver's test |
| V34Mph.BodyHeard | nf_v34.c:1438-1515 | behind sync and start bit a body is taken whole and reported exactly if start bits and sum are right |
| V34Mph.DamageBreaksSeal | nf_v34.c:1438-1515 | damage within sixteen bits in a row of the groups always breaks the sum |
| V34Mph.FrameHeard | nf_v34.c:1438-1515 | a hunting receiver reports a frame exactly once and hunts again right behind its last bit |
| V34Mph.StreamHeard | nf_v34.c:1438-1515 | any sequence of Type 0 and Type 1 frames is reported frame by frame, in order |
| V34Mph.DamagedFrameSkipped | nf_v34.c:1438-1515 | a frame damaged so is not reported, and all frames behind it are |
| V34Mph.StartBitNeeded | nf_v34.c:1438-1515 | a one in place of the zero behind any group, but for the last one of a short frame, keeps the frame from being reported; all that follow are |
| V34Mph.LateJoiner | nf_v34.c:1438-1515 | hunting from anywhere inside a frame never locks on its data: exactly the frames that follow are reported |
| V34Mph.DibitsBack | nf_v34.c:1517-1535 | the differential dibits come back from any points in the right quadrants |
| V34Mph.MphRoundTrip | nf_v34.c:4472-4481 | frames through scrambler, dibit coder, quadrant decision, descrambler and hunter arrive once each, in order, unchanged, if the last 23 line bits were the same |
| V34MphStations.Build | nf_v34.c:4596-4632 | the buffer filled group by group, with the sum computed over it, holds the specified frame |
| V34MphStations.ControlSender.SendMph | nf_v34.c:4634-4640 | a frame extends the sent points by its scrambled, differentially coded bits |
| V34MphStations.MphReceiver.FeedBit | nf_v34.c:1438-1515 | position, run counter and buffer follow the hunting machine; a good frame replaces the fields, a Type 0 frame leaves the taps |
| V34MphStations.MphReceiver.FeedSymbol | nf_v34.c:1517-1535 | the first symbol is only a reference; every later one feeds its two bits |
| V34MphStations.Exchange | nf_v34.c:4634-4640 | sender and receiver end to end: what is told is what was sent |
| T4Codes.PrefixFree | nf_t4.c:23-95 | no code of either table is the beginning of another of the same colour |
| T4Runs.ReadsCode | nf_t4.c:333-350 | reading bit by bit stops at the whole code and nowhere before |
| T4Runs.RunRoundTrip | nf_t4.c:353-368 | every run length is read back from its make-up and terminating codes, saturated at the cap |
| T4Decoder.Canonical | nf_t4.c:333-350 | the pattern compared with the bits read is the table code reversed |
| T4Rows.RunsAreRuns | nf_t4.c:98-107 | the run list is the list of changing elements of the line |
| T4Rows.RoundTrip1D | nf_t4.c:398-410 | a one-dimensional line is decoded to itself, consuming exactly its bits |
| T4Encoder.CursorFound | nf_t4.c:184-238 | a cursor that has passed every changing element up to a0, in the right parity, stands on the b1 and b2 that a scan of the whole line finds |
| T4Encoder.Encoder.MoveReference | nf_t4.c:224-234 | the incremental cursor moves, back two and on by twos, end on that b1 |
| T4Rows.StepAdvances | nf_t4.c:184-238 | every two-dimensional step moves a0 strictly right, to a pixel of the current colour or the end |
| T4Rows.StepRoundTrip | nf_t4.c:428-473 | one pass, vertical or horizontal step is undone by one decoding step, in lockstep from a0 = -1 |
| T4Rows.RoundTrip2D | nf_t4.c:428-473 | any line on any reference is decoded to itself, consuming exactly its bits |
| T4Compact.NearLine | nf_t4.c:184-238 | a line whose changing elements lie within three pixels of those coding looks at costs one, three, six or seven bits an element: never runs, never pass mode |
| T4Compact.RepeatedLine | nf_t4.c:184-238 | a line like its reference costs one bit for each changing element |
| T4Pixels.RowRuns | nf_t4.c:98-107 | the pixel scan of a packed line lists its changing elements, the width last |
| T4Pixels.FillRange | nf_t4.c:428-473 | painting a run turns just these pixels black |
| T4PageProofs.ReadsEol | nf_t4.c:375-396 | an EOL is found behind any number of FILL zeros, with its tag |
| T4PageProofs.BodyStartsSoon | nf_t4.c:375-396 | no coded line begins with eleven zeros, so a line is never taken for an EOL |
| T4PageProofs.TurnDecodesLine | nf_t4.c:500-550 | one turn of the decoder undoes one line of the coder, with its EOL, tag and FILL |
| T4PageProofs.PageRoundTrip | nf_t4.c:500-550 | MH, MR or MMR, any K, any FILL, up to 100000 lines, any bits behind: exactly the lines, ended, none concealed |
| T4PageProofs.DecodeKeepsSound | nf_t4.c:500-550 | on arbitrary bits the decoder ends; every concealed line is the last good one (white before any), and the last line emitted is the reference |
| T4Resync.ResyncIsFirst | nf_t4.c:500-550 | the cursor comes to the first place where an EOL begins, and past the end only if none begins while twelve bits are left |
| T4Resync.DamagedTurn | nf_t4.c:500-550 | behind a line that cannot be decoded, which the last good one conceals, decoding goes on where the first EOL begins, and the page ends only if there is none |
| T4Resync.RestIntact | nf_t4.c:500-550 | MH or MR: a line that breaks off before an EOL with a one-dimensional line behind it is concealed, and the rest of the page comes out intact |
| T4Resync.DamagedLineConcealed | nf_t4.c:500-550 | an MH page with one line replaced by undecodable bits without an EOL: exactly that line is concealed and all others stand in their places |
| T4Resync.ZerosAndOnes | nf_t4.c:353-396 | eight zeros and six ones are such bits |
| T4Resync.ZeroedLineVanishes | nf_t4.c:500-550 | a line replaced by zeros is taken for FILL: it is missing and nothing is concealed |
| T4Resync.MmrBreaksOff | nf_t4.c:500-550 | an MMR page is broken off where no mode begins, the lines before intact |
| T4Resync.LongPageStops | nf_t4.c:500-550 | a page of more than 100000 lines is stopped behind line 100001 |
| T4Page.NextCoderValid | nf_t4.c:262-284 | after every line the K counter, the line type and the reference fit the scheme |
| T4Compact.KthLines | nf_t4.c:262-284 | exactly the lines whose number is a multiple of K (of two where none is given) are coded one-dimensionally |
| T4Compact.MinimumLength | nf_t4.c:150-171 | between a line and the next EOL stand just the zeros that bring it to the minimum; it is reached exactly if the code is that long or has more than 13 bits |
| T4Encoder.Encoder.Eput | nf_t4.c:121-138 | the bits go behind those already in the accumulator, lowest first; whole bytes move to the buffer |
| T4Encoder.Encoder.EncodeEol | nf_t4.c:149-171 | EOL with FILL only where the minimum is not reached and the line is long enough to be filled |
| T4Encoder.Encoder.EncodeRow2D | nf_t4.c:184-238 | the line is coded as specified and becomes the reference; the two run lists change places |
| T4Encoder.Encoder.EncodeRow | nf_t4.c:262-284 | one line adds exactly its EOL and code to the stream and moves the K counter |
| T4Encoder.Encoder.EndPage | nf_t4.c:286-293 | RTC or EOFB, then fewer than eight ones to the byte |
| T4Decoder.Decoder.FindB | nf_t4.c:415-426 | the scan finds the first element right of a0 that starts the opposite colour, and the one after it |
| T4Decoder.Decoder.DecodeRow1D | nf_t4.c:398-410 | pixels, cursor and verdict of the specified one-dimensional line |
| T4Decoder.Decoder.DecodeRow2D | nf_t4.c:428-473 | pixels, cursor and verdict of the specified two-dimensional line |
| T4Decoder.Decoder.Put | nf_t4.c:500-550 | the whole decoder: lines, bad-line count, reference and result of the specified page, on any bytes; so it goes on behind damage as DamagedTurn and DamagedLineConcealed say |
| T4Transfer.SendPage | nf_t4.c:500-550 | encoder to decoder with any bytes behind: 1, no bad line, and exactly the pixels |
| EcmProtocol.SpeedRoundTrip | nf_t30.c:1197-1203 | the receiver recovers the ladder entry from the rate octet of a CTC |
| EcmDelivery.AppendsBlock | nf_t30.c:1294-1306 | appending the frames of a block extends the page by that block, padding included |
| EcmDelivery.EventKeepsInv | nf_t30.c:1494-1735 | every event of the link keeps the invariant between the two stations |
| EcmDelivery.ExactlyOnce | nf_t30.c:1396-1434 | over every run with losses: delivered pages are the sender's in order, the receiver is at or one block ahead of what was seen acknowledged, and a finished sender has had the whole document taken, zero-padded |
| EcmDelivery.SameRate | nf_t30.c:1440-1456 | image frames are only sent at the rate the receiver listens at |
| EcmDelivery.ResendsExactlyTheMissing | nf_t30.c:1184-1193 | after a PPR the frames marked for sending are exactly those the receiver lacks |
| EcmBursts.BurstIs | nf_t30.c:1121-1167 | a burst is the marked frames by rising number and three RCPs, and its PPS names page, block and the number of those frames less one |
| EcmBursts.EorAnswered | nf_t30.c:1462-1472 | at an EOR the receiver's page is the blocks before and the frames of this one that came, in order, and it answers ERR |
| EcmBursts.EorEndsIt | nf_t30.c:1648-1655 | that answer makes the sender disconnect with the transfer failed |
| EcmProgress.CleanBurstIsTaken | nf_t30.c:1121-1167 | whatever was lost before, one burst that loses nothing gets the block acknowledged |
| EcmPerseverance.PpsFourTimes | nf_t30.c:1992-2040 | over every run in which the sender hears nothing behind its burst the same PPS goes out four times in all before it gives up |
| EcmPerseverance.CtcThreeTimesMore | nf_t30.c:1992-2040 | the same for a CTC: three times more, for the same rate |
| EcmPerseverance.BlockGetsThrough | nf_t30.c:1992-2040 | a block whose burst arrives gets through, and the receiver has it, although up to three questions or answers are lost |
| EcmPerseverance.PprStepsDown | nf_t30.c:1602-1632 | below the fourth PPR (seventeenth over V.34) the burst is repeated at the same rate; the fourth asks for the next slower rate allowed; EOR only if there is none |
| EcmPerseverance.OnlyPprStepsDown | nf_t30.c:1585-1655 | nothing else changes the rate or leads to an EOR |
| EcmResilience.FourLossesNeeded | nf_t30.c:1585-2040 | over every run with any frames lost, between stations that do not lose patience: no step down, no EOR and no disconnect before four frames have been lost since the sender came to its block |
| EcmProgress.StaleMcfLosesABlock | nf_t30.c:1585-1601 | an acknowledgement left over from elsewhere moves the sender past data the receiver lacks: to the next block, the next page, or the end of the call |
| EcmDuplicate.DuplicatedMcfLosesAPage | nf_t30.c:1585-1601 | a run in which an MCF arrives a second time: the sender takes the call for complete, the receiver has one page of two |
| EcmTermination.EventCountsDown | nf_t30.c:1602-1632 | every event that changes the sender lowers a lexicographic measure unless its peer says it is busy |
| EcmTermination.SenderEnds | nf_t30.c:1602-1632 | without RNR a run has no more changes than the measure of its start |
| EcmTermination.FourBurstsPerRate | nf_t30.c:1602-1632 | a block is sent in at most four bursts per ladder entry, in at most seventeen over V.34 |
| EcmTermination.BusyPeerLoops | nf_t30.c:1633-1635 | with RNR there is no bound: the sender comes back to the state it was in |
| EcmStations.SendingStation.BuildBlock | nf_t30.c:1062-1097 | the block carved out of the page: start, length, end flag, all frames to be sent |
| EcmStations.SendingStation.GetFrame | nf_t30.c:1121-1167 | the next marked frame, then the RCPs, then the end of the burst |
| EcmStations.SendingStation.ApplyPpr | nf_t30.c:1184-1193 | sets the mark of each frame of the block to its bit in the map, whatever it was; a short map is ignored |
| EcmStations.SendingStation.OnHdlc | nf_t30.c:1585-1655 | the sending station answers every frame as the protocol machine does |
| EcmStations.SendingStation.OnTimeout | nf_t30.c:1992-2040 | repetitions and giving up as the protocol machine does, whose perseverance PpsFourTimes and FourLossesNeeded state |
| EcmStations.SendingStation.OnStepComplete | nf_t30.c:1737-1934 | the phase after each completed transmission |
| EcmStations.ReceivingStation.StoreFcd | nf_t30.c:1262-1277 | a frame is stored at its number, the latest copy kept |
| EcmStations.ReceivingStation.OnPps | nf_t30.c:1396-1434 | lock of the block size, repeated block, missing frames or acceptance |
| EcmStations.ReceivingStation.OnCtc | nf_t30.c:1440-1456 | adopts the rate of the CTC if it is one of the ladder, keeps the frames it has and answers CTR |
| EcmStations.ReceivingStation.OnHdlc | nf_t30.c:1494-1735 | the receiving station answers every frame as the protocol machine does |
| HdlcCrc.TableStep | nf_hdlc.c:10-27 | one table look-up is eight steps of the bitwise division |
| HdlcCrc.CrcTable.Crc16 | nf_hdlc.c:21-27 | the table CRC of any octets is the bitwise division |
| HdlcCrc.GoodResidue | nf_hdlc.c:49-51 | sixteen bits behind any state leave 0xF0B8 exactly if they are its complement |
| HdlcCrc.ResidueIsFcs | nf_hdlc.c:171-180 | the receiver's test passes exactly if the last two octets are the check sequence of the rest |
| HdlcCrc.BurstDetected | nf_hdlc.c:171-180 | any error within sixteen consecutive bits changes the residue |
| HdlcFraming.FeedStuffed | nf_hdlc.c:203-233 | stuffed data assemble to the octets before stuffing |
| HdlcFraming.NoFlagInside | nf_hdlc.c:77-108 | stuffed data never hold six ones in a row |
| HdlcFraming.StuffsOnlyFives | nf_hdlc.c:77-108 | data without five ones in a row are sent as they are |
| HdlcFraming.OctetsThenFlag | nf_hdlc.c:156-201 | any two to 402 octets between flags are delivered once, as good exactly if the last two are the check sequence of the others |
| HdlcFraming.GoodExactly | nf_hdlc.c:156-201 | any bits between flags: at most one event, and a good frame exactly if they are octets and their check sequence |
| HdlcFraming.DamageDetected | nf_hdlc.c:156-201 | a frame damaged within sixteen bits in a row is never delivered as good |
| HdlcFraming.OverlongDropped | nf_hdlc.c:203-233 | more than 402 octets between flags: nothing is told, and the next frame is taken |
| HdlcFraming.AbortDropsFrame | nf_hdlc.c:156-201 | seven ones or more break a frame off: one abort, nothing delivered, and one flag is enough to go on |
| HdlcFraming.PreambleUnbroken | nf_hdlc.c:180-197 | flags of the preamble count only back to back, unless just one is missing; framing is announced when the threshold is reached |
| HdlcFraming.FrameThenFlag | nf_hdlc.c:156-201 | a frame and the flag behind it deliver the payload as good, once, for every bit pattern |
| HdlcFraming.FirstFlagSettles | nf_hdlc.c:156-201 | whatever the receiver was doing, one flag closes it with at most two events and counts as the first of the preamble |
| HdlcFraming.HdlcRoundTrip | nf_hdlc.c:77-137 | from any receiver state, behind at least the threshold of flags: what was under way is closed, framing is announced unless it was, then exactly the frames, all good |
| HdlcFraming.BehindAnything | nf_hdlc.c:77-137 | the same behind any bits at all |
| HdlcStations.HdlcTx.TxFrame | nf_hdlc.c:40-57 | a frame is queued with its check sequence, or refused; none marks the end |
| HdlcStations.HdlcTx.GetBit | nf_hdlc.c:77-137 | the pump hands out, bit by bit, exactly the stream that is due, and then its end |
| HdlcStations.HdlcRx.RxFlagOrAbort | nf_hdlc.c:156-201 | flag, abort, framing and frame events as specified; the ok flag of a frame is what GoodExactly says |
| HdlcStations.HdlcRx.PutBit | nf_hdlc.c:203-233 | the shift register, byte assembly and buffer follow the framing machine |
| HdlcStations.Transfer | nf_hdlc.c:77-137 | pump and receiver joined bit by bit, the receiver in any state: it settles, then every frame once, in order, good |
| Udptl.LengthRoundTrip | nf_udptl.c:6-52 | a length is read back from one or two octets |
| Udptl.OpenRoundTrip | nf_udptl.c:23-69 | a non-empty packet is read back as sent, an empty one as a single zero octet |
| Udptl.DatagramRoundTrip | nf_udptl.c:83-193 | a datagram is parsed into the number, packet and secondaries it was built from |
| Udptl.RedundancyIsMost | nf_udptl.c:98-126 | as many earlier packets are sent along as the depth asks for and there are, or else as many as fit buffer and peer, one more not fitting |
| Udptl.ShortPacketsFit | nf_udptl.c:98-126 | packets of at most s octets all fit buffers and datagrams of 5 + (depth + 1)(s + 2) octets |
| Udptl.ArrivalDelivers | nf_udptl.c:128-193 | one arrival delivers the right packets under their own numbers, recovered ones first |
| Udptl.NumbersRise | nf_udptl.c:128-193 | delivered numbers strictly increase across wraps of the 16-bit field, whatever is lost, doubled or overtaken |
| Udptl.NothingMissing | nf_udptl.c:128-193 | nothing is missing exactly if no run of losses is longer than the secondaries of the datagram that ends it |
| Udptl.ShortRunsCovered | nf_udptl.c:83-193 | datagrams that carry the full depth cover every run of at most that many losses |
| UdptlForeign.SixteenParsed | nf_udptl.c:128-165 | other senders' datagrams: up to sixteen secondaries, empty ones among them, are parsed as put in, whatever follows |
| UdptlForeign.SeventeenRefused | nf_udptl.c:147-162 | more than sixteen are refused |
| UdptlForeign.ParityPassedOver | nf_udptl.c:147-165 | with parity redundancy the primary is taken and the parity passed over |
| UdptlForeign.LongPrimaryRefused | nf_udptl.c:138-141 | a primary of more than 512 octets is refused |
| UdptlForeign.CutRefused | nf_udptl.c:128-165 | a redundancy datagram cut short anywhere is refused as a whole |
| UdptlForeign.HandedOver | nf_udptl.c:167-193 | what an arrival hands over beyond its primary has content; the primary comes last, and only if its number is not behind |
| Udptl.NetworkDelivers | nf_udptl.c:128-193 | over the octets of the datagrams, from a fresh receiver: rising numbers, each packet the one sent, complete exactly if the losses are covered |
| UdptlStations.UdptlTx.Build | nf_udptl.c:83-126 | the datagram in the buffer parses to number, packet and min(number sent before, depth) secondaries, or to the longest list that fits buffer and peer; the ring keeps the last sixteen |
| UdptlStations.UdptlRx.Receive | nf_udptl.c:128-193 | malformed datagrams change nothing; others are handed over as specified |
| UdptlStations.Transfer | nf_udptl.c:83-193 | sender and receiver joined by any schedule of losses, copies and overtaking: what is handed over is what the law says, and all of it if everything fits and no more datagrams in a row are lost than the depth |
| T38Ifp.ReversalUndone | nf_t38.c:132-138 | bit k becomes bit 7-k, so reversing twice changes nothing |
| T38Ifp.IfpRoundTrip | nf_t38.c:142-162 | a coded packet is decoded to exactly the indicator or field that went into it |
| T38Ifp.UnpackPack | nf_t38.c:427-436 | image bits packed highest first come back, those of whole octets |
| T38Ifp.SeveralFields | nf_t38.c:552-593 | a packet of up to 64 fields says all of them in order, whatever follows |
| T38Ifp.BrokenOff | nf_t38.c:552-593 | a packet broken off anywhere says its complete fields and nothing made up |
| T38Ifp.FrameCloses | nf_t38.c:525-549 | a frame in chunks goes up once, as good exactly if the field that closes it says so |
| T38Ifp.NoMoreGood | nf_t38.c:525-549 | no more frames go up as good than fields said so: FCS_BAD and FCS_BAD_SIG_END never make one |
| T38Bursts.TickKeeps | nf_t38.c:338-485 | every tick keeps what the peer holds in step with frame cursor and phase |
| T38Bursts.TickNearer | nf_t38.c:338-485 | every tick of any length brings the burst nearer to its end |
| T38Transfer.StreamTransparent | nf_t38.c:374-419 | an ECM burst, at any pace: the peer accepts exactly the frames, each once, in order, good, and one completion is reported, at the end |
| T38Transfer.ControlTransparent | nf_t38.c:294-308 | the same for a single control frame |
| T38Transfer.ImageTransparent | nf_t38.c:421-467 | image bits, at any pace: the bits of whole octets, then the zero trailer, nothing else, and one completion |
| T38Transfer.ImageIntact | nf_t38.c:421-448 | the bits sent arrive in full exactly if they fill whole octets, or the rest was zero and there is a trailer |
| T38Transfer.TailLost | nf_t38.c:421-448 | three ones alone never arrive |
| T38Transfer.Finishes | nf_t38.c:338-485 | every burst ends after finitely many ticks and stays ended |
| T38Timing.StreamPlayedOut | nf_t38.c:403-413 | an HDLC burst is not ended before its training and all its octets, with four more each, could have been played at the carrier's rate |
| T38Timing.ControlPlayedOut | nf_t38.c:403-413 | the same for a control frame |
| T38Timing.TrainingIsGiven | nf_t38.c:350-372 | indicators first, three for V.21 and one otherwise, then silence for the time of training, and data from the first tick after it |
| T38Timing.CarrierOpens | nf_t38.c:240-282 | every data modem, rate and training length is set up so |
| T38Timing.SameModulation | nf_t38.c:207-236 | indicator and data type name the same modulation, that of the modem and rate; training is short exactly where V.17 was asked for it |
| T38Timing.IndicatorUnderstood | nf_t38.c:494-516 | what the peer makes of a modem's indicator: carrier, training announced, buffer emptied |
| T38Timing.SilenceIsTold | nf_t38.c:255-262 | no modem or the end of the call: silence is told three times and no step is reported |
| T38Timing.PauseLasts | nf_t38.c:263-267 | a pause is reported complete with the first tick that fills the milliseconds asked for, once, and nothing is sent |
| T38Timing.ToneLasts | nf_t38.c:268-273 | a tone is told three times and lasts 200 ms |
| T38Timing.KeepsPace | nf_t38.c:387-396 | whatever the ticks, no more octets are sent than the carrier has room for, eight a tick at least |
| T38Timing.ImageAtPace | nf_t38.c:421-437 | while image bits last, each tick sends what the rate gives, at least 8 and at most 504 octets |
| T38Transfer.UdptlTellsAll | nf_t38.c:596-609 | by the octets of datagrams whose losses are covered the peer is told exactly the packets sent |
| T38Transfer.LosslessIsCovered | nf_t38.c:596-609 | a network that loses nothing needs no redundancy |
| T38Transfer.StreamOverUdptl | nf_t38.c:596-609 | an ECM burst ends and fits UDPTL, and over any lossy, doubling, reordering network with covered losses the output is exactly its frames |
| T38Transfer.ControlOverUdptl | nf_t38.c:596-609 | the same for a control frame |
| T38Transfer.ImageOverUdptl | nf_t38.c:596-609 | the same for image bits and their trailer |
| T38Transfer.DriveSmall | nf_t38.c:180-190 | every packet of a burst fits a UDPTL packet |
| T38Stations.IfpData | nf_t38.c:149-162 | the buffer holds the coded field |
| T38Stations.Sender.SetType | nf_t38.c:240-282 | phase, indicator, repeats, pause and cleared burst state for every modem |
| T38Stations.Sender.SendFrame | nf_t38.c:294-308 | a control frame is loaded, reversed and cut to the buffer |
| T38Stations.Sender.Pump | nf_t38.c:338-485 | one tick of the pump: packets, new state and completion |
| T38Stations.Receiver.TakeField | nf_t38.c:525-549 | reassembly, acceptance and carrier for every field type |
| T38Stations.Receiver.RxIfp | nf_t38.c:552-593 | any octets: the fields up to where the packet breaks off, each handled in turn |
| T38Stations.RunStream | nf_t38.c:338-485 | pump and peer joined until the step is complete: exactly the frames, one completion, and it ends |
| PhaseSteps.Undone8 | nf_v29.c:123-162 | whatever the phase before, the receiver's table gives the three bits of a step back |
| PhaseSteps.Undone4 | nf_v27.c:105-106 | the same in quarters, from an even phase |
| PhaseSteps.NextStepOneBit | nf_v29.c:123-162 | neighbouring phase steps carry bits that differ in one place |
| V27Modem.DescrambledBack | nf_v27.c:73-89 | from equal states the guard counters stay in step and the data come back |
| V27Modem.GuardActs | nf_v27.c:76-86 | among any 34 line bits in a row one is fresh or was inverted |
| V27Modem.GuardResynchronises | nf_v27.c:226-248 | from any state, twelve line bits and one that resets the guard synchronise register and counter for good |
| V27Modem.DescrambledAt | nf_v27.c:73-89 | a data bit is the sum of its line bit and those 6 and 7 before it, inverted when the guard counter is full |
| V27Modem.RepetitionCounts | nf_v27.c:76-86 | repetition at a distance of 8, 9 or 12 lets the guard count until it inverts a bit |
| V27Modem.DecidesItself | nf_v27.c:199-221 | every constellation point is decided as itself, in quarters and in eighths |
| V27Modem.DecidesNear | nf_v27.c:199-221 | every received point less than 0.414 (4800) or 0.707 (2400) away in both coordinates is decided as that constellation point |
| V27Modem.NearIsHeard | nf_v27.c:199-221 | so noise below that radius leaves all data right |
| V27Modem.DataRoundTrip | nf_v27.c:257-284 | scramble, group, phase, decide, descramble: the data come back at both rates, with any noise that leaves the decisions |
| V27Stations.Sender.GetBaud | nf_v27.c:135-146 | the next symbol carries the next bits, ones behind the end of the data |
| V27Stations.Receiver.DecodeBaud | nf_v27.c:257-284 | decision, line bits, descrambler and delivery of one symbol |
| V27Stations.Transfer | nf_v27.c:135-146 | sender and receiver joined: the data, then the ones the sender ends on |
| V29Modem.DecidesItself | nf_v29.c:252-287 | every constellation point of the rate is decided as itself, by the grid at 7200 and 9600, by quadrant at 4800 |
| V29Modem.DecidesNear | nf_v29.c:252-287 | every received point less than one unit (one and a half at 4800) away in both coordinates is decided as that constellation point |
| V29Modem.NearIsHeard | nf_v29.c:252-287 | so noise below that radius leaves all data right |
| V29Modem.OneSymbol | nf_v29.c:121-164 | amplitude bit and phase step of one symbol come back, the receiver's state keeping the amplitude |
| V29Modem.DataRoundTrip | nf_v29.c:252-287 | the data come back at 4800, 7200 and 9600 |
| V29Modem.DataAfterSync | nf_v29.c:234-243 | from any descrambler register all but the first 23 bits come back |
| V29Modem.WrongLineBit | nf_v29.c:234-243 | a line bit received wrong spoils its own data bit and those 18 and 23 later, no others |
| V29Stations.Sender.GetBaud | nf_v29.c:151-163 | the next symbol carries the next bits, ones behind the end of the data |
| V29Stations.Receiver.DecodeBaud | nf_v29.c:252-287 | decision, amplitude and phase bits, descrambler and delivery of one symbol |
| V29Stations.Transfer | nf_v29.c:151-163 | sender and receiver joined: the data, then the ones the sender ends on |

## Left out

- Waveforms: pulse shaping, equalisers, carrier and timing recovery, gain control, tone
  detection, probing, training segments and shutdown counters of the modems.  Received points
  enter as points that are decided like the sent ones.
- V.17: its path search mixes an averaged metric with an unweighted comparison and is no
  least-cost search.
- Image files, JPEG and colour, G.711, sockets, SIP, logging, environment variables, memory
  exhaustion.
- Fault-injection hooks (dropped bursts, dropped acknowledgements, flipped bits).
- Session choreography: V.8, V.34 phases 2 and 3, T.30 capability negotiation, TCF and
  training retries, identification frames, polling; the half of V.34 frame decoding that
  rebuilds the trellis state (nf_v34_rx_frame).
- Integer widths, except where results are cut: the shell index (32 bits), sequence numbers
  (16 bits), block and page numbers (8 bits), CRC and shift registers.  Loop counters,
  metrics' sums and byte counts are unbounded; an encoded page is at most 64 MiB.
- V34ShellMapper.ShellMapper.Map: asks for at most 32 rings, the size of the tables, and an
  index below M^8.
- V34Modes.CheckAll: the consistency of the six symbol-rate rows and their carriers is left
  out; the powers of two with fractional exponents are compared as whole eighth powers.
- V34FrameCoder.FrameEncoder.Encode: the trellis coder and precoder that choose U0 are a
  parameter, so the result holds for any choice; points are labels and rotations, not
  coordinates.
- V34Viterbi.Decode: distances are reals bounded so that no path reaches the stand-in for
  infinity; rounding is not modelled.  The alphabet is given by subset labels and by distances
  to the received symbols, with rotation i mod 4, and the output by alphabet indexes.
- V34MphStations.ControlSender.SendMph: the 2400 bit/s branch of the bit sender (16 points) is
  not modelled; MPh sequences are sent at 1200.  What a receiver makes of the 23 bits before its
  history agrees is left open.
- T4Encoder.Encoder.EncodeRow2D: the clamp of the current-line cursor (nf_t4.c:217) is not
  modelled, as the line has ended whenever it would act; buffers grow without failing.
- T4Transfer.SendPage: at most 100000 lines of at most 2^20 pixels, the decoder's own limits.
- T4Decoder.Decoder.Put: the handler's own return value and progress callbacks are left out.
- EcmDelivery.ExactlyOnce: the link is half-duplex with at most one frame on the line, each
  may be lost, and reply timers run out on a quiet line only; the PPR map is 256 flags rather
  than 32 octets, and the counter the receiver only logs is left out.  What follows an
  abandoned page (EOM, new negotiation) is out of scope.
- EcmResilience.FourLossesNeeded: the receiver's own timer does not run out and carrier drops
  are noticed between a burst and its PPS; either would count as a loss of its own.
- T4Resync.DamagedLineConcealed: one-dimensional pages, as a damaged line is the reference of
  the two-dimensional lines behind it; T4Resync.RestIntact covers lines that are not.
- V34TrellisCode.CodeIsParity: the half-frame inversion V0 and the modulo bit C0 that an encoder
  adds to U0 (nf_v34.c:4812-4849) are not part of the search, which has neither.
- EcmTermination.SenderEnds: excludes RNR, for which there is no bound.
- HdlcStations.Transfer: statuses other than the end of data are passed through untouched.
- UdptlStations.UdptlTx.Build: asks for a buffer of the packet's length plus seven and a depth
  of at most fifteen; a shorter buffer is the caller's error.
- Udptl.NetworkDelivers: datagrams overtake one another by fewer than 2^15 numbers.
- T38Transfer.StreamTransparent: frames have 1 to 507 octets, so that a chunk fits the packet
  buffer; the frames are handed out when asked for, and nothing else is sent on the carrier
  meanwhile.
- UdptlStations.Transfer: the redundancy depth stays the same; the terminal sets it anew with
  each field it sends, which Udptl.NetworkDelivers allows for.
- T38Transfer.StreamOverUdptl: starts with fresh sequence numbers, the burst's first datagram
  arrives first and its last arrives.
- T38Stations.Sender.Pump: the phase that nothing enters (TX_COMPLETE) and the timer callback
  at the end of every tick are left out.
- T38Stations.Receiver.RxIfp: the reset of the receiver when the T.30 engine changes what it
  listens for (nf_t38.c:284-292) is left out.
- V27Stations.Receiver.DecodeBaud: the feedback of the descrambler during training and the
  equaliser are left out.
- V29Modem.DataRoundTrip: at 4800 bit/s the phases are even, as they are from the restart on.
