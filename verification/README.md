# Radio protocols and codecs, modelled and proved in Dafny

The project models the protocol and codec cores of a radio application in Dafny and proves what they are for:
that what goes in at one end comes out at the other.

- The Winlink mail compressor: an adaptive Huffman code over LZSS tokens, in place on arrays. Constants, Bits, Sums,
  Crc, BitStreams, PositionTables and Positions are its bit layer; HuffmanTree, HuffmanRebuild, HuffmanCode,
  HuffmanCoder and SymbolCoder its Huffman tree; Keys, Forest, Links, ForestUpdates, ForestDeletion, MatchFinder and
  Window its match search; Lzss, Encoder, Decoder and Codec put them together. LongCodes shows a tree with a code that is
  too long. Polynomials, CrcTables and Crcs treat the CRCs.
- The mail around it: MailText and MailFormat (the text form), MailContainer (the records and blocks), WinlinkMail (a
  mail from the sender to the receiver).
- AX.25: Ax25Session (the session object), SlidingWindow and Connection (two sessions over links that lose frames),
  WindowLimits (how large the window may be), Ax25Packet (frames and addresses, modulo 8).
- The SBC audio codec between the subband samples and the bytes: SbcFrames, SbcAllocation, Binary, SbcBitStream,
  SbcSamples, SbcLayout, SbcEncoder, SbcDecoder, SbcCodec.
- Framing: Gaia (commands in a byte stream), Tnc (fragments and the outbound queue), Yapp, YappTransfer and YappHeader
  (file transfer).

Code that changes arrays or fields in place is modelled by classes and methods on arrays, each proved against a
function of its inputs or of the old state; the properties are lemmas about these functions. Integers are unbounded
in Dafny: every mask, shift count and truncation that can change a value is written out. Clocks, timers, randomness
and the channel are parameters or events that may come at any time.

Where the code does less than one would hope, the exact condition is proved:

- The size field of the compressor survives exactly below 2^31 (`Lzss.SizeField`).
- `encodeChar` keeps 16 bits of a code. Codes have at most 21 bits, at most 16 while 3867 symbols or fewer have been
  coded, and a longer code comes out right exactly if its other bits are clear (`SymbolCoder.EncodeChar`). Symbols
  that lead from the first tree to a code that does not are given (`LongCodes.CodeLost`).
- The default AX.25 window of 4 with a modulus of 8 is unsafe: the receiver takes frames up to maxFrames ahead
  inclusive, so all runs are safe exactly if twice the window is less than the modulus
  (`WindowLimits.WindowCondition`). A drain steered by the number of a REJ can exceed the window
  (`WindowLimits.SteeredRun`); runs without a REJ sent of a station's own accord never do
  (`WindowLimits.PlainSafe`), and this code sends none, since REJ answers polled I-frames only and its I-frames do not
  poll (`WindowLimits.NoneSteered`).
- A mail without a body has its attachments read two bytes early (`MailFormat.MailArrives`).
- A subject of more than 252 bytes overflows its length byte, and for subjects without record types the payload
  arrives exactly up to that length (`MailContainer.ArrivesExactly`).
- The second loop over a container does not end exactly if the way through the bytes behind the container meets an
  unknown record (`MailContainer.NeverEnds`); a second container behind the first makes the first fail unless their
  checksums agree (`MailContainer.SecondContainer`).
- A joint stereo scale factor can reach 16, which does not fit its four bits (`SbcCodec.Exchange`).
- A resumed YAPP transfer is right exactly if what was there was the beginning of the file (`Yapp.FinishedRight`,
  `Yapp.WrongFile`); a block of more than 256 bytes does not arrive (`Yapp.BlockArrives`), nor does a header of more
  than 255 (`YappHeader.HeaderArrives`).
- A TNC frame of 0 or of more than 3200 bytes does not arrive (`Tnc.ArrivesExactly`), nor does an AX.25 address with
  blanks or control characters (`Ax25Packet.AddressArrives`).

`dafny verify dfyconfig.toml` verifies the project.

## Model

| member | source | states |
|---|---|---|
| `Codec.RoundTrip` | src/winlink/winlink-utils.js:569-744 | For every message of 1 to 3867 bytes, and every longer one below 2^31 bytes whose Huffman codes all have at most 16 bits, `decode(encode(x, true), true, size)` gives back the message and its size, so the CRC check passes |
| `Encoder.Encode` | src/winlink/winlink-utils.js:569-671 | `encode` ends on every input. Its tokens spell the message and are a greedy parse of it; if every code fits 16 bits, the output is the size field, the code bits of these tokens and padding, framed by the swapped CRC, and `size` is its length. The empty message gives empty data, CRC 0, size 4 |
| `Encoder.EncodeRound` | src/winlink/winlink-utils.js:608-652 | One round of the main loop codes one token and moves the window by its width; the forest then holds the window before the new position, with the best match found there |
| `Encoder.ChooseToken` | src/winlink/winlink-utils.js:608-620 | The token is a copy that repeats the history, or a literal; it is the longest copy any position of the message in the window allows (greedy) |
| `Encoder.MoveOver` | src/winlink/winlink-utils.js:622-651 | The two inner loops delete the oldest slot, read or not, and insert the new one, `width` times; the window, the forest and the match found are right at the new position |
| `Decoder.Decode` | src/winlink/winlink-utils.js:673-744 | `decode` ends on every input; on the compressed form of a message below 2^31 bytes it returns that message, the CRC of everything behind the CRC field, and size 0 exactly if the supplied CRC differs |
| `Decoder.DecodeAll` | src/winlink/winlink-utils.js:704-722 | The main loop ends on every input; on a compressed message the message is out at its end and every input byte has been fetched |
| `Decoder.DecodeToken` | src/winlink/winlink-utils.js:705-721 | One round puts out at least one byte whatever the input; on a compressed message it puts out exactly what the next token stands for, with tree, stream position and window in step with the encoder |
| `Decoder.CopyOut` | src/winlink/winlink-utils.js:713-719 | The copying loop puts out `len` bytes whatever the window holds, also when source and target overlap; for a copy of the message, the right ones |
| `Decoder.AllFetched` | src/winlink/winlink-utils.js:363-385 | When the last token has been decoded, every input byte has been fetched, so the CRC covers all of them |
| `Lzss.SizeField` | src/winlink/winlink-utils.js:582-585 | The four size bytes are read back as the size exactly if it is below 2^31 |
| `Lzss.BitsBound` | src/winlink/winlink-utils.js:573-574 | A coded message has at most 16 bits per byte of the message, so the output buffer is large enough |
| `BitStreams.BitWriter.Putc` | src/winlink/winlink-utils.js:249-255 | One byte goes out, and into the CRC when encoding |
| `BitStreams.BitWriter.PutCode` | src/winlink/winlink-utils.js:387-403 | `putcode` is the step `Put` of its register and output; `codeSize` grows by the bytes put out |
| `BitStreams.Packed.PutSpells` | src/winlink/winlink-utils.js:387-403 | With at most 7 bits pending, whichever of its three exits it takes, a code of at most 16 bits is appended bit for bit to what the output and the register spell |
| `BitStreams.Packed.PutTooLong` | src/winlink/winlink-utils.js:387-403 | A code of 16 to 24 bits, of which the register has the first 16: its bits come out right if and only if all the others are clear |
| `BitStreams.BitWriter.EncodeEnd` | src/winlink/winlink-utils.js:516-521 | The pending bits go out in one last byte if there are any |
| `BitStreams.BitReader.Getc` | src/winlink/winlink-utils.js:239-247 | The next input byte, or zero at the end; the CRC of a decoder covers exactly the bytes taken |
| `BitStreams.BitReader.GetBit` | src/winlink/winlink-utils.js:363-373 | The next bit of the input, which reads as zero beyond its end; the position advances by one |
| `BitStreams.BitReader.GetByte` | src/winlink/winlink-utils.js:375-385 | The next eight bits of the input; the position advances by eight |
| `Positions.LookUp` | src/winlink/winlink-utils.js:136-173 | For each of the 64 upper parts, every byte that starts with its code of 3 to 8 bits is looked up as that part and that length |
| `Positions.Reassemble` | src/winlink/winlink-utils.js:537-551 | The upper part from the table and the bits shifted in behind it are the position again |
| `HuffmanRebuild.StartAtRest` | src/winlink/winlink-utils.js:405-424 | The first tree has all tree invariants, and each of the 314 symbols weighs one |
| `HuffmanCode.RebuiltAtRest` | src/winlink/winlink-utils.js:426-463 | Rebuilding restores all tree invariants; every weight is halved, rounding up, so none becomes zero, and the root weighs at most half as much plus 157 |
| `HuffmanCode.UpdatedAtRest` | src/winlink/winlink-utils.js:465-494 | `update` ends and keeps: frequencies nondecreasing by index, every inner node the sum of its two adjacent sons, sons at an even base below their parent, parents inverse to sons, leaves one to one with symbols, root at most 0x8000. It adds one to the weight of its symbol and to no other, after halving all if the root is full |
| `HuffmanCode.CodeLength` | src/winlink/winlink-utils.js:465-508 | A code of n bits needs a root of weight Fib(n + 2) or more |
| `HuffmanCode.ShortCodes` | src/winlink/winlink-utils.js:496-508 | While the root weighs at most 4180, every code has at most 16 bits |
| `HuffmanCode.LongestCode` | src/winlink/winlink-utils.js:496-508 | No code ever has more than 21 bits |
| `HuffmanCoder.Huffman.StartHuff` | src/winlink/winlink-utils.js:405-424 | The arrays become those of the first tree |
| `HuffmanCoder.Huffman.Reconst` | src/winlink/winlink-utils.js:426-463 | The three passes in place leave the rebuilt tree, whose parents are filed from its sons |
| `HuffmanCoder.Huffman.Update` | src/winlink/winlink-utils.js:465-494 | The climb in place leaves the updated tree; the sentinel at index T and the 0xFFFF masks never interfere |
| `SymbolCoder.EncodeChar` | src/winlink/winlink-utils.js:496-508 | The code of the symbol is appended if it has at most 16 bits; a longer one comes out right exactly if its bits from the 17th on are clear; the tree is updated |
| `LongCodes.CodeLost` | src/winlink/winlink-utils.js:465-508 | It does go wrong: a stated sequence of 26919 symbols, every symbol a stated number of times, leads from the first tree to one in which a symbol has a code of 17 bits that ends with a one, so its code does not come out right, whatever has been written before |
| `LongCodes.CutAt` | src/winlink/winlink-utils.js:405-494 | In any tree, the number of nodes up to some weight is that of the pairs of sons and of the symbols up to that weight; so the weights of all nodes follow from those of the symbols |
| `SymbolCoder.EncodePosition` | src/winlink/winlink-utils.js:510-514 | The upper part's code and the six lower bits are appended |
| `SymbolCoder.DecodeChar` | src/winlink/winlink-utils.js:523-535 | The walk ends at a leaf on every input; if the input goes on with the code of a symbol, that symbol is returned and exactly its code consumed; the tree is updated |
| `SymbolCoder.DecodePosition` | src/winlink/winlink-utils.js:537-551 | If the input goes on with a position's bits, that position is returned and exactly its bits consumed |
| `Forest.InsertOrdered` | src/winlink/winlink-utils.js:266-329 | Insertion keeps a tree ordered by its 60-byte keys; it adds the slot and drops exactly the one with the same key |
| `Forest.SearchLongest` | src/winlink/winlink-utils.js:285-314 | The walk finds the longest common prefix, up to 60 bytes, that any slot of the tree has with the new one if it is longer than two bytes, and the match it reports is a real one |
| `Forest.DeleteOrdered` | src/winlink/winlink-utils.js:331-361 | Deletion keeps the order and removes exactly the slot |
| `ForestUpdates.AttachOk` | src/winlink/winlink-utils.js:272-300 | Hanging the new slot below the node reached keeps `dad`, `lSon` and `rSon` mutually inverse and acyclic, each tree with the slots that start with its byte |
| `ForestUpdates.ReplaceOk` | src/winlink/winlink-utils.js:315-328 | Taking over the links of a slot with the same key keeps the forest, and the replaced slot is out of it |
| `ForestDeletion.DeleteOk` | src/winlink/winlink-utils.js:331-361 | Splicing out a slot, over the last slot of its left subtree if need be, keeps the forest |
| `MatchFinder.Finder.InitTree` | src/winlink/winlink-utils.js:257-264 | An empty forest |
| `MatchFinder.Finder.InsertNode` | src/winlink/winlink-utils.js:266-329 | Both loops end; the arrays become those of the forest with the slot inserted, and match position and length are those of the search |
| `MatchFinder.Finder.DeleteNode` | src/winlink/winlink-utils.js:331-361 | The loop ends; the slot is out of the forest if it was in it, and nothing else changes |
| `Window.InsertRepresents` | src/winlink/winlink-utils.js:622-651 | When a slot replaces another, every position in the window still has a slot with its key |
| `Window.DeleteRepresents` | src/winlink/winlink-utils.js:622-651 | The slot that leaves stands for no position that stays |
| `Window.SearchCovers` | src/winlink/winlink-utils.js:266-329 | No slot of the forest agrees further with the new one than the search reports |
| `Window.MatchRepeats` | src/winlink/winlink-utils.js:602-620 | A match found in the ring buffer repeats the history from that far back |
| `Crcs.StepDivides` | src/winlink/winlink-utils.js:235-237 | A step of `doCRC` with the literal table is eight steps of polynomial division by X^16 + X^12 + X^5 + 1 |
| `Crcs.CrcIsRemainder` | src/winlink/winlink-utils.js:235-255 | The CRC of a byte string, with the literal table, is the remainder of the bit-serial division of its bits |
| `Crcs.SameCrc` | src/winlink/winlink-utils.js:794-845 | `WinlinkCrc16.compute`, which has its own literal table and appends two zero bytes, gives the same CRC as folding `doCRC` from zero, for every byte string |
| `CrcTables.CompressorTableGenerated` | src/winlink/winlink-utils.js:176-209 | The 256 literals of the compressor's table follow from one another by multiplication with X modulo the generator |
| `CrcTables.SameTable` | src/winlink/winlink-utils.js:795-828 | The literals of the CRC class are the same 256 numbers |
| `CrcTables.Crc8TableGenerated` | src/radio/sbc/SbcTables.js:17-50 | The 256 literals of SBC's table follow from one another by multiplication with X modulo X^8 + X^4 + X^3 + X^2 + 1 |
| `Polynomials.GeneratedEntry` | src/winlink/winlink-utils.js:176-209 | Each entry of such a table is eight division steps from its index |
| `MailFormat.MailArrives` | src/winlink/winlink-mail.js:81-222 | For every mail without line breaks in its header texts, `deserializeMail(serializeMail(m))` is the mail if and only if no text has blanks at its ends, every attachment has a name, and there is a body or the data of every attachment is a repetition of CR LF (without a body the attachments are read two bytes early) |
| `MailFormat.HeaderRead` | src/winlink/winlink-mail.js:81-155 | The header is found at the first double line end and read field by field: every text trimmed, the flags, the body length, and an attachment of the announced size for each file line with a name |
| `MailFormat.AttachedEarly` | src/winlink/winlink-mail.js:157-172 | Without a body the attachments are read two bytes early, and are right if and only if each repeats CR LF |
| `MailFormat.SerializeMail` | src/winlink/winlink-mail.js:179-222 | The loops build the serialized form |
| `MailFormat.DeserializeMail` | src/winlink/winlink-mail.js:81-177 | The loops compute the deserialized form, on every input; exceptions are outcomes |
| `MailFormat.FindFirstDoubleNewline` | src/winlink/winlink-mail.js:69-79 | The place of the first CR LF CR LF, or -1 |
| `MailText.HeaderEnds` | src/winlink/winlink-mail.js:69-79 | The first double line end of a header of non-empty lines is the one behind its last line |
| `MailText.LinesOfJoined` | src/winlink/winlink-mail.js:92-93 | Lines joined by CR LF are split into the same lines |
| `MailText.DecimalRead` | src/winlink/winlink-mail.js:124-131 | `parseInt` reads a length as it was written |
| `MailText.TrimIs` | src/winlink/winlink-mail.js:98-99 | Trimming gives text without blanks at its ends, and changes no text that has none |
| `MailContainer.ArrivesExactly` | src/winlink/winlink-mail.js:231-341 | For every subject without the bytes 1, 2 and 4, which are the types of records, and every payload: the payload is unpacked from its container, checksum and all, with every byte consumed, if and only if the subject has at most 252 bytes |
| `MailContainer.PayloadArrives` | src/winlink/winlink-mail.js:231-341 | Behind any subject of at most 252 bytes every payload is unpacked, checksum and all, and every byte is consumed |
| `MailContainer.Behind` | src/winlink/winlink-mail.js:269-330 | For every subject of at most 252 bytes, every payload and all bytes behind the container: what becomes of the whole is decided by the way through these bytes, which passes records of types 1 and 2 and those of type 4 with the payload's own checksum. If it leads to the end, the payload is unpacked; if it leads to another checksum, the checksum is rejected; if it leads to another type, the loop hangs |
| `MailContainer.NeverEnds` | src/winlink/winlink-mail.js:306-330 | The second loop, turn by turn as the source has it, goes on for ever if and only if that way leads to a record of another type |
| `MailContainer.OutcomeOfLoop` | src/winlink/winlink-mail.js:306-330 | The outcome computed for the second loop is the one its turns lead to; where it says that the loop hangs, no number of turns ends it |
| `MailContainer.SecondContainer` | src/winlink/winlink-mail.js:306-330 | A second container behind the first is taken for records of the first: the first payload is unpacked, and both containers consumed, if the checksums agree, and is rejected otherwise |
| `MailContainer.PartWaits` | src/winlink/winlink-mail.js:269-304 | As long as the last byte has not come, nothing is taken and nothing fails |
| `MailContainer.LongSubject` | src/winlink/winlink-mail.js:236-239 | Every subject of more than 252 bytes overflows the length byte: unless its byte at (length + 3) modulo 256 is the type of a record, nothing is taken from the container, whatever follows it |
| `MailContainer.ChecksumCancels` | src/winlink/winlink-utils.js:766-782 | The checksum makes the sum of all bytes a multiple of 256 |
| `MailContainer.ComputeChecksum` | src/winlink/winlink-utils.js:766-772 | The checksum of the bytes |
| `MailContainer.EncodeToBlocks` | src/winlink/winlink-mail.js:231-266 | The blocks, joined, are the container; they have 128 bytes each, but for the last |
| `MailContainer.FindSize` | src/winlink/winlink-mail.js:274-304 | The first loop ends and finds the payload size if the checksum record has come |
| `MailContainer.CollectPayload` | src/winlink/winlink-mail.js:306-330 | The second loop copies the records. The method returns `Hangs` where the source's loop has no branch and does not end; that this is so is `MailContainer.OutcomeOfLoop` |
| `MailContainer.UnpackBlocks` | src/winlink/winlink-mail.js:269-330 | What the two loops make of the bytes that have come |
| `WinlinkMail.EncodeMailToBlocks` | src/winlink/winlink-mail.js:224-267 | The blocks are the container of the compressed serialized mail, with its sizes |
| `WinlinkMail.DecodeBlocksToEmail` | src/winlink/winlink-mail.js:269-352 | Nothing is taken while the container is incomplete; from a container of the compressed form of some bytes comes what these bytes deserialize to, with the bytes consumed |
| `WinlinkMail.Send` | src/winlink/winlink-mail.js:224-352 | A mail with one-line texts, of at most 3867 serialized bytes, or of fewer than 2^31 whose codes all fit, is sent with any bytes behind its joined blocks. Behind a subject of at most 252 bytes the way through these bytes decides whether the receiver takes the mail, with all bytes up to there consumed, rejects the checksum or hangs. If the subject has no byte 1, 2 or 4, the receiver gets the mail that was sent if and only if its subject has at most 252 bytes, the way leads to the end, and the mail survives its text form |
| `Connection.RunSafe` | src/AX25Session.js:389-569 | In every run of two connected stations over links that lose frames, with 2 * maxFrames below the modulus and every drain within the window: delivered data is a prefix of the data sent, in order and without duplicates; acknowledgements remove exactly received packets; the sent packets are a prefix of the buffer with consecutive N(S), at most maxFrames of them |
| `Connection.RunBytes` | src/AX25Session.js:389-569 | In bytes: what has been passed on is a prefix of what was given to the sender, both ways |
| `Connection.StepInv` | src/AX25Session.js:389-569 | Every step keeps the invariant of both directions |
| `Connection.DrainFlights` | src/AX25Session.js:468-509 | A drain puts packets of the window on the link, in order, with the N(S) and N(R) they should have, and nothing else |
| `WindowLimits.WindowCondition` | src/AX25Session.js:389-569 | For every window and modulus the options allow: all runs are safe if and only if 2 * maxFrames is below the modulus; so not for the defaults 4 and 8 |
| `WindowLimits.PlainSafe` | src/AX25Session.js:389-569 | With 2 * maxFrames below the modulus, every run in which no station sends a REJ of its own accord is safe; that every drain keeps the window is then a conclusion |
| `WindowLimits.TooLarge` | src/AX25Session.js:1109-1134 | With a window below the modulus but not below half of it, a run, constructed here, passes on more packets than were sent |
| `WindowLimits.FarTooLarge` | src/AX25Session.js:468-509 | With a window of a modulus or more, a run has more packets outstanding than the window |
| `WindowLimits.DrainedWindow` | src/AX25Session.js:468-509 | A drain leaves at most maxFrames packets outstanding if and only if those outstanding and the room it counts from its starting number stay within maxFrames |
| `WindowLimits.UnsteeredKeepsWindow` | src/AX25Session.js:468-509 | A drain that is not steered by the number of a REJ always does |
| `WindowLimits.SteeredRun` | src/AX25Session.js:475-478 | A steered one need not: a run from the start leads to two outstanding packets with a window of three, and the next drain to five |
| `WindowLimits.NoneSteered` | src/AX25Session.js:1079-1170 | As long as no drain is steered, every drain keeps the window, and no I-frame makes a station send a REJ, because I-frames are sent without the poll bit |
| `WindowLimits.StaysUnsteered` | src/AX25Session.js:1059-1077 | Only a REJ sent without need can steer a drain |
| `SlidingWindow.DistanceAhead` | src/AX25Session.js:385-387 | The distance of two sequence numbers is that of the packets they stand for, less than a modulus apart |
| `SlidingWindow.UnackedIs` | src/AX25Session.js:389-401 | An N(R) for packet v removes exactly the packets below v |
| `SlidingWindow.AcknowledgeOk` | src/AX25Session.js:389-401 | The next acknowledgement on the link removes exactly received packets and keeps the invariant |
| `SlidingWindow.WhichPacket` | src/AX25Session.js:1109-1134 | With 2 * maxFrames below the modulus, in-sequence, ahead and behind are told apart rightly |
| `SlidingWindow.ReceiveOk` | src/AX25Session.js:1079-1170 | Whatever I-frame arrives, what is passed on is the next packets, in order |
| `SlidingWindow.ReleaseOk` | src/AX25Session.js:540-569 | What is released from the reorder buffer is what comes next |
| `SlidingWindow.ArriveOk` | src/AX25Session.js:1079-1170 | The head of the link arrives: the invariant holds and what is passed on continues what was |
| `Ax25Session.Session.Send` | src/AX25Session.js:678-714 | The buffer grows by the data cut into packets of packetLength bytes |
| `Ax25Session.Session.ReceiveAcknowledgement` | src/AX25Session.js:389-401 | The acknowledged packets leave the front of the buffer, up to the first that is not |
| `Ax25Session.Session.Drain` | src/AX25Session.js:468-509 | The frames sent and the state left are those of the drain |
| `Ax25Session.Session.StoreOutOfOrderPacket` | src/AX25Session.js:521-538 | A packet is held under its number, and packets held for more than 30 seconds are dropped |
| `Ax25Session.Session.ProcessBufferedPackets` | src/AX25Session.js:540-569 | Held packets are passed on as long as the expected one is there |
| `Ax25Session.Session.TakeInfo` | src/AX25Session.js:1079-1170 | The I-frame branch: acknowledge, then pass on, hold or reject |
| `Ax25Session.Session.TakeSupervisory` | src/AX25Session.js:1020-1077 | The RR, RNR and REJ branches |
| `Ax25Packet.FrameArrives` | src/AX25Packet.js:62-294 | Every frame of any declared type, modulo 8, with printable addresses decodes to its addresses, SSIDs, command flag, type, P/F, the sequence numbers it carries, PID where present, and data |
| `Ax25Packet.AddressArrives` | src/AX25Address.js:47-77 | An address arrives if and only if its characters are all from 0x21 to 0x7F; its SSID and flags do whenever it decodes at all |
| `Ax25Packet.ToByteArray` | src/AX25Packet.js:215-275 | The bytes written are the encoded frame |
| `Ax25Packet.AddressToByteArray` | src/AX25Address.js:64-77 | The seven bytes of an address |
| `Ax25Packet.DecodeAX25Packet` | src/AX25Packet.js:62-150 | The decoder, on every input: no packet exactly below six bytes, an exception exactly when the addresses do not end within the data, the other formats told apart, and otherwise a frame |
| `SbcAllocation.AllocationExact` | src/radio/sbc/SbcEncoder.js:305-378 | For all bit needs and every valid bitpool, the bits of the subbands are 0 to 16 each and exactly bitpool together; they follow the needs: some slice gives every subband at least its share and, but for one bit, at most that of the next slice |
| `SbcAllocation.StopSlice` | src/radio/sbc/SbcEncoder.js:336-352 | The slicing loop ends at the first slice below which there are enough bits |
| `SbcAllocation.TopIrrelevant` | src/radio/sbc/SbcEncoder.js:336-352 | Where the slicing starts makes no difference, as long as it is above every need |
| `SbcAllocation.ComputeBitAllocation` | src/radio/sbc/SbcDecoder.js:276-349 | The loops over the arrays end and leave that allocation; the bits sum to exactly bitpool |
| `SbcAllocation.FindSlice` | src/radio/sbc/SbcDecoder.js:306-323 | The slicing loop on the arrays |
| `SbcAllocation.FirstPass` | src/radio/sbc/SbcDecoder.js:335-341 | The first repair pass on the arrays |
| `SbcAllocation.SecondPass` | src/radio/sbc/SbcDecoder.js:343-348 | The second repair pass on the arrays |
| `SbcCodec.Exchange` | src/radio/sbc/SbcDecoder.js:87-254 | For every valid mono, stereo or joint stereo frame and all samples, with any bytes behind the frame: the decoder accepts what the encoder wrote, with the same parameters, and finds the same joint mask, scale factors and codes if and only if no coupled subband has a block in which both samples are -32768 |
| `SbcCodec.ScalesFit` | src/radio/sbc/SbcEncoder.js:241-303 | A scale factor needs a fifth bit exactly in that case |
| `SbcCodec.LoudestPair` | src/radio/sbc/SbcEncoder.js:268-279 | It happens: two channels that stay at -32768 |
| `SbcEncoder.Encode` | src/radio/sbc/SbcEncoder.js:80-131 | Refused exactly if the parameters are invalid; else exactly `getFrameSize()` bytes, which carry the header, the mask, the scale factors and the quantised codes of the samples, with a right CRC |
| `SbcEncoder.EncodeFrameData` | src/radio/sbc/SbcEncoder.js:150-239 | After the reserved header the stream holds mask, scale factors, codes and padding, without error; the samples are coupled in place |
| `SbcEncoder.EncodeHeader` | src/radio/sbc/SbcEncoder.js:133-148 | The header bits, with zero for the CRC, and nothing beyond them changes |
| `SbcEncoder.Couple` | src/radio/sbc/SbcEncoder.js:205-215 | The coupled subbands become half sums and half differences; the others keep their samples |
| `SbcEncoder.ComputeScaleFactors` | src/radio/sbc/SbcEncoder.js:285-303 | Every subband gets the scale factor of its samples |
| `SbcEncoder.ComputeScaleFactorsJointStereo` | src/radio/sbc/SbcEncoder.js:241-283 | The subbands whose scale factors sum and difference make smaller are marked, the last one never, and get those |
| `SbcEncoder.MixedWithin` | src/radio/sbc/SbcEncoder.js:205-231 | After coupling every sample is below 2^(scale factor + 1) |
| `SbcEncoder.BodyFits` | src/radio/sbc/SbcEncoder.js:176-237 | Mask and codes always fit their fields; everything does if and only if every scale factor is below 16 |
| `SbcEncoder.MaskArrives` | src/radio/sbc/SbcEncoder.js:170-188 | The mask is read back from the reversed bits it is sent as |
| `SbcSamples.ScaleIs` | src/radio/sbc/SbcEncoder.js:285-303 | The scale factor is the least k for which all samples are below 2^(k + 1) |
| `SbcSamples.Code` | src/radio/sbc/SbcEncoder.js:225-234 | A sample below 2^(scf + 1) is quantised to a code that fits its bits |
| `SbcSamples.CountLeadingZeros` | src/radio/sbc/SbcTables.js:111-123 | 31 less the place of the highest one bit, and 32 for zero |
| `SbcDecoder.Decode` | src/radio/sbc/SbcDecoder.js:87-115 | For all data: the frame and body that the data carries with a right CRC, all values in range, and nothing if and only if it carries none |
| `SbcDecoder.DecodeFrameData` | src/radio/sbc/SbcDecoder.js:184-274 | The mask, the scale factors and the codes are those whose bits come next, and no read fails |
| `SbcDecoder.DecodeHeader` | src/radio/sbc/SbcDecoder.js:145-182 | The parameters that the header says, or nothing if it starts with neither sync word |
| `SbcLayout.CarriesOne` | src/radio/sbc/SbcDecoder.js:145-254 | Data carries one set of parameters and one body of values in range; what was written is what is read if and only if it is in range |
| `SbcLayout.BodyOnce` | src/radio/sbc/SbcDecoder.js:184-254 | No two bodies in range have the same bits |
| `SbcLayout.BodySize` | src/radio/sbc/SbcFrame.js:119-133 | Mask, scale factors and codes have exactly the bits that `getFrameSize` counts |
| `SbcLayout.BlockTakes` | src/radio/sbc/SbcEncoder.js:217-237 | The codes of one block take exactly bitpool bits per allocation |
| `SbcBitStream.Writer.PutBits` | src/radio/sbc/SbcBitStream.js:105-133 | The bits are appended, or an error is reported exactly if a full byte does not fit |
| `SbcBitStream.Writer.Flush` | src/radio/sbc/SbcBitStream.js:138-150 | Zeros up to the byte boundary, or an error exactly if they do not fit |
| `SbcBitStream.Reader.GetBits` | src/radio/sbc/SbcBitStream.js:54-86 | The next bits as a number, or an error exactly if there are not so many |
| `Crcs.ComputeCrc` | src/radio/sbc/SbcTables.js:132-155 | The CRC with the literal table and its half-byte step is the bit-serial remainder of all covered bits, starting from 0x0F; -1 exactly if the data is short |
| `Gaia.ChunksDoNotMatter` | src/radio/GaiaClient.js:136-156 | However the data is cut into chunks, the commands and what is left over are those of the data as a whole |
| `Gaia.CommandsArrive` | src/radio/GaiaClient.js:136-247 | Any sequence of commands of 4 to 259 bytes, behind noise without a sync byte and cut into any chunks, yields exactly these commands, in order, and nothing is left over |
| `Gaia.FramesParse` | src/radio/GaiaClient.js:169-247 | Parsing the frames of commands gives the commands |
| `Gaia.DecodeStable` | src/radio/GaiaClient.js:189-247 | More data changes no decision once taken |
| `Gaia.GaiaClient.OnData` | src/radio/GaiaClient.js:136-156 | The accumulator loop ends on every input and leaves what parsing leaves |
| `Tnc.ArrivesAfterAll` | src/radio/Radio.js:774-856 | After any sequence of fragments whatever, a frame is received from its fragments if and only if it has 1 to 3200 bytes |
| `Tnc.ArrivesExactly` | src/radio/Radio.js:289-334 | The same from every reachable accumulator; every sequence of fragments keeps an accumulator reachable (`Tnc.AlwaysReachable`) |
| `Tnc.FrameArrives` | src/radio/Radio.js:774-856 | Then exactly that frame is received, and the accumulator is empty |
| `Tnc.FramesArrive` | src/radio/Radio.js:774-856 | Frames sent one after another arrive in that order, whatever was received before |
| `Tnc.FramesArriveSoFar` | src/radio/Radio.js:774-856 | If only some of the fragments have come, what has arrived is a prefix of the frames |
| `Tnc.PackedUnpacks` | src/radio/Radio.js:289-334 | A fragment packed with its flags and channel is read as that fragment |
| `Tnc.RunFromStart` | src/radio/Radio.js:339-653 | In every run of the queue from its start: what was put in is what has left, in order, followed by what waits; at most the head is pending |
| `Tnc.RunOk` | src/radio/Radio.js:339-653 | Every run keeps this |
| `Tnc.Radio.SendTncFrame` | src/radio/Radio.js:289-334 | The fragments of the frame join the queue |
| `Tnc.Radio.ProcessTncQueue` | src/radio/Radio.js:339-381 | The head is transmitted if the channel is free and nothing is pending |
| `Tnc.Radio.OnSendData` | src/radio/Radio.js:604-653 | The answer to a transmission removes the head, keeps it for another try, or drops it |
| `Tnc.Radio.OnDataReceived` | src/radio/Radio.js:774-856 | A received fragment is added to what has been put together, or starts it anew |
| `Yapp.TransferOk` | src/bbs/yapp.js:486-755 | In every run over reliable links, with timers and cancellations at any time and with resuming: while data is sent, the receiver's file with what is under way is the sender's bytes up to its offset; a sender that is done means a receiver that has completed, with all of the file |
| `Yapp.FinishedRight` | src/bbs/yapp.js:739-841 | The completed file is the sender's if and only if what was kept of a resumed file is a beginning of it |
| `Yapp.Completes` | src/bbs/yapp.js:303-927 | Undisturbed, every transfer that is not refused completes, whatever the block size and the checksum setting |
| `Yapp.WrongFile` | src/bbs/yapp.js:593-685 | It does go wrong: every transfer that is resumed behind bytes that are no beginning of the file completes with another file |
| `Yapp.NextInv` | src/bbs/yapp.js:303-927 | Every event keeps the invariant |
| `Yapp.BlockArrives` | src/bbs/yapp.js:303-340 | A block arrives if and only if it has at most 256 bytes and the receiver expects no checksum that is not sent |
| `YappTransfer.Transfer.SendDT` | src/bbs/yapp.js:303-340 | The next block, or the end of file, is sent |
| `YappTransfer.Transfer.ProcessSendModePacket` | src/bbs/yapp.js:486-548 | The sender's reaction to every message in every state |
| `YappTransfer.Transfer.ProcessReceiveModePacket` | src/bbs/yapp.js:550-589 | The receiver's reaction to every message in every state |
| `YappTransfer.Transfer.HandleHeader` | src/bbs/yapp.js:631-685 | What follows the reading of the header: the resume negotiation |
| `YappHeader.HeaderArrives` | src/bbs/yapp.js:271-301 | For every name, size and date: the header packet says that name and size if and only if the name is not empty, has no zero byte, and the header has at most 255 bytes |
| `YappHeader.ParseHeader` | src/bbs/yapp.js:593-629 | The parsing loop on every packet; exceptions are an outcome |
| `YappTransfer.Transfer.HandleDataPacket` | src/bbs/yapp.js:687-737 | A data packet, with its checksum if one is expected |
| `YappTransfer.Transfer.HandleTimeout` | src/bbs/yapp.js:880-927 | What is sent again when a timer of the sender expires |

## Left out

- Codec.RoundTrip: for a message with a code of more than 16 bits it says nothing; `SymbolCoder.EncodeChar` has the exact condition for each code, but behind a long code that comes out right more than 8 bits may be pending, of which the end of the stream drops some, and bits that come out wrong may still decode to something.
- Encoder.ChooseToken: the longest match is meant among positions of the message and the spaces inserted before it, as in the code; the window's first spaces are not searched.
- Lzss.BitsBound: `outBuf` is an array of the source's size; writes beyond it are dropped as in the source, and the bound shows that there are none.
- HuffmanCoder.Huffman.Update: the source has one class with static fields; here each layer has a class with its own.
- Connection.RunSafe: runs stay within one connected epoch and leave out drains steered by a REJ that exceed the window; `WindowLimits.DrainedWindow` says which these are. Link set-up, disconnection, FRMR and DM are not modelled.
- Connection.StepInv: timers and retries are drains and supervisory frames that may come at any time; retry counts and liveness are not modelled, nor is a send from inside a data callback.
- Ax25Session.Session.TakeInfo: the clock is a parameter, any number.
- Ax25Packet.FrameArrives: modulo 128 is left out (encoder and decoder shift N(R) differently), and so is the format that starts with byte 1.
- Ax25Packet.DecodeAX25Packet: packets modulo 128 and of the format that starts with byte 1 are told apart and not decoded further; a missing control byte reads as zero, which is what it does to the bits taken from it.
- WinlinkMail.Send: texts without line breaks. A subject of more than 252 bytes that has bytes 1, 2 or 4 is covered by `MailContainer.LongSubject` alone, and not at all if one of them is where its container is looked into, since the subject's own bytes are then the records. Text is a sequence of bytes: UTF-8, blanks beyond ASCII, `parseInt` of hexadecimal numbers, and the date behind its text are not modelled; neither is the unread flag, which is not sent.
- SbcCodec.Exchange: dual channel frames are left out of encoding, where the source reads beyond a one-element array; the decoder has them.
- SbcEncoder.Encode: takes the subband samples; the analysis filterbank is not modelled, and frames are valid combinations of non-negative numbers.
- SbcDecoder.Decode: gives the quantised codes; reconstruction of samples, uncoupling and the synthesis filterbank are not modelled.
- SbcBitStream.Writer.PutBits: widths of more than 24 bits only for the 32 zeros of the reserved header.
- Gaia.CommandsArrive: noise in front holds no sync byte and is followed by a frame; statistics counters are left out.
- Tnc.RunOk: the queue only; the bookkeeping of the dispatched frame and the channel conditions for transmitting are reduced to whether the channel is free.
- YappTransfer.Transfer.HandleHeader: takes the size that the header says; the header's bytes are read by `YappHeader.ParseHeader`, and a header that cannot be read, which cancels the transfer, is left out of the runs, as are the fields of the resume packet. What the file system does with the name is not modelled.
- Yapp.TransferOk: each message comes as one packet, in order; block sizes are at most 256; the object's one state is split into its sending and its receiving half, and the file is a sequence of bytes.
- Bluetooth, sockets, TLS, databases, MQTT, the web server, the bulletin board, APRS and BSS packets, authentication: I/O, text, or library calls.
- The text mailbox format of `serialize` and `deserialize`: it does not keep bodies of several lines.
