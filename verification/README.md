# Verified model of the OpenCTK core library

This project models the parts of OpenCTK's core library that carry their own logic, and proves what they
promise. Every `.dfy` file belongs to one program; `dafny verify dfyconfig.toml` checks it.

| area | files |
|---|---|
| machine words, bit strings, small helpers | `Words`, `BitSeq`, `Spelling`, `Wrappers` |
| bit counting | `BitWidth`, `BitCount` |
| bit buffer reader and writer | `BitCodes`, `BitBufferReader`, `BitBufferWriter`, `BitBufferStream` |
| Base64 | `Base64`, `Base64Decode`, `Base64Strict`, `Base64Bits`, `Base64Exact`, `Base64Modes`, `Base64Verdict` |
| signals and slots | `SlotTable`, `SignalTable`, `SignalProtocol`, `SignalMemory`, `SignalSlots`, `SignalInvariant`, `SignalRuns`, `SignalEffects`, `SignalHistory`, `SignalTheorems`, `SignalEmissions`, `SignalCalls`, `SignalOutcomes`, `SignalProgress`, `SignalDestruction`, `SignalDeadlock`, `SignalExamples` |
| implicit sharing, aligned allocation | `SharedData`, `AlignedMalloc` |
| integer parsing, comparison, clamp, gcd | `AsciiGrammar`, `AsciiParse`, `SafeCompare`, `SafeMinMax`, `Gcd` |

**How the areas are modelled**

* *Words.* A w-bit word is a natural number below 2^w. Shifts, masks and the bitwise operators are defined
  bit by bit; truncation is written out as `Low(x, w)` wherever the source relies on it. Three lemmas tie the
  recursive shifts to multiplication and division by powers of two.
* *Bit buffer.* Both classes keep the source's fields and loops. Their contracts speak about a plain sequence
  of bits: the writer replaces a range of the stream, and the reader does to its unread bits what a parser on
  bit strings says. Codes are printers and parsers on bit strings, proved inverse, canonical and prefix-free.
* *Base64.* The encoder fills an array in place. The decoder is two loops proved equal to a scan written as a
  recursive function; the theorems say what that function gives from the text alone, under every option.
* *Signals.* `SlotTable` gives the effect of each critical section as a function, `SignalTable` the source's
  loops over the slot vectors. `SignalProtocol` is a state machine whose activities are the running calls and
  whose transitions are single atomic actions: taking or releasing the mutex, one load or exchange of an atomic
  flag, one access to a counted list. User code, that is, callbacks and the destructors of callables, can start
  any call; such calls are activities like any other, and the call that runs the user code does not go on before
  they have ended. So every re-entrant and every multi-threaded schedule is a run. The slots a bulk removal
  destroys are destroyed while it holds the mutex, as in the source. An access to a deleted list, a second
  deletion or a count dropped below zero would set `fault`. The slots a `disconnect_if` condition matches are
  an arbitrary set. Atomics are sequentially consistent.
* *Shared data.* One object holds all pointers of an element type and the cells they share. Each method is
  specified by what the same operation does when every pointer owns its own copy.
* *Aligned allocation.* Addresses are 64-bit numbers; what `malloc` returns is a parameter with `malloc`'s
  promise as precondition. Stores by the program destroy every header word they overlap.

**Where the code and its description differ, the model follows the code**

* Base64 with whitespace allowed and padding required refuses text in whole unpadded quanta that ends in
  whitespace, although the same text without the whitespace is accepted (`Base64Modes.WhiteIsStrictOnStripped`
  has the exact condition, `Base64Modes.DanglingExample` an input).
* LEB128 decoding accepts overlong codes; `BitCodes.LebCanonical` says exactly which inputs decode to a value
  that is written back as it was read, and `BitCodes.OverlongLebExample` gives one that is not.
* `gcd` is wrong exactly when the greatest common divisor is the magnitude of the least integer of a signed
  type, and the recursive version moreover when the first argument is negative and the second zero, because it
  then returns the first one unchanged (`Gcd.GcdExact`, `Gcd.GcdExample`).
* `lcm` converts its arguments and its product to the common type, so a negative argument beside an unsigned one
  wraps around, and so does a product the type cannot hold (`Gcd.LcmTypedExact`, `Gcd.LcmTypedExample`).
* `getRightAlign` gives zero when adding the alignment wraps around, and the block behind `alignedMalloc` is
  too small exactly when the requested sum wraps around (`AlignedMalloc.RightAlignIsLeast` and
  `AlignedMalloc.FitsIffNoWrap`, with `RightAlignExample` and `WrappedRequestExample`).
* `disconnect_if`, `disconnect(gid)` and `disconnect_all` take slots off the list without clearing their
  connected flag, so an emission that already holds a snapshot still calls such slots. An emission gives a slot
  a turn exactly when the slot was on the list when the emission took its reference
  (`SignalEmissions.TurnIffListed`), and calls it exactly when the checks of that turn pass
  (`SignalCalls.CalledIffChecksPassed`); `SignalExamples.RemovedInBulkStillCalled` is such a run.
* `disconnect_if`, `disconnect(gid)` and `disconnect_all` destroy the slots they drop while they hold the mutex
  (`SignalDestruction.DestroyedUnderMutex` says exactly when). If the destructor of a callable then calls the
  signal, for instance because the callable owns a scoped connection, the two calls wait for each other for ever:
  `SignalExamples.DestructorDeadlocks` is such a run. Running calls can all return if and only if no destructor
  has made a call under the mutex, other than an emission of a blocked signal
  (`SignalDeadlock.CallsCanFinishIff`).

## Model

| member | source | states |
|---|---|---|
| BitBufferWriter.WritePartialByteBits | src/libs/core/source/text/octk_bit_buffer.cpp:50-65 | the masked byte holds the n source bits at the offset and the target's own bits everywhere else |
| BitBufferReader.BitBufferReader.constructor | src/libs/core/source/text/octk_bit_buffer.cpp:68-78 | a new reader is Ok and all bits of the buffer are unread |
| BitBufferReader.BitBufferReader.Invalidate | src/libs/core/source/text/octk_bit_buffer.hpp:53-56 | the failure state: not Ok, which every later read keeps |
| BitBufferReader.BitBufferReader.ReadBits | src/libs/core/source/text/octk_bit_buffer.cpp:92-138 | the next n bits as a number, most significant first, using exactly n bits; failure when fewer are left; failure is absorbing; the byte index stays total minus ceil(remaining/8) |
| BitBufferReader.BitBufferReader.ReadBit | src/libs/core/source/text/octk_bit_buffer.cpp:140-158 | the next bit, or failure at the end |
| BitBufferStream.ReadBitByBit | src/libs/core/source/text/octk_bit_buffer.cpp:92-158 | n single-bit reads folded most significant first meet the contract of ReadBits(n) |
| BitBufferReader.BitBufferReader.ConsumeBits | src/libs/core/source/text/octk_bit_buffer.cpp:160-174 | skips exactly n bits, or fails |
| BitBufferReader.BitBufferReader.ReadNonSymmetric | src/libs/core/source/text/octk_bit_buffer.cpp:176-190 | does what the ns(n) parser does to the unread bits |
| BitBufferReader.BitBufferReader.ReadExponentialGolomb | src/libs/core/source/text/octk_bit_buffer.cpp:192-209 | does what the Exp-Golomb parser does, failing on 32 or more leading zeros |
| BitBufferReader.BitBufferReader.ReadSignedExponentialGolomb | src/libs/core/source/text/octk_bit_buffer.cpp:211-222 | the signed value of the code number read |
| BitBufferReader.BitBufferReader.ReadLeb128 | src/libs/core/source/text/octk_bit_buffer.cpp:224-246 | does what the LEB128 parser does; no intermediate value wraps 64 bits |
| BitBufferReader.BitBufferReader.ReadString | src/libs/core/source/text/octk_bit_buffer.cpp:248-258 | the next n bytes at any bit offset, or failure |
| BitBufferWriter.BitBufferWriter.RemainingBitCount | src/libs/core/source/text/octk_bit_buffer.cpp:269-272 | consumed plus remaining bits are 8 times the size |
| BitBufferWriter.BitBufferWriter.ConsumeBits | src/libs/core/source/text/octk_bit_buffer.cpp:279-289 | the cursor moves by n if that many bits remain, else not at all |
| BitBufferWriter.BitBufferWriter.Seek | src/libs/core/source/text/octk_bit_buffer.cpp:299-308 | succeeds exactly for positions inside the buffer or at its end |
| BitBufferWriter.BitBufferWriter.WriteBits | src/libs/core/source/text/octk_bit_buffer.cpp:325-371 | exactly the bits from the cursor to cursor + n become the low n bits of the value; every other bit of the buffer is unchanged; nothing happens when they do not fit |
| BitBufferWriter.BitBufferWriter.WriteNonSymmetric | src/libs/core/source/text/octk_bit_buffer.cpp:373-388 | writes the ns(n) code of the value |
| BitBufferWriter.BitBufferWriter.SizeNonSymmetricBits | src/libs/core/source/text/octk_bit_buffer.cpp:390-398 | the length of the code that WriteNonSymmetric writes |
| BitBufferWriter.BitBufferWriter.WriteExponentialGolomb | src/libs/core/source/text/octk_bit_buffer.cpp:400-414 | writes the Exp-Golomb code; refuses 2^32 - 1 |
| BitBufferWriter.BitBufferWriter.WriteSignedExponentialGolomb | src/libs/core/source/text/octk_bit_buffer.cpp:416-434 | writes the code of the mapped code number; refuses -2^31 |
| BitBufferWriter.BitBufferWriter.WriteLeb128 | src/libs/core/source/text/octk_bit_buffer.cpp:436-450 | writes the LEB128 bytes, each whole or not at all |
| BitBufferWriter.BitBufferWriter.WriteString | src/libs/core/source/text/octk_bit_buffer.cpp:452-460 | writes the bytes, each whole or not at all |
| BitCodes.NonSymmetricRoundTrip | src/libs/core/source/text/octk_bit_buffer.hpp:85-94 | the ns(n) parser undoes the printer in front of any text |
| BitCodes.NonSymmetricCanonical | src/libs/core/source/text/octk_bit_buffer.cpp:176-190 | a decoded value is below num_values and re-encodes to exactly the bits consumed |
| BitCodes.NonSymmetricPrefixFree | src/libs/core/source/text/octk_bit_buffer.cpp:373-398 | no ns(n) code is a prefix of another |
| BitCodes.NonSymmetricTiles | src/libs/core/source/text/octk_bit_buffer.hpp:85-94 | the ns(n) codes are as long as the width of n or one bit shorter, no shorter for greater values, and, read as binary fractions, follow each other in the order of the values without gap or overlap from zero to one; only one code does |
| BitCodes.GolombRoundTrip | src/libs/core/source/text/octk_bit_buffer.cpp:192-209 | the Exp-Golomb parser undoes the printer in front of any text |
| BitCodes.GolombCanonical | src/libs/core/source/text/octk_bit_buffer.cpp:192-209 | a decoded value is at most 2^32 - 2 and re-encodes to exactly the bits consumed |
| BitCodes.GolombPrefixFree | src/libs/core/source/text/octk_bit_buffer.cpp:400-414 | no Exp-Golomb code is a prefix of another |
| BitCodes.GolombForm | src/libs/core/source/text/octk_bit_buffer.cpp:400-414 | the one wide write is as many zeros as the value plus one has binary digits, less one, then those digits, the first of which is a one |
| BitCodes.SignedBijection | src/libs/core/source/text/octk_bit_buffer.cpp:211-222 | the signed mapping is a bijection, and maps exactly the 32-bit values other than -2^31 to codable numbers |
| BitCodes.SignedForm | src/libs/core/source/text/octk_bit_buffer.cpp:211-222 | code number k stands for (-1)^(k + 1) times half of k rounded up, as clause 9.1.1 of H.264 says |
| BitCodes.SignedOrder | src/libs/core/source/text/octk_bit_buffer.cpp:416-434 | code numbers grow with the magnitude, a positive value before its negative |
| BitCodes.LebRoundTrip | src/libs/core/source/text/octk_bit_buffer.cpp:224-246 | the LEB128 parser undoes the printer for every 64-bit value |
| BitCodes.LebForm | src/libs/core/source/text/octk_bit_buffer.cpp:436-450 | the bytes written spell the value with seven bits each, least significant byte first; all but the last are marked, and none is superfluous |
| BitCodes.LebParses | src/libs/core/source/text/octk_bit_buffer.cpp:224-246 | reading gives the number that the bytes spell, and fails exactly when the code is cut short or its tenth byte is more than one |
| BitCodes.LebLengthIs | src/libs/core/source/text/octk_bit_buffer.cpp:224-246 | the code ends at the first byte that is not marked, or at the tenth |
| BitCodes.LebRange | src/libs/core/source/text/octk_bit_buffer.cpp:224-246 | a decoded value fits the bits that the bytes read so far leave, so the whole value fits 64 bits |
| BitCodes.LebCanonical | src/libs/core/source/text/octk_bit_buffer.cpp:224-246 | the code ends at the first byte below 128, or at the tenth; re-encoding gives the bits read exactly when that is the first byte or it is not zero |
| BitCodes.OverlongLebExample | src/libs/core/source/text/octk_bit_buffer.cpp:224-246 | the bytes 0x80 0x00 read as zero, which is written as one byte |
| BitCodes.TextRoundTrip | src/libs/core/source/text/octk_bit_buffer.cpp:248-258 | bytes written are bytes read |
| BitCodes.StreamRoundTrip | src/libs/core/source/text/octk_bit_buffer.cpp:92-258 | parsing a concatenation of codes of any kinds gives back the items and uses exactly their bits |
| BitBufferStream.WriteItem | src/libs/core/source/text/octk_bit_buffer.cpp:325-460 | a write succeeds exactly when the code fits; if it does not, exactly the whole bytes that fit are written by the byte-wise codes and nothing by the others; no other bit changes |
| BitBufferStream.WriteItems | src/libs/core/source/text/octk_bit_buffer.cpp:325-460 | a run of writes succeeds exactly when all codes fit, and then the stream holds their concatenation; otherwise it holds the part of it up to the first item that does not fit, with what fits of that item; no other bit changes |
| BitBufferStream.ReadItems | src/libs/core/source/text/octk_bit_buffer.cpp:92-258 | a run of reads does what the parser of the concatenation does |
| BitBufferStream.WriteThenRead | src/libs/core/source/text/octk_bit_buffer.cpp:92-460 | any items written from any bit offset, if all writes succeed, are read back exactly by the matching reads; the reader ends Ok at the writer's position; no bit outside the range changed |
| BitWidth.CountLeadingZeroes32 | src/libs/core/source/numerics/octk_bits.hpp:139-176 | the cascade gives 32 minus the number of binary digits |
| BitWidth.CountLeadingZeroes64 | src/libs/core/source/numerics/octk_bits.hpp:189-245 | the cascade gives 64 minus the number of binary digits |
| BitWidth.BitWidth32 | src/libs/core/source/numerics/octk_bits.hpp:450-453 | the n with 2^(n-1) <= x < 2^n |
| BitWidth.BitWidth64 | src/libs/core/source/numerics/octk_bits.hpp:450-453 | the n with 2^(n-1) <= x < 2^n |
| BitWidth.WidthUnique | src/libs/core/source/numerics/octk_bits.hpp:447-453 | that n is unique |
| BitWidth.SingleBitIsPow2 | src/libs/core/source/numerics/octk_bits.hpp:442-445 | the mask test holds exactly for powers of two |
| BitWidth.BitFloor32 | src/libs/core/source/numerics/octk_bits.hpp:455-461 | the greatest power of two not above x, and 0 for 0 |
| BitWidth.BitFloor64 | src/libs/core/source/numerics/octk_bits.hpp:455-461 | the greatest power of two not above x, and 0 for 0 |
| BitWidth.BitCeil32 | src/libs/core/source/numerics/octk_bits.hpp:463-477 | the least power of two not below x, when 32 bits can hold it |
| BitWidth.BitCeil64 | src/libs/core/source/numerics/octk_bits.hpp:463-477 | the least power of two not below x, when 64 bits can hold it |
| BitCount.Popcount32 | src/libs/core/source/numerics/octk_bits.hpp:105-115 | masks, shifts and the multiplication give the number of one bits |
| BitCount.Popcount64 | src/libs/core/source/numerics/octk_bits.hpp:117-128 | masks, shifts and the multiplication give the number of one bits |
| BitCount.MergeStep | src/libs/core/source/numerics/octk_bits.hpp:112-112 | adding the masked halves joins the counts of neighbouring fields, for any number of fields |
| BitCount.FoldStep | src/libs/core/source/numerics/octk_bits.hpp:113-113 | adding before masking joins them when the sums fit their fields |
| BitCount.CountTrailingZeroesNonzero32 | src/libs/core/source/numerics/octk_bits.hpp:262-286 | the five mask tests give the number of trailing zeros |
| BitCount.CountTrailingZeroesNonzero64 | src/libs/core/source/numerics/octk_bits.hpp:288-324 | the six mask tests give the number of trailing zeros |
| BitCount.LowestBit | src/libs/core/source/numerics/octk_bits.hpp:273-275 | x & (~x + 1) is the lowest set bit |
| BitCount.ShiftCountIsMod | src/libs/core/source/numerics/octk_bits.hpp:91-92 | masking a shift count, also a negative one, gives its remainder by the width |
| BitCount.RotateBits | src/libs/core/source/numerics/octk_bits.hpp:85-103 | rotation by any s, also negative, moves bit i - s to bit i around the word |
| BitCount.RotateInverse | src/libs/core/source/numerics/octk_bits.hpp:85-103 | rotating right by s undoes rotating left by s |
| Base64.TablesInverse | src/libs/core/source/text/octk_base64.cpp:36-81 | the tables are inverse; the marks are exactly the characters outside the alphabet, the padding mark that of '=', and the whitespace mark that of tab, line feed, vertical tab, form feed, carriage return and space |
| Base64.TableIsAlphabet | src/libs/core/source/text/octk_base64.cpp:36-39 | the encoding table is the 64-character alphabet, letter by letter |
| Base64.Regrouping | src/libs/core/source/text/octk_base64.cpp:125-156 | three bytes and four sextets determine each other |
| Base64.EncodeFromArray | src/libs/core/source/text/octk_base64.cpp:109-158 | the array filled in place holds the encoding |
| Base64Bits.EncodeBits | src/libs/core/source/text/octk_base64.cpp:109-158 | an encoding is digits whose bits, six each, are the bits of the bytes and two zero bits for each padding character, then the padding |
| Base64Bits.UnpackBits | src/libs/core/source/text/octk_base64.cpp:279-343 | digits decode to the whole bytes of their bits, and what is unused are the bits left over |
| Base64Decode.GetNextQuantum | src/libs/core/source/text/octk_base64.cpp:160-246 | digits, padding verdict and position of the next quantum, with incomplete padding given back; what these are in terms of the text, Base64Exact and Base64Verdict prove |
| Base64Decode.DecodeFromArray | src/libs/core/source/text/octk_base64.cpp:279-343 | terminates under all flags and gives the verdict, bytes and position of the decoding function |
| Base64Strict.StrictSound | src/libs/core/source/text/octk_base64.cpp:160-343 | what strict decoding accepts is the encoding of what it returns, to the end of the input |
| Base64Strict.StrictComplete | src/libs/core/source/text/octk_base64.cpp:160-343 | strict decoding of an encoding succeeds, returns the bytes and uses all input |
| Base64Strict.StrictAcceptsExactlyEncodings | src/libs/core/source/text/octk_base64.cpp:109-343 | strict decoding succeeds if and only if the input is the encoding of some bytes, and re-encoding gives the input back |
| Base64Strict.DecodeEncode | src/libs/core/source/text/octk_base64.cpp:109-343 | decoding undoes encoding |
| Base64Strict.EncodeInjective | src/libs/core/source/text/octk_base64.cpp:109-158 | distinct bytes have distinct encodings |
| Base64Exact.StrictExact | src/libs/core/source/text/octk_base64.cpp:160-343 | strict-character decoding, under every padding and termination option: bytes of the longest run of alphabet characters; padding right after it used exactly if it is allowed and fills the last group; verdict and position follow from these |
| Base64Exact.WhiteExact | src/libs/core/source/text/octk_base64.cpp:160-343 | whitespace-tolerant decoding gives the exact result of the text without its whitespace, stops past any whitespace, and moreover refuses dangling text when padding is required |
| Base64Exact.PaddingRefused | src/libs/core/source/text/octk_base64.cpp:172-176 | where padding is not allowed and the end must be reached, strict and whitespace-tolerant decoding refuse every text with a padding character |
| Base64Exact.PaddingRefusedExample | src/libs/core/source/text/octk_base64.cpp:333-337 | "QQ==" without padding allowed gives one byte, uses two characters and is refused at the end of the buffer |
| Base64Modes.WhiteIsStrictOnStripped | src/libs/core/source/text/octk_base64.cpp:160-343 | whitespace-tolerant decoding gives the bytes of strict decoding of the stripped input, the same position, past any whitespace, and the same verdict if and only if it is not the case that padding is required and the input is whole unpadded quanta followed by whitespace |
| Base64Modes.DanglingExample | src/libs/core/source/text/octk_base64.cpp:298-337 | "QUJD " is an input where the verdicts differ |
| Base64Modes.AnyUnpacks | src/libs/core/source/text/octk_base64.cpp:160-343 | in parse-any mode the bytes are those of the alphabet characters alone |
| Base64Modes.AnyDependsOnAlphabetOnly | src/libs/core/source/text/octk_base64.hpp:41-60 | inputs with the same alphabet characters decode to the same bytes, and to the same verdict when neither padding nor the end of the buffer matters |
| Base64Modes.AnyRecoversNoisyEncoding | src/libs/core/source/text/octk_base64.hpp:41-60 | an encoding interleaved with any other characters still decodes to its bytes |
| Base64Modes.LaxDecodesEncodings | src/libs/core/source/text/octk_base64.hpp:58-60 | the lax options accept every encoding and give its bytes |
| Base64Verdict.AnyVerdict | src/libs/core/source/text/octk_base64.cpp:160-343 | parse-any decoding succeeds, under every padding and termination option, if and only if the text ends with a full group, or the last group has no stray bits (unless any end is allowed), its padding fills it where padding is required, and no incomplete padding follows it where the end of the buffer must be reached |
| Base64Verdict.AnyUsed | src/libs/core/source/text/octk_base64.cpp:232-343 | parse-any decoding uses all the input, unless padding that counts does not fill the last group: then it stops at the first such padding character |
| Base64Verdict.PartialPaddingExample | src/libs/core/source/text/octk_base64.cpp:232-243 | "QQ=!" decodes to one byte under all options, and is refused exactly when padding is required or padding counts and the end of the buffer must be reached |
| SlotTable.AddSlotEffect | src/libs/core/source/kernel/octk_signals.hpp:1781-1804 | adding keeps group order and indices and adds exactly the slot |
| SlotTable.AddSlotAppends | src/libs/core/source/kernel/octk_signals.hpp:1781-1804 | the new slot comes last in its group, and the slots of every other group stay in their order |
| SlotTable.CleanEffect | src/libs/core/source/kernel/octk_signals.hpp:1739-1763 | removal through the index removes exactly the slot, or nothing if it is no longer listed, and keeps order and indices |
| SlotTable.WhereListed | src/libs/core/source/kernel/octk_signals.hpp:1753-1758 | a listed slot is at its index in its group, so a stale index never names another slot |
| SlotTable.SwapPopMultiset | src/libs/core/source/kernel/octk_signals.hpp:1755-1757 | swap and pop is removal from the multiset |
| SlotTable.DisconnectIfEffect | src/libs/core/source/kernel/octk_signals.hpp:1807-1836 | removes exactly the matching slots and returns their number |
| SlotTable.DisconnectGroupEffect | src/libs/core/source/kernel/octk_signals.hpp:1678-1691 | removes exactly the slots of the group and returns their number |
| SlotTable.ClearEffect | src/libs/core/source/kernel/octk_signals.hpp:1839-1839 | leaves no slot |
| SignalTable.SlotList.Append | src/libs/core/source/kernel/octk_signals.hpp:1781-1804 | the loop finds the place of the group; order and indices are kept and exactly the new slot is added |
| SignalTable.SlotList.CleanSlot | src/libs/core/source/kernel/octk_signals.hpp:1739-1763 | exactly the slot is removed, if it is still listed; order and indices are kept |
| SignalTable.SlotList.RemoveIf | src/libs/core/source/kernel/octk_signals.hpp:1807-1836 | the nested loops terminate, remove exactly the matching slots, return their number, and keep order and indices |
| SignalTable.SlotList.RemoveGroup | src/libs/core/source/kernel/octk_signals.hpp:1678-1691 | removes exactly the slots of the group and returns their number |
| SignalTable.SlotList.RemoveAll | src/libs/core/source/kernel/octk_signals.hpp:1697-1701 | no slot is listed any more |
| SignalTable.SlotList.SlotCount | src/libs/core/source/kernel/octk_signals.hpp:1724-1733 | counts every listed slot once |
| SignalMemory.MemoryStep | src/libs/core/source/kernel/octk_signals.hpp:417-506 | every atomic action keeps: counts equal holders, snapshots intact, one critical section at a time, each unreferenced list about to be deleted by one activity |
| SignalMemory.DoomedAlone | src/libs/core/source/kernel/octk_signals.hpp:460-466 | nobody else refers to a list that is about to be deleted |
| SignalMemory.NotHeldByReaders | src/libs/core/source/kernel/octk_signals.hpp:484-491 | a writer past the uniqueness test is alone with the list it changes |
| SignalSlots.MutateSlots | src/libs/core/source/kernel/octk_signals.hpp:1678-1839 | every critical section keeps the list well formed and the ledger of added, removed and cleaned slots exact |
| SignalSlots.ExchangeSlots | src/libs/core/source/kernel/octk_signals.hpp:589-597 | the exchange schedules at most one cleanup for a slot |
| SignalRuns.InvStep | src/libs/core/source/kernel/octk_signals.hpp:1278-1857 | every transition keeps the whole invariant |
| SignalEffects.CriticalSections | src/libs/core/source/kernel/octk_signals.hpp:1678-1839 | in every run the list changes only by mutations; connect adds its slot, clean removes its own, disconnect_if the matching slots, disconnect(gid) those of the group, disconnect_all everything; the records of added, removed and cleaned slots grow by just that |
| SignalEffects.BulkTakesSelected | src/libs/core/source/kernel/octk_signals.hpp:1678-1836 | after a bulk removal a slot is listed if and only if it was and was not selected, and exactly the listed slots selected are on record as removed |
| SignalEffects.SequentialList | src/libs/core/source/kernel/octk_signals.hpp:1678-1839 | however calls are interleaved, the list is the one that the operations performed so far, one after another, make of an empty list |
| SignalOutcomes.CallPerformedOnce | src/libs/core/source/kernel/octk_signals.hpp:1678-1839 | every connect, disconnect, disconnect_if or disconnect_all call that has returned did its operation to the list at exactly one moment between its start and its return |
| SignalOutcomes.EmissionOutcome | src/libs/core/source/kernel/octk_signals.hpp:1339-1357 | every emission that has returned found the signal blocked, or found it unblocked and gave a turn to exactly the slots that were on the list at one later moment before its return |
| SignalOutcomes.CountOutcome | src/libs/core/source/kernel/octk_signals.hpp:1724-1733 | every slot_count that has returned counted the slots that were on the list at one moment between its start and its return |
| SignalHistory.FlagsAreHistory | src/libs/core/source/kernel/octk_signals.hpp:589-601 | a slot is blocked exactly if its last block or unblock call blocked it, likewise the signal; a slot is disconnected exactly if a disconnect call was made for it or an emission found its object gone |
| SignalHistory.SlotAsConnected | src/libs/core/source/kernel/octk_signals.hpp:1371-1400 | a slot keeps the group and the tracked object it was connected with |
| SignalTheorems.MemorySafety | src/libs/core/source/kernel/octk_signals.hpp:417-506 | in every state of every run: no deleted list is accessed or deleted again, each count is the number of holders, and a held list is neither changed nor deleted |
| SignalTheorems.CopiedIffShared | src/libs/core/source/kernel/octk_signals.hpp:484-502 | a writer copies the list if and only if somebody else holds it |
| SignalTheorems.NothingLeaks | src/libs/core/source/kernel/octk_signals.hpp:460-491 | when no call is running, only the current list is left |
| SignalTheorems.ListIsLedger | src/libs/core/source/kernel/octk_signals.hpp:1678-1763 | in every state the list is well formed, each slot is cleaned at most once, a listed slot is connected or has its cleanup pending, and with none pending the list is what was added minus what was removed by any route; SignalEffects.CriticalSections says which slots each removal takes |
| SignalTheorems.SlotCountIsExact | src/libs/core/source/kernel/octk_signals.hpp:1724-1733 | slot_count, however interleaved, returns the number of slots that had been added and not yet taken off the list when it took its reference |
| SignalTheorems.SlotCountWithoutCleanup | src/libs/core/source/kernel/octk_signals.hpp:1724-1733 | with no cleanup pending at that moment, that is the number of slots added and neither removed in bulk nor disconnected |
| SignalTheorems.EmissionOrder | src/libs/core/source/kernel/octk_signals.hpp:1339-1357 | an emission gives the slots of its snapshot one turn each, in ascending group order, and all of them before it releases it |
| SignalTheorems.LateSlotsNotVisited | src/libs/core/source/kernel/octk_signals.hpp:1339-1357 | a slot added after the snapshot gets no turn |
| SignalTheorems.CalledOnlyIf | src/libs/core/source/kernel/octk_signals.hpp:1083-1095 | a callback runs only after its slot was found, within the same turn, connected, unblocked and, if tracked, its object alive and the slot still connected; a tracked object is alive while the callback runs |
| SignalTheorems.DisconnectedNotCalled | src/libs/core/source/kernel/octk_signals.hpp:873-880 | a slot disconnected through a connection outside its turn is never called by that emission again |
| SignalEmissions.TurnIffListed | src/libs/core/source/kernel/octk_signals.hpp:1339-1357 | an emission that has been through its snapshot gave a slot a turn if and only if the slot had been added, and not removed by any route, when the emission took its reference |
| SignalEmissions.RemovedBeforeNoTurn | src/libs/core/source/kernel/octk_signals.hpp:1667-1701 | a slot removed by any route before an emission takes its reference gets no turn in it |
| SignalExamples.RemovedInBulkStillCalled | src/libs/core/source/kernel/octk_signals.hpp:1697-1701 | a run in which disconnect_all removes a slot before its turn and the emission under way calls it |
| SignalCalls.CalledIffChecksPassed | src/libs/core/source/kernel/octk_signals.hpp:1326-1357 | a turn called its slot if and only if none of its checks failed; a turn that called found the slot connected, unblocked and, if tracked, its object alive and the slot still connected |
| SignalDeadlock.NeverStuck | src/libs/core/source/kernel/octk_signals.hpp:1739-1771 | in every state with a running call some running call can act, unless a destructor has made a call under the mutex that will want the mutex: calls made by callbacks, cleanups an emission waits for and the mutex cause no other deadlock |
| SignalProgress.EveryActionCounts | src/libs/core/source/kernel/octk_signals.hpp:1339-1357 | every action of a running call lowers the work left, so no schedule goes on for ever without new calls |
| SignalDeadlock.CallsFinish | src/libs/core/source/kernel/octk_signals.hpp:1339-1357 | every run without such a call can be prolonged, by actions of running calls alone, to one where all calls have returned |
| SignalDeadlock.CallsCanFinishIff | src/libs/core/source/kernel/octk_signals.hpp:1678-1771 | the running calls can all return, without new calls, if and only if no destructor has made a call under the mutex, other than an emission of a blocked signal |
| SignalDeadlock.DeadlockedForEver | src/libs/core/source/kernel/octk_signals.hpp:1678-1701 | a call that waits for the mutex and was made by a destructor under the mutex waits in every later state, and the mutex is never released |
| SignalExamples.DestructorDeadlocks | src/libs/core/source/kernel/octk_signals.hpp:742-760 | a run in which disconnect(1) destroys a callable with a scoped connection to a slot of group 0 and deadlocks |
| SignalDestruction.DestroyedUnderMutex | src/libs/core/source/kernel/octk_signals.hpp:1678-1701 | a slot is destroyed while the mutex is held if and only if a bulk removal takes it off the list and no snapshot, connect or disconnect call refers to it |
| SignalDestruction.SingleDestroysNothing | src/libs/core/source/kernel/octk_signals.hpp:1739-1804 | adding a slot and cleaning one destroy no slot under the mutex |
| SignalDestruction.DiscardingDestroysNothing | src/libs/core/source/kernel/octk_signals.hpp:484-491 | deleting the replaced list in write() destroys no slot, because the copy holds them all |
| SharedData.Pointers.Deref | src/libs/core/source/memory/octk_shared_data.hpp:123-129 | the cell is deleted exactly when the last reference goes; no pointer shows a change |
| SharedData.Pointers.Construct | src/libs/core/source/memory/octk_shared_data.hpp:122-138 | the new pointer shows the value |
| SharedData.Pointers.ConstructFrom | src/libs/core/source/memory/octk_shared_data.hpp:131-146 | a pointer made from null or from an object that already has an owner shows its value |
| SharedData.Pointers.CopyConstruct | src/libs/core/source/memory/octk_shared_data.hpp:139-146 | as copying the value |
| SharedData.Pointers.AssignFrom | src/libs/core/source/memory/octk_shared_data.hpp:147-163 | as assigning the value, also for self-assignment |
| SharedData.Pointers.AssignPointer | src/libs/core/source/memory/octk_shared_data.hpp:164-180 | assigning null or an object that already has an owner, also the pointer's own, is assigning its value |
| SharedData.Pointers.AssignFresh | src/libs/core/source/memory/octk_shared_data.hpp:164-180 | assigning an object without owner is assigning a new value |
| SharedData.Pointers.MoveConstruct | src/libs/core/source/memory/octk_shared_data.hpp:181-185 | the value moves and the source becomes null |
| SharedData.Pointers.MoveAssignFrom | src/libs/core/source/memory/octk_shared_data.hpp:186-191 | the value moves, also onto itself |
| SharedData.Pointers.SwapWith | src/libs/core/source/memory/octk_shared_data.hpp:195-195 | the values are exchanged |
| SharedData.Pointers.Remove | src/libs/core/source/memory/octk_shared_data.hpp:123-129 | only the destroyed pointer goes |
| SharedData.Pointers.Detach | src/libs/core/source/memory/octk_shared_data.hpp:86-92 | afterwards the pointer owns its cell alone, and no value has changed |
| SharedData.Pointers.DetachHelper | src/libs/core/source/memory/octk_shared_data.hpp:201-210 | the copy has count one and the old cell keeps its other owners |
| SharedData.Pointers.WriteThrough | src/libs/core/source/memory/octk_shared_data.hpp:93-116 | writing right after detach changes the value of that pointer only |
| SharedData.Execute | src/libs/core/source/memory/octk_shared_data.hpp:79-213 | any run of operations shows the values that the same run on deep copies shows, with every count equal to the number of owners |
| AlignedMalloc.ValidAlignmentIsPow2 | src/libs/core/source/memory/octk_aligned_malloc.cpp:50-58 | valid alignments are the powers of two |
| AlignedMalloc.RightAlignIsLeast | src/libs/core/source/memory/octk_aligned_malloc.cpp:43-48 | the least multiple not below the address if and only if the sum does not wrap, else zero |
| AlignedMalloc.RightAlignExample | src/libs/core/source/memory/octk_aligned_malloc.cpp:43-48 | the last address rounded up to an even one comes out as zero |
| AlignedMalloc.FitsIffNoWrap | src/libs/core/source/memory/octk_aligned_malloc.cpp:76-107 | header and user region lie inside the requested block if and only if the requested size does not wrap |
| AlignedMalloc.WrappedRequestExample | src/libs/core/source/memory/octk_aligned_malloc.cpp:87-107 | for 2^64 - 8 bytes an empty block is requested, and the user region is not inside it |
| AlignedMalloc.AllocationsApart | src/libs/core/source/memory/octk_aligned_malloc.cpp:87-107 | no user region or header of a live allocation meets those of another |
| AlignedMalloc.Memory.Allocate | src/libs/core/source/memory/octk_aligned_malloc.cpp:76-107 | null exactly for size zero or a bad alignment; otherwise the least suitable multiple, with every live allocation intact |
| AlignedMalloc.Memory.Free | src/libs/core/source/memory/octk_aligned_malloc.cpp:109-122 | frees exactly the block that malloc returned for the pointer |
| AlignedMalloc.Memory.UserWrite | src/libs/core/source/memory/octk_aligned_malloc.cpp:87-107 | stores inside an allocation leave every header readable |
| AsciiParse.CutoffTest | src/libs/core/source/text/octk_ascii.cpp:174-203 | the cutoff test is exactly "the next value exceeds 64 bits" |
| AsciiParse.ParseDigits | src/libs/core/source/text/octk_ascii.cpp:173-210 | the whole maximal run of digits is consumed, and its value saturates at 2^64 - 1 |
| AsciiParse.ParseLongLong | src/libs/core/source/text/octk_ascii.cpp:111-254 | for the numeral that the grammar finds at the start of the text: its sign, its magnitude limited to 64 bits and the position after it; zero and the start if there is none, as for a bad base |
| AsciiParse.Strtoll | src/libs/core/source/text/octk_ascii.cpp:472-494 | the mathematical value of that numeral, for digits of any number, clamped to the signed 64-bit range, and the position after it; zero and the start if there is none |
| AsciiParse.Strtoull | src/libs/core/source/text/octk_ascii.cpp:461-470 | its magnitude clamped to 64 bits, negated modulo 2^64 for a minus sign, and the position after it; zero and the start if there is none |
| AsciiGrammar.ValueOfNumerals | src/libs/core/source/text/octk_ascii.cpp:179-210 | the value of the digits of a number written in any base is the number |
| AsciiGrammar.MeaningOfText | src/libs/core/source/text/octk_ascii.cpp:133-254 | if the text is whitespace, an optional sign, a hexadecimal prefix where the base allows one and a digit follows, then all the digits of the base there are (base 0: 16, 8 after a leading zero, else 10), the scan finds just that sign, number and end; a prefix without a digit after it is read as its zero |
| AsciiGrammar.MeaningOfOther | src/libs/core/source/text/octk_ascii.cpp:233-254 | a text that has no such parts means zero and none of it is used |
| AsciiGrammar.WrittenNumber | src/libs/core/source/text/octk_ascii.cpp:133-254 | a number written in its base after any whitespace, sign and prefix is read back, with its sign and end |
| SafeCompare.BuiltInExact | src/libs/core/source/numerics/octk_safe_compare.hpp:69-77 | the built-in comparison is integer order when the common type holds both operands |
| SafeCompare.SafeIsIntegerOrder | src/libs/core/source/numerics/octk_safe_compare.hpp:59-161 | through all five overloads, every comparison of every two types agrees with integer order |
| SafeCompare.BuiltInIsNotIntegerOrder | src/libs/core/source/numerics/octk_safe_compare.hpp:102-113 | the built-in comparison does not |
| SafeMinMax.SafeMinExact | src/libs/core/source/numerics/octk_safe_minmax.hpp:152-209 | the true minimum, in the selected type or any that holds it |
| SafeMinMax.SafeMaxExact | src/libs/core/source/numerics/octk_safe_minmax.hpp:152-225 | the true maximum, in the selected type or any that holds it |
| SafeMinMax.MTypeLaws | src/libs/core/source/numerics/octk_safe_minmax.hpp:152-176 | the selected type is one of the two; for the minimum the least that holds every minimum, for the maximum one with the highest maximum |
| SafeMinMax.ClampTypeLaws | src/libs/core/source/numerics/octk_safe_minmax.hpp:251-300 | for all argument types: the clamp type holds every possible result, is no larger than the largest argument, has the first argument's sign if possible, and is the smallest such type of its sign |
| SafeMinMax.SafeClampExact | src/libs/core/source/numerics/octk_safe_minmax.hpp:304-325 | the true clamp, without wrap-around, in the clamp type or any wider one |
| Gcd.EuclidIsGcd | src/libs/core/source/numerics/octk_numeric.hpp:55-76 | the result divides both arguments and every common divisor divides it |
| Gcd.GcdUnique | src/libs/core/source/numerics/octk_numeric.hpp:55-76 | only one number has that property |
| Gcd.GcdIterative | src/libs/core/source/numerics/octk_numeric.hpp:65-76 | for every integer type, the greatest common divisor of the magnitudes, converted to the type |
| Gcd.RecursiveIsEuclid | src/libs/core/source/numerics/octk_numeric.hpp:55-64 | the recursive version gives the same, and the first argument unchanged when the second is zero |
| Gcd.GcdFits | src/libs/core/source/numerics/octk_numeric.hpp:55-76 | the greatest common divisor is a value of the type unless both arguments are zero or the least integer, and not both zero |
| Gcd.GcdExact | src/libs/core/source/numerics/octk_numeric.hpp:55-76 | for every integer type, the iterative version gives the greatest common divisor if and only if the type can hold it, the recursive one if and only if moreover the second argument is not zero or the first not negative |
| Gcd.GcdExample | src/libs/core/source/numerics/octk_numeric.hpp:55-76 | the recursive version gives -4 at -4 and 0; both give -128 for two 8-bit -128 |
| Gcd.LcmIsLeast | src/libs/core/source/numerics/octk_numeric.hpp:81-94 | lcm is a common multiple and divides every common multiple, so it is the least positive one |
| Gcd.LcmTypedExact | src/libs/core/source/numerics/octk_numeric.hpp:81-94 | if the common type is signed, or neither argument is negative, or one is zero, the result is the least common multiple if and only if the common type can hold it; for an unsigned type it is always that of the converted arguments, converted |
| Gcd.LcmTypedExample | src/libs/core/source/numerics/octk_numeric.hpp:81-94 | lcm of -1 and an unsigned 1 is 2^32 - 1, and lcm of 65536 and 65537, both unsigned, is 65536 |

## Left out

- BitBufferReader.BitBufferReader.ReadNonSymmetric: takes num_values up to 2^31 - 1, because 2^31 makes the source shift a 32-bit value by 32, which the language leaves undefined.
- BitBufferWriter.BitBufferWriter.WriteNonSymmetric: the same bound on num_values as the reader.
- BitBufferWriter.BitBufferWriter.WriteBits: takes 1 to 64 bits, because 0 makes the source shift a 64-bit value by 64.
- BitBufferStream.WriteThenRead: for buffers whose bit count fits a 32-bit int, which the reader's counter requires.
- The debug-only flag that warns about unverified reads, ConsumeBytes, GetCurrentOffset, WriteUInt16 and WriteUInt32: forwarding.
- Base64Modes.AnyDependsOnAlphabetOnly: compares verdicts only without required padding and end-of-buffer termination, where alone they depend on the alphabet characters; Base64Verdict.AnyVerdict has the verdict in every mode.
- Base64's `GetNextBase64Char` and `IsBase64Encoded`: one-line members.
- Moving a signal: its slots keep a reference to the original signal for cleanup.
- The single-threaded signal variant: its emissions iterate the live list.
- Matching of callables and objects in signals (`disconnect` by callable or object): conditions are arbitrary sets of slots.
- Destruction of a signal, observers and scoped connections: what they do to the signal are calls that are modelled, and a scoped connection inside a callable is user code of its destructor.
- Memory ordering weaker than sequential consistency.
- Exceptions thrown by callbacks or allocation.
- Explicitly shared pointers, with `take` and `reset`, and races between threads on implicitly shared ones.
- AlignedMalloc.Memory.Allocate: excludes requests whose sum wraps around 64 bits, which FitsIffNoWrap shows to be exactly the ones the source gets wrong, and a malloc that returns null, on which the source asserts.
- Compiler builtins in bit counting: only the portable branches are modelled.
- BitWidth.BitCeil64: for arguments up to 2^63, the documented precondition, as BitCeil32 up to 2^31; the 8- and 16-bit instances of bit_width, bit_floor and bit_ceil are left out.
- Gcd.LcmIsLeast: about the mathematical least common multiple; LcmTypedExact relates the code to it.
- Gcd.LcmTypedExact: for a negative argument that wraps, the result is given as that of the converted arguments; when it happens to be the mathematical one (-1 with 2^32 - 1, or -2^31 with 1) is a question about numbers that is left open.
- SignalDeadlock.CallsFinish: that user code returns when the calls it has made have returned is taken for granted; locks of its own are not modelled.
- errno, the floating-point conversions and the string validators of the ASCII module.
- Signed overflow in gcd and lcm, which the language leaves undefined for int and wider types: modelled as wrap-around.
- Floating-point arguments and enumerations in the comparison and clamp functions.
- Kernel objects and events, containers, JSON, logging, media, network, user interface and resource compiler.
