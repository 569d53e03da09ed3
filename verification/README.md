# NetCpp in Dafny

NetCpp is a small networking toolkit: a server that exchanges signed messages over
UDP, a text protocol for messages, hand-written cryptography, generators of random
numbers, a parser of project descriptions, and a vendored JSON library that every
request and post goes through. This project models the parts with the most logic and
proves what they are for. It has one module a component, and `dafny verify
dfyconfig.toml` checks all of it.

Where the code changes something step by step, so does the model: parsers, writers,
documents, pools, generators, contexts and servers are classes whose methods update
fields and arrays, and each such method is tied to a function or a relation about
which the lemmas speak. Everything else is values, functions and lemmas.

**JSON** (`JsonText`, `JsonParsers`, `JsonEquivalence`, `JsonReader`, `Itoa`,
`JsonScalars`, `JsonEscapes`, `JsonTree`, `JsonRoundTrip`, `JsonWriter`, `JsonDocument`). The
recursive-descent parser and the table-driven pushdown parser have the same outcome
on every text. Any tree written by the writer is parsed back, by either parser, into
the same tree. Any accepted text leaves exactly one value on the document's stack.
`JsonPointer` parses and prints pointers, `Encodings` transcodes UTF-8 and UTF-16,
`PoolAllocator` hands out the memory, in the 64-bit sums of the source.

**Numbers** (`Limbs`, `BigInteger`, `Diyfp`, `CachedPowers`, `DigitGen`, `Grisu`). The
digits of the Grisu2 printer are shortest between the scaled bounds, and for every
positive double they read back as that double; multi-limb arithmetic is exact.

**Cryptography** (`NumberTheory`, `Rsa`, `Sha1`, `Aes`, `AesCipher`, `AesModes`,
`Words`, `BitWords`, `BitLaws`, `Xoroshiro`, `JumpAhead`, `Rng`). RSA from key derivation
to the byte round trip, resting on Fermat's little theorem, which is proved here. SHA-1
in pieces against FIPS 180-4. AES-256 against FIPS 197 with CBC and CTR. Two generators
as bijections, and one jump of the larger one as 2^64 of its steps: the orbit of one state
is followed, squaring a mask 64 times along it leads to the mask of the jump, and sums of
the orbit reach every state.

**Transport** (`Bytes`, `Framing`, `Transport`, `Reassembly`, `Server`). A message
is framed, signed, split into boxes, received in any order and any number of times
while a countdown runs, joined and read. A run is a sequence of arrivals and ticks;
safety and liveness are about all runs, and the server object is shown to be, id by
id, at the state of its run.

**Messages and descriptions** (`MessageFactory`, `MessageParser`, `MessageSections`,
`MessageStream`, `ProjectBlocks`). The text codec with its checksum and sign, the parser
that finds messages in a byte stream fed in pieces, first with any decoders and then with
the shipped ones, and the reader of nested blocks.

## Where the code and its promises part

Each of these is kept in the model as the code has it, with the exact condition or a
concrete case proved.

- `src/rsa.cpp:41-54` multiplies in 64 bits: powers are exact only up to a modulus of
  2^32 (or one that divides 2^64), and the byte round trip holds exactly for 255 < pq <= 2^32
  (`Rsa.ModExpExactExactly`, `Rsa.RoundTripExactly`, `Rsa.ModExpOfTwoVanishes`).
- `src/server.cpp:300` announces size / 256 boxes and sends (size - 1) / 256. A
  message above 256 bytes whose size 256 divides is never complete
  (`Transport.CountIsRight`, `Reassembly.DeliverableExactly`).
- `src/communicate/message_parser.cpp:139-184` counts the body in wrapping 64-bit
  numbers; when a size of 2^64 - 2 is met, the result depends on how the input is split,
  and otherwise it does not (`MessageParser.PiecesExactly`). With the shipped decoders such a
  size is met (`MessageStream.PiecesDiffer`): the line `MSG 0 1 1`, the option line
  `"size":"18446744073709551614"`, its checksum, an empty line, `x` and in a second piece `y`.
- `src/communicate/message_factory.cpp:77` sums head and options, and
  `src/communicate/message_parser.cpp:84` has dropped the head when the options are
  decoded. The stream parser finds a message exactly when the checksum is that of the
  options alone, which the encoder never writes, so no encoded message is found, though
  `test/test_commu_modules/test_message.cpp:61-63` expects one (`MessageStream.MessageRead`,
  `MessageStream.EncodedIsRefused`, `MessageStream.EncodedIsLost`).
- `utils/rapidjson/allocators.h:193-234` rounds and adds sizes in 64 bits without a test. A
  pool stays sound exactly as long as no sum wraps (`PoolAllocator.HandedIsSoundExactly`,
  `PoolAllocator.Pool.Malloc`, `PoolAllocator.Pool.Realloc`); otherwise a live block can be
  given out again (`PoolAllocator.LiveBytesGivenAgain`, `PoolAllocator.GivesLiveBlockAgain`).
- `src/sha1.cpp:213` adds in 32 bits: the copies stay inside the buffer exactly when the bytes
  buffered and the new ones stay below 2^32 (`Sha1.CopiesStayInsideExactly`, `Sha1.CopyOverruns`).
- `utils/rapidjson/reader.h:738-851` counts members and elements in 32 bits: the document's
  assertion of one root holds exactly when no container has 2^32 or more entries
  (`JsonDocument.AcceptedTextIsOneTree`).
- `utils/rapidjson/pointer.h:965-975` tests for overflow after the wrap, and misses
  some numerals (`JsonPointer.PromiseKeptExactly`, `JsonPointer.OverflowMissed`), though
  lines 88-90 promise the invalid index for them.
- `utils/rapidjson/reader.h:1020-1030` lets the escape of a low surrogate pass alone, and
  writes bytes that are not UTF-8 (`JsonEscapes.EscapeIsUtf8Exactly`).
- `src/communicate/message_factory.cpp:235-251` reduces modulo 65535, which never
  acts on a signed 16-bit sum (`MessageFactory.ChecksumIsSum`).
- `utils/rapidjson/internal/biginteger.h:133` asserts room for one limb less than a
  shift by no multiple of 64 writes. A number can pass it and be written past the array
  (`BigInteger.ShiftStaysInsideExactly`, `BigInteger.BuildingOverruns`); which strings of
  digits are safe is stated by `BigInteger.BuildingExactly`, and all the number parser
  passes on are (`BigInteger.ShortStringsFit`).
- `include/cproj.h:203-204` goes on behind the character that follows the last `}` of a
  block, whatever it is. Without a `;` there, that character is lost, and when the brace
  ends the text the cut past the end throws (`ProjectBlocks.ReadKeepsExactly`,
  `ProjectBlocks.BraceAtEnd`, `ProjectBlocks.CharacterLost`, `ProjectBlocks.EndIsThrown`).

## Model

| member | source | states |
|---|---|---|
| `JsonEquivalence.ParsersAgree` | utils/rapidjson/reader.h:2176-2208 | For every text, every way the handler may stop the parse and every floating-point grammar, the table-driven parser and the recursive one have the same outcome: same verdict, same end position, same events with the same counts, also the events sent before a rejection. |
| `JsonEquivalence.ValueLockstep` | utils/rapidjson/reader.h:1736-1749 | From any consistent state that expects a value, running the automaton equals parsing one value recursively and then running on from the successor state with the same stack: the simulation behind the agreement. |
| `JsonEquivalence.ObjectLockstep` | utils/rapidjson/reader.h:738-803 | The same simulation for objects: pushing a frame, any members, and the pop with its member count match the recursive loop. |
| `JsonEquivalence.ArrayLockstep` | utils/rapidjson/reader.h:806-851 | The same simulation for arrays, including the close of an empty one. |
| `JsonParsers.TransitConsistent` | utils/rapidjson/reader.h:1995-2144 | Every transition of the automaton keeps its stack consistent with its state, so a pop never meets an empty stack and every frame returns to a state that may follow a value. |
| `JsonReader.Reader.Skip` | utils/rapidjson/reader.h:264-272 | The cursor moves to the first character that is not blank. |
| `JsonReader.Reader.ParseHex` | utils/rapidjson/reader.h:904-924 | Four hexadecimal digits give their number and move the cursor by four; any other character sets the error. |
| `JsonReader.Reader.ParseStringToStream` | utils/rapidjson/reader.h:989-1054 | The loop over a string token yields exactly the decoded text and end of the string grammar, or the error exactly when the grammar has none. |
| `JsonReader.Reader.ParseNumberToken` | utils/rapidjson/reader.h:1454-1733 | The digit loops with their 32- and 64-bit overflow guards send the event of the right width, or follow the floating-point grammar. |
| `JsonReader.Reader.ParseValue` | utils/rapidjson/reader.h:1736-1749 | Dispatch on the first character, with the outcome of the value grammar. |
| `JsonReader.Reader.ParseObject` | utils/rapidjson/reader.h:738-803 | The member loop with its counter has the outcome of the object grammar, from any cursor and event history. |
| `JsonReader.Reader.ParseArray` | utils/rapidjson/reader.h:806-851 | The element loop with its counter has the outcome of the array grammar. |
| `JsonReader.Reader.Parse` | utils/rapidjson/reader.h:557-588 | Leading and trailing blanks, one value, and nothing behind it. |
| `JsonReader.Reader.Transit` | utils/rapidjson/reader.h:1995-2144 | One transition on the mutable stack, cursor and error flag reaches the configuration of the automaton, or stops with the same events. |
| `JsonReader.Reader.IterativeParse` | utils/rapidjson/reader.h:2176-2208 | The driver loop reaches the outcome of the automaton. |
| `JsonReader.ParseBothWays` | utils/rapidjson/reader.h:557-588 | Two reader objects over one text, one driven by each parser, end with the same result. |
| `Itoa.U32toa` | utils/rapidjson/internal/itoa.h:39-113 | The table-driven printer of 32-bit numbers appends the shortest decimal numeral, digit group by digit group. |
| `Itoa.I32toa` | utils/rapidjson/internal/itoa.h:115-124 | Signed 32-bit numbers, including the smallest, whose negation wraps. |
| `Itoa.U64toa` | utils/rapidjson/internal/itoa.h:126-292 | All three size classes of 64-bit numbers print the shortest decimal numeral, with inner groups padded and the leading one not. |
| `Itoa.I64toa` | utils/rapidjson/internal/itoa.h:294-303 | Signed 64-bit numbers, including the smallest. |
| `JsonScalars.NumeralFolds` | utils/rapidjson/internal/itoa.h:126-292 | The numeral of n consists of digits, folds back to n in base ten and starts with 0 only for 0. |
| `JsonScalars.DigitsFit` | utils/rapidjson/reader.h:1482-1508 | A run of digits whose value stays within the limit (quotient and last digit) is read to its end and to its value. |
| `JsonScalars.DigitsOverflow` | utils/rapidjson/reader.h:1536-1559 | A run that exceeds the limit is left at a digit where nothing has been lost: value so far and remaining digits still fold to the whole. |
| `JsonScalars.IntegerParses` | utils/rapidjson/reader.h:1454-1733 | For every integer from -2^63 to 2^64-1, parsing its numeral sends that integer in the narrowest of the four event kinds and stops behind it. |
| `JsonScalars.StringTokenParses` | utils/rapidjson/reader.h:957-1054 | For every byte string, parsing its quoted and escaped form gives that string back, as a value or as a member name. |
| `JsonScalars.HexWordReads` | utils/rapidjson/reader.h:904-924 | Four hexadecimal digits are read back as the number they print. |
| `JsonEscapes.EscapedTextParses` | utils/rapidjson/reader.h:1016-1032 | For every list of code points, a string written in UTF-16 escapes throughout, surrogate pairs included, is parsed into the UTF-8 bytes of the same code points. |
| `JsonEscapes.ScalarEscapeParses` | utils/rapidjson/reader.h:1016-1032 | The one or two escapes of a code point are taken as one and give its UTF-8 bytes. |
| `JsonEscapes.EscapeIsUtf8Exactly` | utils/rapidjson/reader.h:1016-1032 | An accepted escape yields well-formed UTF-8 if and only if it is not a low surrogate standing alone. |
| `JsonRoundTrip.ValueParses` | utils/rapidjson/reader.h:738-851 | The rendering of any tree, anywhere in a text and followed by anything that ends a value, is parsed into exactly the events of the tree. |
| `JsonRoundTrip.ValueBuilds` | utils/rapidjson/document.h:2437-2477 | On any handler stack, the events of a tree push exactly that tree and leave the rest alone. |
| `JsonRoundTrip.PairUpFlatten` | utils/rapidjson/document.h:2461-2471 | Members popped as a flat run of names and values pair up to the same members in the same order. |
| `JsonRoundTrip.RoundTrip` | utils/rapidjson/document.h:2259-2269 | For every finite tree of nulls, booleans, integers, strings, arrays and objects, both parsers accept its text to the end and the document built from their events is the tree. |
| `JsonWriter.ValueWrites` | utils/rapidjson/writer.h:472-490 | From any level the events of a tree write the separator the level calls for and the rendering of the tree, and no assertion of the writer fails on the way. |
| `JsonWriter.TreeWrites` | utils/rapidjson/document.h:1868-1905 | From an empty writer the events of a tree leave exactly its rendering, all levels closed and a root written. |
| `JsonWriter.Writer.WritePrefix` | utils/rapidjson/writer.h:472-490 | Comma, colon or nothing by level kind and value count, and the count goes up by one. |
| `JsonWriter.Writer.WriteString` | utils/rapidjson/writer.h:376-448 | The loop over a string writes its quoted, escaped form. |
| `JsonWriter.Writer.Key` | utils/rapidjson/writer.h:221-221 | A member name is written as a string in name position. |
| `JsonWriter.Writer.Uint64` | utils/rapidjson/writer.h:339-346 | A 64-bit number is written behind its separator. |
| `JsonWriter.Writer.StartObject` | utils/rapidjson/writer.h:215-219 | Opens a level with no values and writes the brace. |
| `JsonWriter.Writer.EndObject` | utils/rapidjson/writer.h:230-237 | Closes the level of an object, with the count of values even. |
| `JsonWriter.Writer.EndArray` | utils/rapidjson/writer.h:245-251 | Closes the level of an array. |
| `JsonWriter.Accept` | utils/rapidjson/document.h:1868-1905 | Walking a tree with a mutable writer, in any legal state, adds separator and rendering and restores the levels. |
| `JsonWriter.Stringify` | utils/rapidjson/document.h:1868-1905 | A new writer fed with a tree holds the rendering of the tree. |
| `JsonDocument.Document.Handle` | utils/rapidjson/document.h:2437-2459 | Each handler method changes the value stack as the event says. |
| `JsonDocument.Document.EndObject` | utils/rapidjson/document.h:2465-2469 | Pops two values a member and sets them, in order, into the object below. |
| `JsonDocument.Document.EndArray` | utils/rapidjson/document.h:2473-2477 | Pops the elements and sets them, in order, into the array below. |
| `JsonDocument.AcceptedTextIsOneTree` | utils/rapidjson/document.h:2259-2269 | For every accepted text: its events leave exactly one value on the stack, as the document asserts, if and only if no array or object of the text is closed after 2^32 or more entries; a text below 4 GiB never is. |
| `JsonDocument.ParseDocument` | utils/rapidjson/document.h:2259-2269 | Either parser drives the mutable handler to the one value of the text, or rejects it, whenever the counts of the text fit 32 bits; a rendered tree comes back as itself. |
| `JsonDocument.WriteThenParse` | utils/rapidjson/document.h:1868-1905 | Any representable tree, writer object, text, reader object, document object: the tree comes back. |
| `Diyfp.ProductsAgree` | utils/rapidjson/internal/diyfp.h:71-99 | The portable product over four halves and the 128-bit product agree, and both are the exact product rounded at bit 64. |
| `Diyfp.MultiplyRounds` | utils/rapidjson/internal/diyfp.h:71-99 | The significand of a product is the exact product divided by 2^64 and rounded half up, without wrap-around. |
| `Diyfp.NormalizeByLoop` | utils/rapidjson/internal/diyfp.h:102-119 | The shift loop reaches the one significand with its top bit set; value and exponent match. |
| `Diyfp.NormalizeBoundary` | utils/rapidjson/internal/diyfp.h:121-130 | Both stages, to bit 54 and then by ten, reach the same normal form. |
| `Diyfp.NormalizedBoundaries` | utils/rapidjson/internal/diyfp.h:132-139 | The two boundaries share the exponent of the normalised value and lie half an ulp above, and half or a quarter below at a power of two. |
| `Diyfp.OddNeighbour` | utils/rapidjson/internal/diyfp.h:132-139 | 2f+1 has one leading zero less than f, so its normal form is that of f plus the half gap, and it fits 64 bits. |
| `Diyfp.LowerMidpoint` | utils/rapidjson/internal/diyfp.h:132-139 | The lower boundary shifted to the exponent of the upper one neither underflows nor loses a bit. |
| `DigitGen.GrisuRound` | utils/rapidjson/internal/dtoa.h:35-42 | The loop only lowers the last digit and never below 0, keeps the number within delta, and stops at the candidate closest to w. |
| `DigitGen.CountIsEnough` | utils/rapidjson/internal/dtoa.h:44-58 | For numbers below 10^9 the count of digits is large enough, although ten-digit numbers are not counted. |
| `DigitGen.IntegralDigits` | utils/rapidjson/internal/dtoa.h:60-91 | The first loop: either a shortest digit string has been found, or the digits and rest still make up m exactly. |
| `DigitGen.FractionDigits` | utils/rapidjson/internal/dtoa.h:92-110 | The second loop ends within 21 characters in all, never wraps 64 bits, and yields a shortest digit string. |
| `DigitGen.DigitGen` | utils/rapidjson/internal/dtoa.h:60-110 | For exponents -60..-32, an integral part below 10^9 and 0 < delta < Mp.f: the digits scaled by 10^kappa lie within delta below Mp, no shorter digit string does, at most 21 characters are written, and of that length the one nearest to W is chosen as far as the table of powers reaches. |
| `DigitGen.BoundsInOrder` | utils/rapidjson/internal/dtoa.h:112-124 | The narrowed bounds are in order around the scaled value and nothing wraps, so delta is positive. |
| `DigitGen.DigitsStayInside` | utils/rapidjson/internal/dtoa.h:112-124 | When the cached power is within half a unit of the real power of ten, the digits lie strictly between the scaled rounding boundaries of the floating-point number. |
| `CachedPowers.TableIsRounded` | utils/rapidjson/internal/diyfp.h:175-235 | Each of the 87 entries is normalised and within half a unit of the power of ten it stands for, as an exact fraction. |
| `CachedPowers.GetCachedPower` | utils/rapidjson/internal/diyfp.h:238-250 | For every exponent for which the index lies in the table: the power chosen brings the product to an exponent from -60 to -34, and at -34 its significand leaves fewer than ten digits before the point. |
| `Grisu.DigitsReadBack` | utils/rapidjson/internal/dtoa.h:112-124 | Shortest digits between the scaled bounds, times their power of ten, lie strictly between the midpoints from v to its neighbours, for every entry of the table. |
| `Grisu.Grisu2` | utils/rapidjson/internal/dtoa.h:112-124 | For every positive double, normal or not: at most 21 digits; as a decimal number they are nearer to it than to any other double, so reading them gives it back; no shorter digits lie between the scaled bounds, and none of that length is nearer, as far as the table of small powers reaches. |
| `BigInteger.BigInteger.FromDecimals` | utils/rapidjson/internal/biginteger.h:40-53 | Built from a non-empty decimal string in chunks of nineteen digits, the limbs hold exactly the number the string denotes, in normal form, whenever the last chunk leaves the limb that the shift writes. |
| `BigInteger.BuildingExactly` | utils/rapidjson/internal/biginteger.h:40-53 | For every string of digits: building meets no failed assertion and no write past the array if and only if n * 5^k < 2^(64 * 415), where k digits are in the last chunk and n stands before it. |
| `BigInteger.AppendedExactly` | utils/rapidjson/internal/biginteger.h:224-232 | Appending a chunk goes well exactly when it fits; beyond that it is written past the array while the product has 416 limbs, and an assertion fails when it has more. |
| `BigInteger.BuildingOverruns` | utils/rapidjson/internal/biginteger.h:133-133 | A string of digits that passes every assertion and is written past the array. |
| `BigInteger.ShortStringsFit` | utils/rapidjson/internal/strtod.h:208-210 | Every string of up to 6640 digits is built; the number parser keeps at most 768. |
| `BigInteger.AssertedButOutside` | utils/rapidjson/internal/biginteger.h:131-140 | A number of 416 limbs shifted by less than 64 bits passes the assertion, and the place behind the array is written. |
| `BigInteger.ShiftStaysInsideExactly` | utils/rapidjson/internal/biginteger.h:128-152 | All writes of a shift stay inside the array if and only if count plus offset is below the capacity, or at most the capacity when whole limbs are moved. |
| `BigInteger.BigInteger.AppendDecimal64` | utils/rapidjson/internal/biginteger.h:224-232 | Times 10^k by powers of five and a shift, plus the chunk. |
| `BigInteger.BigInteger.Add` | utils/rapidjson/internal/biginteger.h:70-85 | Adding a limb adds to the number, with the carry through all limbs and one more limb if needed. |
| `BigInteger.BigInteger.AddLimb` | utils/rapidjson/internal/biginteger.h:70-85 | The in-place carry loop with its wrap-around test leaves the limbs of recursive addition. |
| `BigInteger.BigInteger.Multiply` | utils/rapidjson/internal/biginteger.h:87-103 | Times a 64-bit number, with the shortcuts for zero, one and powers that fit 32 bits. |
| `BigInteger.BigInteger.Multiply32` | utils/rapidjson/internal/biginteger.h:105-126 | Times a 32-bit number in two half-limb steps a limb. |
| `BigInteger.BigInteger.ShiftLeft` | utils/rapidjson/internal/biginteger.h:128-152 | Shifting multiplies by a power of two, zero stays zero, and the places written are exactly those up to the last limb moved, or one more when bits cross limbs. |
| `BigInteger.BigInteger.ShiftUp` | utils/rapidjson/internal/biginteger.h:139-147 | The descending in-place loop leaves the shifted limbs above the moved ones, with one more limb exactly when bits cross. |
| `BigInteger.BigInteger.MultiplyPow5` | utils/rapidjson/internal/biginteger.h:162-183 | Times 5^exp in steps of 5^27 and 5^13 and one table entry, the rest. |
| `BigInteger.BigInteger.Compare` | utils/rapidjson/internal/biginteger.h:208-217 | The order of the limbs is the order of the numbers, and equal numbers have equal limbs. |
| `BigInteger.ParseUint64` | utils/rapidjson/internal/biginteger.h:239-246 | Up to nineteen digits give their number without wrap-around. |
| `BigInteger.MulAdd64` | utils/rapidjson/internal/biginteger.h:249-277 | High and low limb of a*b+k, exact over 128 bits, on the portable path. |
| `BigInteger.MulAdd32` | utils/rapidjson/internal/biginteger.h:105-126 | One limb times a 32-bit number plus a carry, in halves, is exact and the carry fits 32 bits. |
| `Limbs.AddValue` | utils/rapidjson/internal/biginteger.h:70-85 | Recursive addition on limbs is addition of the numbers they stand for. |
| `Limbs.MulValue` | utils/rapidjson/internal/biginteger.h:87-103 | Recursive multiplication with a carry is multiplication and addition of the numbers. |
| `Limbs.ShiftValue` | utils/rapidjson/internal/biginteger.h:139-147 | Bits moved across limbs multiply the number. |
| `Limbs.ShiftNormal` | utils/rapidjson/internal/biginteger.h:128-152 | Dropping the top limb exactly when it is zero keeps the normal form and the number. |
| `Limbs.HighestDifference` | utils/rapidjson/internal/biginteger.h:208-217 | The highest differing limb decides the order, whatever lies below. |
| `Limbs.LongerIsLarger` | utils/rapidjson/internal/biginteger.h:208-217 | Of two numbers in normal form the one with more limbs is larger. |
| `Limbs.CountExactly` | utils/rapidjson/internal/biginteger.h:279-284 | A normal form has at most k limbs exactly when the number is below 2^(64k). |
| `Limbs.CountBound` | utils/rapidjson/internal/biginteger.h:279-284 | A number below 2^(64k) needs at most k limbs, so a result within capacity never writes past the array. |
| `NumberTheory.Fermat` | src/rsa.cpp:142-182 | Fermat's little theorem, by the binomial theorem modulo a prime: the ground of decryption. |
| `Rsa.Gcd` | src/rsa.cpp:20-27 | The remainder loop returns the greatest common divisor, for all arguments, also zero. |
| `Rsa.ExtEuclid` | src/rsa.cpp:30-39 | The loop over four variables computes the recursive coefficient. |
| `Rsa.ExtEuclidBezout` | src/rsa.cpp:30-39 | The coefficient satisfies Bezout's identity with the gcd, is no larger than the first argument, and no step overflows 64 signed bits. |
| `Rsa.ModExpExact` | src/rsa.cpp:41-54 | When the modulus is at most 2^32 or divides 2^64, the wrapping recursion gives b^e mod m. |
| `Rsa.ModExpExactExactly` | src/rsa.cpp:41-54 | For every modulus: the result is b^e mod m for all b and e if and only if the modulus is above 1 and is at most 2^32 or divides 2^64. |
| `Rsa.ModExpOfTwoVanishes` | src/rsa.cpp:41-54 | Above 2^32 the byte 2 encrypts to 0 under the public exponent: the wrapped squaring is the counterexample. |
| `Rsa.MakePositive` | src/rsa.cpp:127-130 | The loop that adds phi until d is not negative. |
| `Rsa.TryDraw` | src/rsa.cpp:98-138 | One draw of primes gives a key pair exactly when both are nonzero, they differ and 257 is coprime to phi. |
| `Rsa.GenKeys` | src/rsa.cpp:59-139 | Drawing goes on until the first usable pair and uses that one. |
| `Rsa.PrivateExponentInverts` | src/rsa.cpp:119-138 | The private exponent is positive, at most phi, and inverts 257 modulo phi. |
| `Rsa.RsaEncrypt` | src/rsa.cpp:142-153 | Fills the output byte by byte with the powers of the bytes. |
| `Rsa.RsaDecrypt` | src/rsa.cpp:156-182 | Null exactly when the size is no multiple of eight; otherwise the low byte of each power. |
| `Rsa.NumberRoundTrip` | src/rsa.cpp:142-182 | For distinct primes with pq at most 2^32, encrypting and decrypting a number gives it back modulo pq (Fermat and the Chinese remainder theorem). |
| `Rsa.MessageReturns` | src/rsa.cpp:142-182 | With 255 < pq <= 2^32 every byte string comes back. |
| `Rsa.RoundTripExactly` | src/rsa.cpp:119-182 | For any usable pair of primes, every byte string comes back if and only if 255 < pq <= 2^32. |
| `Framing.Packet2Rawdata` | src/server.cpp:167-185 | Kind and length-prefixed blocks fill the buffer exactly. |
| `Framing.Rawdata2Packet` | src/server.cpp:187-203 | The reading loop collects the blocks, or fails when one runs past the end. |
| `Framing.PacketReturns` | src/server.cpp:167-203 | Every packet whose kind and block sizes fit 32 bits is read back, empty blocks included. |
| `Framing.SignedRawdata` | src/server.cpp:248-265 | Marks, four bytes of info and data, in place. |
| `Framing.SignedReturns` | src/server.cpp:334-368 | A signed message passes the mark check, is not taken for a box, and gives back info and data. |
| `Framing.Build` | src/server.cpp:1102-1122 | The bytes of a box: mark, id, number, count, size, data, mark. |
| `Framing.ProcessNetBox` | src/server.cpp:1124-1140 | Fields of a received box at their offsets. |
| `Framing.BoxReturns` | src/server.cpp:1102-1140 | Every box whose fields fit is recognised and read back. |
| `Framing.RequestReturns` | src/server.cpp:710-741 | Every request comes back from its packet, zero-length fields included, whatever the target held before. |
| `Transport.SentRawdata` | src/server.cpp:294-323 | The splitting loop ends and sends exactly the boxes of the message, numbered from 0; up to 256 bytes are sent as they are. |
| `Transport.BoxesJoin` | src/server.cpp:294-323 | The boxes partition the message: in order they are the message. |
| `Transport.CountIsRight` | src/server.cpp:294-323 | The announced count equals the number sent, and is one too high exactly when 256 divides the size. |
| `Transport.FilledMore` | src/server.cpp:409-413 | Filling an empty slot raises the number of filled slots by one. |
| `Transport.ReceivedIsSound` | src/server.cpp:405-418 | An arriving box, new or repeated, keeps nbn equal to the number of filled slots. |
| `Transport.TickedIsSound` | src/server.cpp:470-489 | So does a tick of the countdown. |
| `Reassembly.ListenersAreSound` | src/server.cpp:405-433 | After every run of arrivals and ticks: nbn counts the filled slots, each slot holds a box of its own number, and the listener belongs to its id. |
| `Reassembly.LifeIsBounded` | src/server.cpp:465-504 | Age plus countdown is 15 + 5(nbn-1), so a listener is never older than 15 + 5(cnt-1) ticks, and goes with the next. |
| `Reassembly.OnlyTheMessage` | src/server.cpp:1150-1167 | Over every run with any interleaving, loss and repetition, what is handed on for an id is the sent message, from the address of one of its boxes, and nothing at all when 256 divides its size. |
| `Reassembly.MultiplesNeverComplete` | src/server.cpp:294-323 | A message above 256 bytes whose size 256 divides is never handed on, in any run. |
| `Reassembly.DeliveriesArePaid` | src/server.cpp:470-481 | Every delivery uses up as many arrived boxes as were announced: n deliveries need n full sets, so one set is never delivered twice. |
| `Reassembly.AllBoxesDeliver` | src/server.cpp:465-504 | From any state, if all boxes arrive, in any order and with repetition, before the countdown can run out, one more delivery follows by the next tick. |
| `Reassembly.DeliverableExactly` | src/server.cpp:294-323 | When all boxes arrive within fifteen ticks the message is handed on if and only if 256 does not divide its size. |
| `Server.Server.Receive` | src/server.cpp:397-444 | One datagram changes the table, the queue and nothing else as its kind says, and keeps every id at the state of its history. |
| `Server.Server.Visit` | src/server.cpp:470-489 | One listener is handed on and marked, counted down, or dropped. |
| `Server.Server.CountDown` | src/server.cpp:470-489 | The pass over the table visits each listener once; what is handed on is, id by id, what it held. |
| `Server.Server.Sweep` | src/server.cpp:492-499 | Exactly the marked listeners go. |
| `Server.Server.CleaningBoxs` | src/server.cpp:514-525 | Between ticks there is nothing to sweep. |
| `Server.Server.BoxProcessor` | src/server.cpp:465-504 | One round of the box processor is one tick of every listener, and adds to the queue what completed. |
| `Server.TogtRawData` | src/server.cpp:1150-1167 | The join of a full listener in slot order, unpacked when its marks are right. |
| `Server.RequestsArriveIntact` | src/server.cpp:710-741 | End to end over every run: whatever is handed on for a split request carries exactly that request. |
| `Server.SmallRequestsArriveIntact` | src/server.cpp:438-442 | The same for requests that fit one datagram. |
| `Server.RequestDelivered` | src/server.cpp:294-323 | A split request whose boxes all arrive in time is delivered if and only if 256 does not divide its signed size. |
| `Sha1.SwappedLoad` | src/sha1.cpp:33-49 | The byte shuffle of the first sixteen words reads them most significant byte first. |
| `Sha1.MixIsF` | src/sha1.cpp:33-49 | The four round functions as coded are those of section 4.1.1 of FIPS 180-4. |
| `Sha1.RingStep` | src/sha1.cpp:33-49 | Word i of the sixteen-word ring is word i of the eighty-word schedule, at every step (section 6.1.3 of FIPS 180-4). |
| `Sha1.EightyRounds` | src/sha1.cpp:75-162 | The rounds with registers whose roles turn compute the eighty rounds of section 6.1.2. |
| `Sha1.Transform` | src/sha1.cpp:54-177 | One block changes the state as section 6.1.2 compresses it. |
| `Sha1.HashMore` | src/sha1.cpp:198-226 | Hashing whole blocks and then more blocks is hashing them together. |
| `Sha1.ZeroCountIsLeast` | src/sha1.cpp:264-270 | The padding loop adds the least number of zero bytes that leaves eight bytes in the block. |
| `Sha1.BitsCounted` | src/sha1.cpp:208-211 | The two counters with their carry test hold eight times the length, modulo 2^64. |
| `Sha1.Context.Init` | src/sha1.cpp:182-193 | A new context has been fed nothing. |
| `Sha1.CopiesStayInsideExactly` | src/sha1.cpp:205-225 | The copies of an update stay inside the 64 bytes of the buffer if and only if the bytes buffered and the new ones together stay below 2^32; the block test and the loop are those of the source, in 32 bits. |
| `Sha1.CopyOverruns` | src/sha1.cpp:205-225 | The concrete case: with one byte buffered, a piece of 2^32 - 1 bytes is copied up to place 2^32 of the buffer. |
| `Sha1.Context.Update` | src/sha1.cpp:198-226 | Any piece, however it falls on block borders, is appended to what was fed: state, counters and buffer are those of the whole. |
| `Sha1.Context.Final` | src/sha1.cpp:231-280 | The digest of all bytes fed, as section 5.1.1 pads and 6.1.2 hashes them. |
| `Sha1.PiecesDoNotMatter` | src/sha1.cpp:198-226 | Two contexts fed the same bytes in any pieces agree in state, counters and buffered bytes. |
| `Sha1.WordFromBytes` | src/sha1.cpp:272-276 | The bytes a digest takes from a word make up the word again. |
| `Sha1.SHA1` | src/sha1.cpp:282-295 | The one-call form writes the digest and a terminating zero. |
| `Aes.TablesUndoEachOther` | src/aes.cpp:81-117 | Substitution table and inverse table undo each other, both ways round, for every byte. |
| `Aes.SboxIsInverse` | src/aes.cpp:81-98 | Every entry is the affine map of the inverse in GF(2^8), or of zero for zero (section 5.1.1 of FIPS 197). |
| `Aes.MultiplyIsProduct` | src/aes.cpp:327-336 | The unrolled multiplication is the field product by 9, 11, 13 and 14. |
| `Aes.MixedFast` | src/aes.cpp:307-320 | The shortcut of the column mix equals the matrix product. |
| `Aes.ColumnReturns` | src/aes.cpp:349-366 | The inverse column matrix undoes the column matrix, for every column. |
| `AesCipher.ShiftRows` | src/aes.cpp:273-299 | The in-place moves turn row r left by r; nothing else in the buffer changes. |
| `AesCipher.InvShiftRows` | src/aes.cpp:382-406 | The in-place moves turn row r right by r. |
| `AesCipher.SubBytes` | src/aes.cpp:258-268 | The table is applied to all sixteen bytes in place. |
| `AesCipher.MixColumns` | src/aes.cpp:307-320 | Each column in place becomes its matrix product. |
| `AesCipher.InvMixColumns` | src/aes.cpp:349-366 | Each column in place becomes its inverse matrix product. |
| `AesCipher.AddRoundKey` | src/aes.cpp:244-255 | The round key is added in place. |
| `AesCipher.RoundsUndone` | src/aes.cpp:438-461 | After any number of inverse rounds the state is that of the cipher one step earlier: the two run in step backwards. |
| `AesCipher.DecryptionUndoes` | src/aes.cpp:412-461 | For every block and every expanded key of 240 bytes, decrypting what was encrypted gives the block back. |
| `AesCipher.Cipher` | src/aes.cpp:412-435 | Fourteen rounds in place on one block of a buffer; the rest of the buffer stays. |
| `AesCipher.InvCipher` | src/aes.cpp:438-461 | The inverse rounds in place. |
| `AesModes.RconArePowers` | src/aes.cpp:119-122 | Each round constant is the double of the one before in GF(2^8). |
| `AesModes.KeyExpansion` | src/aes.cpp:153-224 | The loop fills sixty words as section 5.2 of FIPS 197 expands a 256-bit key. |
| `AesModes.CbcReturns` | src/aes.cpp:501-530 | CBC decryption undoes CBC encryption for every number of blocks. |
| `AesModes.CbcInPieces` | src/aes.cpp:501-515 | Encrypting two pieces with the vector carried over is encrypting them together. |
| `AesModes.CbcUndoneInPieces` | src/aes.cpp:517-530 | So is decrypting. |
| `AesModes.CounterValue` | src/aes.cpp:555-566 | After n increments the counter is the start plus n modulo 2^128, carries included. |
| `AesModes.CtrReturns` | src/aes.cpp:539-570 | Counter mode applied twice from one vector is the identity, for every length. |
| `AesModes.CtrInPieces` | src/aes.cpp:539-570 | Two calls agree with one call when the first piece ends on a block border. |
| `AesModes.AesCtx.CbcEncryptBuffer` | src/aes.cpp:501-515 | In place over the buffer, with the last block kept as next vector. |
| `AesModes.AesCtx.CbcDecryptBuffer` | src/aes.cpp:517-530 | In place, with the last ciphertext block saved before it is overwritten. |
| `AesModes.AesCtx.IncrementIv` | src/aes.cpp:555-566 | The carry loop over the bytes of the vector. |
| `AesModes.AesCtx.CtrXcryptBuffer` | src/aes.cpp:539-570 | In place over a buffer of any length; the vector has advanced once a begun block. |
| `MessageFactory.AddedIsFound` | src/communicate/message.cpp:11-28 | After adding an option its key has the new value and every other key the one it had. |
| `MessageFactory.AddedStaysDistinct` | src/communicate/message.cpp:11-19 | Keys stay distinct. |
| `MessageFactory.Message.AddOption` | src/communicate/message.cpp:11-19 | The loop updates the first entry of a key in place, or appends one. |
| `MessageFactory.Message.GetValue` | src/communicate/message.cpp:21-28 | The value of the first entry of the key, or nothing where the source throws. |
| `MessageFactory.Message.PushData` | src/communicate/message.cpp:30-38 | Data grow at the end and the size option follows. |
| `MessageFactory.Message.Clear` | src/communicate/message.cpp:40-45 | Back to an empty message of type 1. |
| `MessageFactory.ChecksumIsSum` | src/communicate/message_factory.cpp:235-251 | The checksum, taken modulo 65535 at every step in wrapping 16- and 32-bit arithmetic, is the plain sum of the bytes reduced to signed 16 bits: the modulus never acts. |
| `MessageFactory.CalculateOptionsHash` | src/communicate/message_factory.cpp:235-251 | Sums up to and including the end index, and throws for an index that is negative or behind the end. |
| `MessageFactory.ChecksumCovers` | src/communicate/message_factory.cpp:75-78 | The checksum of head and options is the sum of all their bytes up to 2^31 of them; the encoder throws exactly when their last index is negative as a signed 32-bit number. |
| `MessageFactory.EncodeMessage` | src/communicate/message_factory.cpp:9-96 | Signs the message and writes head, options with checksum, body and tail, or throws where the checksum does. |
| `MessageFactory.TextReturns` | src/communicate/message_factory.cpp:98-233 | The decoder reads every writable message back from its text, to the last byte: id, type, options in order and data, with matching checksums. |
| `MessageFactory.MessageReturns` | src/communicate/message_factory.cpp:253-270 | Encoding with a sign and decoding gives the same message, and the sign found is the hash of the data. |
| `MessageFactory.DecodeMessage` | src/communicate/message_factory.cpp:253-270 | Fills a message exactly as the text decodes, and tells refused from broken texts. |
| `MessageFactory.CheckMessageSign` | src/communicate/message_factory.cpp:272-283 | True exactly when the sign option is the hash of the data; nothing when there is none, where the source throws a pointer its clause does not catch. |
| `MessageFactory.SendAndReceive` | src/communicate/message_factory.cpp:9-283 | Two message objects: sent, encoded, decoded into any other message, equal, and the sign holds. |
| `MessageParser.StepWaits` | src/communicate/message_parser.cpp:44-239 | After any byte in any waiting state the parser waits again: no section is complete and unhandled, unless its decoder went wrong. |
| `MessageParser.PiecesExactly` | src/communicate/message_parser.cpp:7-42 | For every waiting state, all decoders and all byte strings a and b: feeding a and then b leaves the same counters, buffered section and finished messages as feeding them joined, if and only if b is empty or no body counter comes out as zero during a. |
| `MessageParser.SwallowsExactly` | src/communicate/message_parser.cpp:144-156 | The counter comes out as zero exactly at the first byte of a body whose size option is 2^64-2. |
| `MessageParser.ParseBothWays` | src/communicate/message_parser.cpp:7-42 | Two new parser objects, one fed once and one twice, end in the same state exactly under that condition. |
| `MessageParser.Parser.LocateHead` | src/communicate/message_parser.cpp:44-89 | Takes at least one byte of the queue, and running on from there gives what running from before would have. |
| `MessageParser.Parser.LocateOption` | src/communicate/message_parser.cpp:91-137 | The same for the options. |
| `MessageParser.Parser.LocateBody` | src/communicate/message_parser.cpp:139-184 | The same for the body, counted down in unsigned 64 bits; a missing or unreadable size ends the call. |
| `MessageParser.Parser.LocateTail` | src/communicate/message_parser.cpp:186-227 | The same for the tail, which finishes a message. |
| `MessageParser.Parser.ResetState` | src/communicate/message_parser.cpp:229-239 | Back to the state of a new parser, keeping the finished messages. |
| `MessageParser.Parser.Parse` | src/communicate/message_parser.cpp:7-42 | The loop ends with the state that byte-by-byte running gives, and with an empty queue unless a decoder threw. |
| `MessageSections.HeadRead` | src/communicate/message_parser.cpp:44-89 | With any decoders, a first line is collected to its line end and handed whole to its decoder. |
| `MessageSections.LineRead` | src/communicate/message_parser.cpp:91-137 | An option line of any length is collected, and the parser is where it was before the line. |
| `MessageSections.BodyRead` | src/communicate/message_parser.cpp:139-184 | A body is exactly as many bytes as the size option says, whatever they are, and a line end. |
| `MessageSections.TailRead` | src/communicate/message_parser.cpp:186-227 | The tail puts the message in the queue and leaves the parser as new. |
| `MessageSections.AnyPieces` | src/communicate/message_parser.cpp:7-42 | Whenever the whole input leads back to a first line, every way of cutting it into any number of calls leads to the same state. |
| `MessageSections.FeedAll` | src/communicate/message_parser.cpp:7-42 | A parser object fed piece by piece, up to a call that throws, ends in the state of the run over the pieces. |
| `MessageStream.StoulReturns` | src/communicate/message_parser.cpp:144-152 | The unsigned 64-bit reading of a size gives back every printed number below 2^64. |
| `MessageStream.OptionsDecode` | src/communicate/message_factory.cpp:143-199 | Decoded alone, as the stream parser does, options are accepted if and only if the checksum is that of the option lines without the head. |
| `MessageStream.AcceptedExactly` | src/communicate/message_parser.cpp:44-137 | With the shipped decoders, from between messages: head and options with any checksum are read on into the body if and only if the checksum is that of the options alone; otherwise the parser starts again behind them. |
| `MessageStream.MessageRead` | src/communicate/message_parser.cpp:7-239 | A whole message with any checksum and any data is put in the queue, with its options behind the date, if and only if the checksum is that of the options alone. |
| `MessageStream.StreamArrives` | src/communicate/message_parser.cpp:7-42 | Any number of messages whose checksums cover the options alone, cut into any pieces: all arrive, in order, and nothing else does. |
| `MessageStream.ReceiveAll` | src/communicate/message_parser.cpp:7-42 | The same for the parser object fed the pieces one by one. |
| `MessageStream.HeadCounts` | src/communicate/message_factory.cpp:74-79 | Head and options never have the same checksum as the options alone, for no id, type and options. |
| `MessageStream.EncodedIsRefused` | src/communicate/message_parser.cpp:84-84 | No message as the encoder writes it is found: the parser refuses its options, starts again behind them and goes on with its data. |
| `MessageStream.EncodedIsLost` | src/communicate/message_parser.cpp:84-84 | A new parser given an encoded message whose data hold no M has found nothing at the end, where the test of the parser expects one message. |
| `MessageStream.PiecesDiffer` | src/communicate/message_parser.cpp:139-184 | With the shipped decoders and a new parser: any head, the size option 2^64 - 2 with its checksum and any two non-empty pieces behind them leave different states when the pieces come in one call and in two. |
| `JsonPointer.FormReturns` | utils/rapidjson/pointer.h:862-1032 | For every list of token names, with any bytes and empty names, parsing its string form recovers the list. |
| `JsonPointer.ParsedIsForm` | utils/rapidjson/pointer.h:862-1032 | Every accepted string is the string form of what it was parsed into: parsing loses nothing. |
| `JsonPointer.OneTokenEach` | utils/rapidjson/pointer.h:871-875 | The number of solidi in the form is the number of tokens, which sizes the token array. |
| `JsonPointer.NumeralIndex` | utils/rapidjson/pointer.h:952-977 | The numeral of every number below 2^32 has that number as its index. |
| `JsonPointer.PromiseKeptExactly` | utils/rapidjson/pointer.h:960-977 | For numerals of every length: the index is the documented one if and only if the value is below 2^32, or drops modulo 2^32 at some digit (the test of the loop), or ends at the invalid index by chance. |
| `JsonPointer.AccumulatesWrapping` | utils/rapidjson/pointer.h:965-975 | The accumulation yields the value modulo 2^32, or the invalid index exactly when that value drops at some digit. |
| `JsonPointer.TenDigitOverflow` | utils/rapidjson/pointer.h:960-977 | What the overflow test makes of a ten-digit numeral at or above 2^32: detected exactly when the wrapped number is below a tenth of the number. |
| `JsonPointer.OverflowMissed` | utils/rapidjson/pointer.h:960-977 | The concrete case: the token 5000000000 gets the index 705032704, although the documentation at lines 88-90 promises the invalid index. |
| `JsonPointer.Parse` | utils/rapidjson/pointer.h:862-983 | The loops write names and tokens into their buffers, inside the source length, and every token holds its name; failures carry code and offset. |
| `JsonPointer.CopyName` | utils/rapidjson/pointer.h:897-958 | One name is unescaped into the buffer; the write position stays below the read position, and earlier names stay. |
| `JsonPointer.IndexOf` | utils/rapidjson/pointer.h:952-977 | Leading zeros, the digit test and the wrapping accumulation. |
| `JsonPointer.Stringify` | utils/rapidjson/pointer.h:1001-1032 | The printing loops give the string form. |
| `PoolAllocator.CutIsSound` | utils/rapidjson/allocators.h:189-202 | A block cut behind all others overlaps none, is aligned and lies inside its chunk, when it ends within the capacity. |
| `PoolAllocator.CutIsSoundExactly` | utils/rapidjson/allocators.h:193-201 | What the newest chunk takes, as the 64-bit sums of the source decide it, keeps the pool sound if and only if neither the rounding nor the end of the block reaches 2^64. |
| `PoolAllocator.LiveBytesGivenAgain` | utils/rapidjson/allocators.h:193-201 | The concrete case: behind 16 bytes given out, a request for 2^64 - 16 is taken and sets the count to zero, and the next one is given the first 16 bytes again. |
| `PoolAllocator.GrowthIsSound` | utils/rapidjson/allocators.h:217-225 | Growing the last block of the newest chunk within its capacity overlaps none. |
| `PoolAllocator.GrowthIsSoundExactly` | utils/rapidjson/allocators.h:217-225 | Growth that the source takes for fitting is sound if and only if the new end of the block stays below 2^64. |
| `PoolAllocator.ShrinkIsSound` | utils/rapidjson/allocators.h:211-215 | A block asked to shrink stays, and stays apart. |
| `PoolAllocator.ShrinkIsSoundExactly` | utils/rapidjson/allocators.h:211-215 | What the source takes for shrinking is sound if and only if the rounding of the new size does not wrap. |
| `PoolAllocator.HandedIsSoundExactly` | utils/rapidjson/allocators.h:189-202 | A request that gives a block, from the newest chunk or a new one, keeps a sound pool sound, with the block in its memory and apart from all live ones, if and only if its rounding, its end and the size of a new chunk with its header stay below 2^64. |
| `PoolAllocator.SizeWithinCapacity` | utils/rapidjson/allocators.h:171-186 | In a sound pool no more is given out than there is. |
| `PoolAllocator.Pool.Malloc` | utils/rapidjson/allocators.h:189-202 | The block that the wrapping sums of the source lead to, or none; the pool stays sound, with the block apart from all live ones, if and only if no sum wraps, and null comes then only for size zero or when the base allocator refuses. |
| `PoolAllocator.Pool.Realloc` | utils/rapidjson/allocators.h:204-235 | The pool stays sound if and only if no sum wraps; then the result starts with the old contents up to the smaller size, all other live blocks keep their bytes, and only the last block grows in place. |
| `PoolAllocator.Pool.Expand` | utils/rapidjson/allocators.h:218-225 | The last block grows in place when the wrapped sum is within the capacity, and that is sound if and only if nothing wrapped. |
| `PoolAllocator.Pool.Move` | utils/rapidjson/allocators.h:227-234 | A block that cannot grow in place is copied to a new one without touching any live block. |
| `PoolAllocator.CopyInto` | utils/rapidjson/allocators.h:227-234 | The copy of the rounded size stays inside the new block. |
| `PoolAllocator.Pool.AddChunk` | utils/rapidjson/allocators.h:250-262 | A fresh chunk in front, or nothing changed; sound if and only if its size and that of its header add up to less than 2^64. |
| `PoolAllocator.Pool.Clear` | utils/rapidjson/allocators.h:158-166 | Whatever was asked for before, all chunks but the user's buffer go, no block is live and the pool is sound. |
| `PoolAllocator.Pool.Size` | utils/rapidjson/allocators.h:181-186 | The loop over the chunks adds up what is given out, in 64 bits. |
| `PoolAllocator.Pool.Capacity` | utils/rapidjson/allocators.h:171-176 | The loop adds up the chunk capacities, in 64 bits. |
| `PoolAllocator.GivesLiveBlockAgain` | utils/rapidjson/allocators.h:189-202 | Three calls on a new pool object: the third returns the block of the first. |
| `Rng.MixIsOneToOne` | include/rng.hpp:117-123 | The output mixer, xor-shifts and odd multiplications modulo 2^64, is one to one. |
| `Rng.OutputsDiffer` | include/rng.hpp:117-123 | Any two draws less than 2^64 apart differ. |
| `Xoroshiro.StepIsLinear` | include/rng.hpp:147-158 | The step of the 128-bit state distributes over exclusive or. |
| `Xoroshiro.StepIsOneToOne` | include/rng.hpp:147-158 | Different states have different successors. |
| `Xoroshiro.JumpCommutes` | include/rng.hpp:163-180 | Jumping and stepping any number of times commute. |
| `Xoroshiro.MaskSquare` | include/rng.hpp:163-180 | A sum of steps that a mask selects, taken twice, is the sum of every other step: the mixed terms cancel. |
| `JumpAhead.TablesAreSums` | include/rng.hpp:163-180 | Reading sums over the orbit of one state off tables of 64-bit words gives the sums of its steps, for every mask. |
| `JumpAhead.JumpIsSteps` | include/rng.hpp:160-180 | From every state, the steps that the mask of the jump selects sum up to the state 2^64 steps ahead, as the comment of the source claims. |
| `Rng.Rng64.Next` | include/rng.hpp:117-123 | One draw adds the increment and returns the mixed state. |
| `Rng.Rng128.Next` | include/rng.hpp:147-158 | One draw returns the sum of the halves and steps the state. |
| `Rng.Rng128.Jump` | include/rng.hpp:163-180 | The double loop over the mask leaves the object in the state 2^64 steps ahead. |
| `Rng.Rng128.FromSeed` | include/rng.hpp:140-145 | The two halves are the first two draws of the small generator. |
| `Encodings.EncodedMeans` | utils/rapidjson/encodings.h:102-121 | The bytes of a scalar value are a well-formed sequence (section 4 of RFC 3629) that denotes it. |
| `Encodings.MeaningEncodes` | utils/rapidjson/encodings.h:146-176 | A well-formed sequence is the encoding of the value it denotes: the accepted sequences are exactly the shortest forms. |
| `Encodings.EncodedReturns8` | utils/rapidjson/encodings.h:102-176 | Every list of scalar values is decoded back from its UTF-8 text. |
| `Encodings.DecodedReturns8` | utils/rapidjson/encodings.h:102-176 | Every well-formed UTF-8 text is encoded back from its values. |
| `Encodings.EncodedReturns16` | utils/rapidjson/encodings.h:276-322 | Every list of scalar values is decoded back from its UTF-16 text, surrogate pairs as in section 2 of RFC 2781. |
| `Encodings.Classes` | utils/rapidjson/encodings.h:204-220 | Which bytes each range class of the table admits. |
| `Encodings.Decode8` | utils/rapidjson/encodings.h:146-176 | The byte automaton accepts exactly the sequences of section 4 of RFC 3629 and yields the value they denote; it always moves by one to four bytes. |
| `Encodings.Decode16` | utils/rapidjson/encodings.h:307-322 | One unit or a proper surrogate pair. |
| `Encodings.Utf8ToUtf16` | utils/rapidjson/encodings.h:658-667 | The transcoding loop succeeds exactly on well-formed texts and yields the same values in UTF-16. |
| `Encodings.Utf16ToUtf8` | utils/rapidjson/encodings.h:658-667 | The other direction. |
| `Encodings.ThereAndBack` | utils/rapidjson/encodings.h:658-667 | UTF-8 to UTF-16 and back is the identity on every well-formed text. |
| `ProjectBlocks.IfNameIllegal` | include/cproj.h:52-57 | True exactly when every character is a letter, a digit or an underscore (the name of the source says the opposite). |
| `ProjectBlocks.WalkNodes` | include/cproj.h:157-168 | Walking over the text of any forest from a depth of two or more leaves the bracket counter where it was. |
| `ProjectBlocks.BlockFirst` | include/cproj.h:144-168 | When a block comes first, the piece taken is the whole block with all it contains, however many semicolons and braces it holds. |
| `ProjectBlocks.WrittenReturns` | include/cproj.h:139-207 | For every forest of statements and nested blocks, reading its text gives the forest back. |
| `ProjectBlocks.ReadKeepsExactly` | include/cproj.h:139-207 | For every text that is read without exception and any keys: writing the result gives back the text that was consumed if and only if a semicolon follows every closing brace, at every depth, and every block consists of statements and blocks to its end. |
| `ProjectBlocks.SemicolonsKeptExactly` | include/cproj.h:157-168 | Writing the result has at least the semicolons of the text, and as many exactly when every closing brace is behind its opening one and followed by a semicolon. |
| `ProjectBlocks.LengthKeptExactly` | include/cproj.h:194-204 | Then the result is no longer than what was consumed, and as long exactly when no block ends in text that is not a statement. |
| `ProjectBlocks.BraceAtEnd` | include/cproj.h:203-204 | A block that is read is followed by the exception of a cut past the end if and only if its last brace ends the text. |
| `ProjectBlocks.CharacterLost` | include/cproj.h:203-204 | The concrete case: in `kn{x;}stmt;` the s is lost. |
| `ProjectBlocks.EndIsThrown` | include/cproj.h:203-204 | The concrete case: `kn{x;}` throws. |
| `ProjectBlocks.ReadBlocks` | include/cproj.h:139-207 | The loop and its recursion end and return what the recursive reading gives, exceptions included. |
| `ProjectBlocks.TakePiece` | include/cproj.h:144-168 | The search for the end of a statement or block. |
| `ProjectBlocks.TakeBlock` | include/cproj.h:173-200 | Key, name and children of a block, or the exception the source throws. |

## Left out

- Floating-point numbers in JSON text: the end of a literal and whether it is accepted are parameters of the parsers, its value is not modelled, and the writer is not given any.
- CachedPowers.GetCachedPower: the logarithm is computed over the reals with the constant of the source; rounding in doubles does not change the index, since no product but zero lies within a ten-thousandth of an integer. Exponents for which the index is outside the table, on which the source asserts, are excluded.
- DigitGen.DigitsStayInside: takes the accuracy of the cached power as a requirement; `Grisu.DigitsReadBack` discharges it for every entry.
- The layout of printed digits with point and exponent, and the conversion of a double into significand and exponent.
- `BigInteger::Difference`, whose borrow test misses an incoming borrow on a limb of ones.
- The error codes and offsets of JSON parse errors; verdict and events are modelled.
- Comments, trailing commas, NaN and infinity, in-situ parsing, validation of encodings and stopping at the end of a value, all off by default.
- SIMD variants of blank skipping and string scanning.
- Encodings of JSON text other than UTF-8: one char of a text is one byte, and a Unicode escape yields the UTF-8 bytes of its value.
- The level and value stacks as raw memory: they are sequences.
- JsonReader.Reader.ParseNumberToken: where a floating-point literal ends, and whether it does, is a parameter.
- JsonDocument.ParseDocument: requires what `JsonDocument.AcceptedTextIsOneTree` shows to be necessary; on other texts the source fails an assertion.
- String tokens of 4 GiB and more, whose length is cut to 32 bits.
- JsonPointer.FormReturns: names of 4 GiB and more come back whole, where the source cuts the length of a token to 32 bits.
- JsonPointer.Parse: names of 4 GiB and more as for `JsonPointer.FormReturns`; requires a text that does not begin with `#`; the URI fragment form with its percent codes is not modelled.
- Resolving pointers against a document, and every use of a document after parsing.
- BigInteger.BigInteger.FromDecimals: requires what `BigInteger.BuildingExactly` shows to be necessary; on other strings the source fails an assertion or writes past its array.
- BigInteger.BigInteger.ShiftLeft: requires what `BigInteger.ShiftStaysInsideExactly` shows to be necessary.
- DigitGen.DigitGen: closeness to W is stated with the distance the code uses, which is zero where the scaling power lies beyond its table of powers.
- The selection between 128-bit and portable arithmetic by the compiler; both products of `DiyFp` are modelled, the portable `MulAdd64` alone.
- Random draws, the file of primes and the clock: the draws of `Rsa.GenKeys` are a given finite list, and the primes in it are prime by assumption of the lemmas.
- Rsa.RoundTripExactly: requires pq to fit 63 bits, as the signed arithmetic of the key derivation does.
- Packets encrypted with RSA or AES and their framing, which add a layer of the same shape.
- Sockets, threads, locks, signals, shared memory, forking and files: each handler is one atomic step.
- Listener records and boxes as heap objects: the table of the server is a map to values, so sharing and freeing are not modelled.
- Server.Server.BoxProcessor: says what is handed on for each id and in which order within an id; the order between ids is left open, and it does not matter to the receivers.
- Server.Server.Receive: requires datagrams of at least four bytes, twelve when signed, a box whose data lie inside the datagram and whose number is below the count; the source reads past the buffer otherwise.
- Reassembly.OnlyTheMessage: speaks of one sender a message id and messages below sixteen megabytes, so that numbers and counts fit sixteen bits.
- Reassembly.MultiplesNeverComplete: the same bound on the size.
- Reassembly.DeliveriesArePaid: the same bound on the size.
- Reassembly.AllBoxesDeliver: the same bound on the size.
- Reassembly.DeliverableExactly: the same bound on the size.
- Server.RequestsArriveIntact: the same bound on the signed request.
- Server.RequestDelivered: the same.
- `CNodeServer` and `Client` variants of splitting, which are copies of the same code.
- Sha1.Context.Update: requires what `Sha1.CopiesStayInsideExactly` shows to be necessary; otherwise the source writes past its buffer.
- Unrolled rounds of SHA-1: they are a loop over eighty rounds with the registers in an array whose roles turn, as the macro arguments do.
- The hexadecimal form of digests, ECB mode and the context setters.
- AesModes.AesCtx.CbcEncryptBuffer: requires whole blocks; the source reads past the end otherwise.
- AesModes.AesCtx.CbcDecryptBuffer: the same.
- The seed drawn from the thread scheduler.
- The hash behind a message's sign is any function; SHA-256, MD5 and certificates are library calls.
- MessageFactory.MessageReturns: requires keys, values and hash without quotes or zero bytes and a size option equal to the length of the data, as the decoder trusts both, and at most 2^31 bytes of head and options, beyond which `MessageFactory.ChecksumCovers` says what the checksum is.
- MessageFactory.TextReturns: the same.
- Texts on which the message decoder reads outside its buffer are the outcome `Broken`.
- MessageParser.Parser.Parse: a call in which a decoder throws or reads past its bytes ends there; what the object holds afterwards beyond its counters, and calling it again, are not modelled.
- MessageStream.StreamArrives: requires keys and values without quotes, zero bytes and carriage returns, at which the parser ends a line.
- The date of a new message is any text; the clock it is read from is not modelled.
- MessageParser.PiecesExactly: speaks of states in which a section is still awaited, which all states between calls are (`MessageParser.StepWaits`).
- MessageFactory.EncodeMessage: starts from an empty output buffer; the checksum of the source would sum bytes that were there before.
- PoolAllocator.Pool.Malloc: whether the base allocator grants memory that is asked for is a parameter, and the fields of a header are not laid out in memory.
- PoolAllocator.Pool.Realloc: the old size is that of the block, which the source lets its caller say; nothing is copied when a sum wrapped, where the source writes outside the chunk.
- Copying pools and sharing them; freeing, which does nothing.
- UTF-16 in bytes, UTF-32, ASCII, automatic detection and byte order marks.
- ProjectBlocks.WrittenReturns: requires statements without `;`, `{` and `}`, legal block names and no earlier registered key inside a head, for the source takes the first key found anywhere.
- Reading the files of a project description, and the setting and path parsers beside the block reader.
- SQLite, OpenSSL, Boost, loading of libraries, running compilers, the chunk framing of TCP, and the classes that are stubs.
