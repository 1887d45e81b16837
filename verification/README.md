# Lua scripting engine: numeric printing, codecs, hashing and the engine's life cycle

A Dafny model of the self-contained parts of the Lua scripting engine module, with proofs of the
properties those parts are there for. `dafny verify dfyconfig.toml` checks all of it.

**Printing doubles** (`Powers`, `Digits`, `Doubles`, `CachedPowers`, `PowerSearch`, `Rounding`, `Generate`,
`Grisu`, `Shortest`, `LongDoubles`, `Dtoa`, `DtoaLayout`). The Grisu2 printer of `src/fpconv_dtoa.c`, from the
bit pattern to the characters. `Doubles` defines the value of a bit pattern and its rounding interval in real
numbers and proves that anything strictly inside the interval is closer to that double than to any other.
Nothing about the table of powers is assumed: each of its 87 entries is checked, by evaluation, to be within
half a unit in the last place of its power of ten. So the final result, `Dtoa.FpconvDtoa`, is unconditional:
what is printed for a finite double reads back as that double and no other. `Shortest` says in real numbers how
close the digits are and that fewer would not do, and `LongDoubles` decides on the bit pattern which doubles get
the longest text. `DtoaLayout` says when the text has an exponent and what each layout looks like, and that a
short decimal well inside the interval, such as 3.14159265, prints as itself. Every 64-bit variable of the
source has the type `u64`, so the absence of overflow is proved at every assignment.

**SHA-1** (`Sha1`, `Sha1Context`, `Sha1Answers`). `Compress`, `Pad` and `Digest` follow sections 3 to 6 of FIPS
180-4 with the 80-word message schedule. The sixteen-word circular schedule, the rotated register names and the
chunked buffer of `src/sha1.c` are methods proved against them, and the specification is evaluated on the two
examples of the standard, one block and two blocks long.

**The 48-bit generator** (`Rand`). The limbs and carries of `src/rand.c` against the recurrence of POSIX
`lrand48`, with known answers.

**MessagePack** (`Bytes`, `Msgpack*`). Values, headers and size classes of `src/lua_cmsgpack.c`, the recursive
encoder and decoder as functions with their round trip, and the growing buffer, the cursor and the loops of pack
and unpack as methods that compute those functions. `MsgpackWire` states the first bytes of the MessagePack
specification and that every header is the shortest.

**JSON** (`Bits`, `StringBuffer`, `Json*`). The same for `src/lua_cjson.c`: text of values, tokenizer and
recursive-descent parser, their round trip, and the methods over the string buffer of `src/strbuf.c`, where the
unchecked appends are proved to stay inside the buffer. `JsonGrammar` gives the grammar of RFC 8259 as trees of
tokens: the parser accepts exactly those texts, and `JsonTrees` that every text of the encoder is one, table by
table. `JsonSpelling` and `JsonLimits` deal with characters: every spelling of an escape, which bytes are
escaped, how far a number goes, which tables are arrays, and why a value is refused. `JsonFaults` says what an
error of the decoder means: which token does not fit behind the ones before it.

**Engine life cycle** (`Engine`, `EngineSafety`, `EngineCalls`, `EngineRuns`, `EngineLimits`, `EngineResets`,
`LuaObjects`, `ScriptEngine`). A state machine of compile, call, free and reset steps over libraries, function
ids and the caches of every user (`src/engine_luajit.c`). `Engine.Disciplined` says what is expected of the
host: that it frees what a new library replaced, or what a reset left behind, before the next library is
compiled. `EngineLimits` gives the exact conditions under which a function is still served without that, and
short runs that miss them. `EngineResets` says what calls notice of a reset and of the caches. `ScriptEngine`
runs the calls slot by slot on the Lua stack of `RespStack`.

**Replies** (`Resp`, `RespRoundTrip`, `RespShape`, `RespExact`, `RespTwo`, `RespNames`, `RespStack`). The two
conversions between server replies and Lua values of `src/script_luajit.c`, as functions with their round trip
and as methods over a Lua stack and an output stream with postponed lengths. `RespRoundTrip.Faithful` is the
condition of the round trip, and exactly that (`RespExact.Exact`): no null inside an aggregate, different scalar
keys, integers that are multiples of the distance between doubles, status and big number texts of one line,
verbatim formats of three characters, and error texts that the trimming leaves alone. `RespTwo` does the same
for protocol 2, whose conversions are those of protocol 3 with nulls lifted to false on the way to Lua and
booleans lowered to 1 or a null on the way back. `RespNames` has the names and texts and the order in which the
fields of a table count.

**Integer text** (`IntegerText`). `ull2string` and `ll2string` against the decimal numeral.

**struct** (`StructFormat`, `StructCodec`, `StructLaws`, `StructExact`, `StructBytes`, `StructLoops`). The three
interpreters of one format language in `src/lua_struct.c`, and how they agree. `StructCodec.Reversible` is the
exact condition under which unpack gives back what was packed. `StructBytes` lays any format without `c0` out
byte for byte, in arithmetic: widths, byte orders, padding, and what happens when a value or a byte is missing.

Where the code and its comments or expectations part ways, the model follows the code:

- `fpconv_dtoa` declares `char dest[24]`. A text has 25 characters exactly when the number is negative and its
  digits are seventeen with seven zeros behind them, which is decided by the bit pattern (`Dtoa.TwentyFourEnough`,
  `LongDoubles.LongExactly`), as for -1.2345678901234567e23 (`Dtoa.LongDouble`). The caller's buffer is larger.
- A table nested 16 deep is packed as nil. As a value it is then missing from the table around it; as a key it
  makes the whole input unreadable (`MsgpackCodec.RoundTrip`, `MsgpackCodec.Refused`).
- The guard `j + len > 63` of `SHA1Update` wraps for very long chunks (`Sha1Context.GuardIsExact`).
- A failed library lookup in `luajitEngineFunctionCall` leaves the Lua stack one lower than it was
  (`ScriptEngine.Context.CallFunction`).
- Freeing a function takes its name away from every user's table even where another live function is
  registered under it (`EngineLimits.FreeServes`), and library ids restart at a reset, so a late free can take
  a new library with it (`EngineLimits.LateFreeServes`, `EngineLimits.StaleFreeReleases`).
- `unpack_limit` with limit 0 reads nothing, except at offset 0, where it reads everything
  (`MsgpackStream.ZeroLimit`).
- Struct alignment works on the bits of a size, so a size that is no power of two is padded even at
  position 0 (`StructFormat.StartUnpadded`), and `struct.size` accepts letters and digits that
  `struct.pack` refuses (`StructLaws.StrayLetter`).
- An array reply with a null inside comes back cut off before it (`RespShape.NullCutsArray`), while under RESP2
  nulls survive there (`RespTwo.ExactTwo`).
- A comment on `luajitPushErrorBuff` says that a message without a dash gets the code ERR. It gets none; the code is
  put in front of a single word behind a dash (`RespNames.BareError`, `RespRoundTrip.ErrorExact`).
- A length that is too large for its option still works for `c0` when it wraps to the right one
  (`StructExact.WrappedLength`), and so does the whole part of a float or double (`StructExact.DoublePrefixed`).

## Model

| member | source | states |
|---|---|---|
| `Doubles.Successor` | src/fpconv_dtoa.c:85-101 | the next bit pattern is one unit of the significand larger, from subnormals to normals and from one binade to the next |
| `Doubles.UpperIsMidpoint` | src/fpconv_dtoa.c:114-135 | the upper boundary is the midpoint to the next larger double |
| `Doubles.LowerIsMidpoint` | src/fpconv_dtoa.c:114-135 | the lower boundary is no lower than the midpoint to the next smaller double |
| `Doubles.InsideReadsBack` | src/fpconv_dtoa.c:114-135 | every real strictly between the boundaries is closer to this double than to any other finite double |
| `PowerSearch.HalfUlp` | src/fpconv_powers.h:54-99 | every entry of the table is within half a unit in the last place of its power of ten, for all 87 entries |
| `PowerSearch.SearchPower` | src/fpconv_powers.h:109-133 | from any starting index the search ends, inside the table, at an entry that puts the product exponent in [-60, -32] |
| `PowerSearch.FindCachedPower` | src/fpconv_powers.h:109-133 | the same from the starting index the source computes, which is inside the table, with the exponent k of the power found |
| `Grisu.Multiply` | src/fpconv_dtoa.c:137-152 | four limb products give exactly floor((a * b + 2^63) / 2^64), and no step exceeds 64 bits |
| `Grisu.Normalize` | src/fpconv_dtoa.c:103-112 | the same value with its leading bit in position 63 |
| `Grisu.GetNormalizedBoundaries` | src/fpconv_dtoa.c:114-135 | the two boundaries, exactly, with one exponent |
| `Grisu.ScaledBoundaries` | src/fpconv_dtoa.c:226-247 | after multiplying and narrowing by one unit each way, w is between the bounds, and the width is at least 10^-16 of the upper one |
| `Grisu.NarrowingIsSafe` | src/fpconv_dtoa.c:226-247 | digits between the narrowed bounds denote a value strictly between the exact ones |
| `Rounding.RoundDigit` | src/fpconv_dtoa.c:154-165 | the last digit goes down to the candidate closest to w among all that stay in the interval, and never below 0 |
| `Generate.LeadingDigits` | src/fpconv_dtoa.c:167-199 | the digits before the point: either the generator stops with a rounded result or all of the integer part is printed |
| `Generate.TrailingDigits` | src/fpconv_dtoa.c:200-223 | the digits after the point: the loop ends within 17 digits and no product exceeds 64 bits |
| `Generate.GenerateDigits` | src/fpconv_dtoa.c:167-224 | at most 17 digits and an exponent that denote a number in [lower, upper], closest to w for that many digits, while no shorter one lies in (lower, upper] |
| `Grisu.Grisu2` | src/fpconv_dtoa.c:226-247 | for every finite non-zero double, at most 17 digits whose value lies strictly inside the rounding interval, chosen as the generator chooses |
| `Shortest.ChosenIsNearest` | src/fpconv_dtoa.c:154-247 | such digits are nearest to the double among the decimals of as many places well inside the interval, and no decimal of one place less is there, up to two units that are each below a hundredth of the interval |
| `Dtoa.EmitReads` | src/fpconv_dtoa.c:249-319 | the emitted text, read as a decimal numeral, is exactly digits * 10^K, in all four layouts |
| `Dtoa.EmitLength` | src/fpconv_dtoa.c:249-319 | at most 24 characters for at most 17 digits |
| `Dtoa.LongestLayout` | src/fpconv_dtoa.c:249-319 | the text has 24 characters if and only if there are seventeen digits and the exponent is 7 |
| `Dtoa.TwentyFourEnough` | src/fpconv_dtoa.c:349-373 | a printed text has at most 25 characters, sign included, and 25 if and only if the bit pattern is negative and meets the condition of `LongDoubles.LongExactly` |
| `LongDoubles.LongForced` | src/fpconv_dtoa.c:226-247 | between 10^23 and 10^24, a double with no multiple of 10^8 in its rounding interval always gets seventeen digits with exponent 7 |
| `LongDoubles.LongMeans` | src/fpconv_dtoa.c:226-247 | and a double that gets them has no multiple of 10^8 well inside its interval |
| `LongDoubles.LongExactly` | src/fpconv_dtoa.c:167-247 | a finite double gets seventeen digits with exponent 7 if and only if its binary exponent is one of four and, in the half-open interval between the two boundaries of its significand, multiplied by the table's 10^-20 and narrowed, there is no multiple of 10^8 and no whole unit of the scaled number, but a multiple of 10^7 of seventeen digits |
| `LongDoubles.LongGenerated` | src/fpconv_dtoa.c:167-224 | for any bounds the two loops end with seventeen digits, thirteen of them behind the point, in exactly these cases |
| `LongDoubles.LongInDecided` | src/fpconv_dtoa.c:167-224 | that condition on the bounds is decided by five comparisons of integers |
| `Dtoa.LongDouble` | src/fpconv_dtoa.c:349-373 | every text printed for -1.2345678901234567e23 has 25 characters |
| `DtoaLayout.LayoutOf` | src/fpconv_dtoa.c:249-319 | the text of n digits times 10^K has an exponent if and only if K > 7, or K <= -7 and the first digit stands for less than 10^-3 or for 10^4 or more |
| `DtoaLayout.FixedForm` | src/fpconv_dtoa.c:249-300 | without an exponent the text is an integer without a point if K >= 0, and otherwise a numeral or 0 before the point and exactly -K digits behind it |
| `DtoaLayout.ScientificForm` | src/fpconv_dtoa.c:300-319 | with one, the first digit stands before the point, the others behind it, and the exponent is signed and has no leading zero |
| `DtoaLayout.PrintedLayout` | src/fpconv_dtoa.c:349-373 | both carry over to every text printed for a double |
| `DtoaLayout.OrdinaryHasNone` | src/fpconv_dtoa.c:249-373 | a double from a thousandth to ten thousand is printed without an exponent |
| `DtoaLayout.ExtremesHaveOne` | src/fpconv_dtoa.c:249-373 | one from 10^24 on or below a millionth is printed with one |
| `DtoaLayout.ShortDecimal` | src/fpconv_dtoa.c:167-373 | a decimal a fiftieth of the interval inside it, with places coarser than the interval, is what its double is printed as |
| `DtoaLayout.PiPrints` | src/fpconv_dtoa.c:349-373 | every text printed for the double 3.14159265 is "3.14159265" |
| `DtoaLayout.SignShown` | src/fpconv_dtoa.c:349-373 | every printed text starts with a minus sign if and only if the sign bit is set, names included |
| `DtoaLayout.SpecialNames` | src/fpconv_dtoa.c:321-347 | which bit patterns are printed as 0, inf and nan |
| `Dtoa.EmitDigits` | src/fpconv_dtoa.c:249-319 | what is written behind the sign is `EmitText`, inside the buffer: its value by `EmitReads`, its layout by `DtoaLayout.LayoutOf` |
| `Dtoa.FilterSpecial` | src/fpconv_dtoa.c:321-347 | zero, infinities and NaN, and nothing else, are printed by name |
| `Dtoa.FpconvDtoa` | src/fpconv_dtoa.c:349-373 | for every bit pattern, the sign and one layout of the chosen digits, which denote a decimal closer to a finite double than to any other; at most 25 characters, and 25 for exactly the bit patterns above, so that 24 characters of room do for all others |
| `Dtoa.TextsDiffer` | src/fpconv_dtoa.c:349-373 | two finite doubles that could be printed alike are the same |
| `Sha1.SwapIsBigEndian` | src/sha1.c:31-39 | the two rotations of blk0 turn a little-endian load into a big-endian word |
| `Sha1.ChRewritten` | src/sha1.c:45-46 | the macro's form is Ch of section 4.1.1 of FIPS 180-4 |
| `Sha1.MajRewritten` | src/sha1.c:48 | the macro's form is Maj of the same section |
| `Sha1.Blk` | src/sha1.c:34-42 | slot i mod 16 of the circular block gets word i of the 80-word schedule |
| `Sha1.R` | src/sha1.c:45-49 | one macro is one round of section 6.1.2, whose constants and functions `Sha1Answers` evaluates |
| `Sha1.FiveRounds` | src/sha1.c:72-98 | five macros with rotated names are five rounds, every name back in place |
| `Sha1.Transform` | src/sha1.c:54-111 | the state becomes the hash value computed by the 80-word definition, which gives the known answers of `Sha1Answers` |
| `Sha1Context.PaddingRule` | src/sha1.c:193-199 | the padding is the fewest bits that reach 448 modulo 512, as section 5.1.1 asks |
| `Sha1Context.CountsAdd` | src/sha1.c:142-145 | adding a chunk with its carry keeps the two counter words equal to 8 * bytes mod 2^64 |
| `Sha1Context.GuardIsExact` | src/sha1.c:147 | the guard of the whole-block branch means what it says if and only if its 32-bit sum does not wrap |
| `Sha1Context.WrappedGuard` | src/sha1.c:147-156 | where it wraps, the branch for a chunk that fits the buffer is taken with a chunk that does not fit |
| `Sha1Context.LengthField` | src/sha1.c:188-191 | the eight counter bytes are the 64-bit length field |
| `Sha1Context.Context.constructor` | src/sha1.c:116-125 | a fresh context holds the empty message |
| `Sha1Context.Context.Update` | src/sha1.c:138-157 | a chunk is appended to the message |
| `Sha1Context.Context.PadMessage` | src/sha1.c:193-199 | the padding loop ends with the one bit and the fewest zero bytes appended |
| `Sha1Context.Context.Final` | src/sha1.c:165-209 | the digest of the whole message is written, and the context is wiped; for "abc" it is the one of `Sha1Answers.AbcDigest` |
| `Sha1Context.HashChunks` | src/sha1.c:116-209 | any chunking of a message gives the digest of the concatenation, the one the standard gives for its two examples (`Sha1Answers`) |
| `Sha1Answers.SixteenOn` | src/sha1.c:54-111 | sixteen rounds of the specification in four steps, with the next sixteen words of the schedule |
| `Sha1Answers.AbcDigest` | src/sha1.c:45-209 | the digest of "abc" is a9993e36 4706816a ba3e2571 7850c26c 9cd0d89d, byte for byte |
| `Sha1Answers.GroupsDigest` | src/sha1.c:45-209 | so is that of the two-block example, 84983e44 1c3bd26e baae4aa1 f95129e5 e54670f1 |
| `Sha1Answers.PadAt` | src/sha1.c:188-199 | every byte of a padded message: the message, 0x80, zeros, and the length in bits |
| `Rand.Generator.Next` | src/rand.c:88-100 | for every state the limbs and carries compute X := (0x5DEECE66D * X + 0xB) mod 2^48 |
| `Rand.Generator.Srand48` | src/rand.c:84-86 | seeding sets the state POSIX gives for srand48 |
| `Rand.Generator.Lrand48` | src/rand.c:79-82 | one step, then the top 31 bits of the state |
| `Rand.Draws` | src/rand.c:79-100 | after any seed, call n returns the top 31 bits of state n |
| `Rand.StepBack` | src/rand.c:88-100 | the step has an inverse |
| `Rand.RunsStayApart` | src/rand.c:88-100 | two different states never meet, after any number of steps |
| `Rand.KnownDraws` | src/rand.c:79-100 | the first states after the seeds 0, 1 and -1 and the numbers returned: 366850414 and 1610402240 for seed 0 |
| `MsgpackFormat.IntReads` | src/lua_cmsgpack.c:224-294 | every 64-bit integer reads back, in whichever of the ten size classes it was written |
| `MsgpackFormat.ShortestInt` | src/lua_cmsgpack.c:224-294 | no bytes that decode to an integer are fewer than those the encoder writes for it |
| `MsgpackFormat.FloatReads` | src/lua_cmsgpack.c:206-222 | a 4- or 8-byte payload reads back |
| `MsgpackFormat.StrReads` | src/lua_cmsgpack.c:177-203 | strings of all four size classes read back |
| `MsgpackFormat.ArrayReads` | src/lua_cmsgpack.c:296-317 | array headers of all three size classes read back |
| `MsgpackFormat.MapReads` | src/lua_cmsgpack.c:319-340 | map headers likewise |
| `MsgpackFormat.HeadConsumes` | src/lua_cmsgpack.c:583-795 | a head that is read consumes at least one byte and leaves the others |
| `MsgpackWire.IntForm` | src/lua_cmsgpack.c:589-690 | which first byte announces how many bytes of a signed or unsigned integer, and its value; 64 bits are taken as signed either way |
| `MsgpackWire.FixForms` | src/lua_cmsgpack.c:740-780 | the value or count of a fixint, fixarray or fixmap is in the first byte |
| `MsgpackWire.StrForm` | src/lua_cmsgpack.c:692-720 | str 8, 16 and 32: the length, then the string |
| `MsgpackWire.ArrayForm` | src/lua_cmsgpack.c:722-738 | array 16 and 32 |
| `MsgpackWire.MapForm` | src/lua_cmsgpack.c:722-738 | map 16 and 32 |
| `MsgpackWire.Atoms` | src/lua_cmsgpack.c:589-690 | c0 is nil, c2 false and c3 true |
| `MsgpackWire.UnknownTypes` | src/lua_cmsgpack.c:583-795 | input is of no known type if and only if it starts with c1, c4 to c9 or d4 to d8 |
| `MsgpackWire.SignShows` | src/lua_cmsgpack.c:224-294 | integers are written in an unsigned form if and only if they are not negative |
| `MsgpackWire.TableForm` | src/lua_cmsgpack.c:426-484 | a table with the keys 1 to n and no others, empty or not, starts an array of n items, any other a map of its entries |
| `MsgpackWire.SixteenLevels` | src/lua_cmsgpack.c:486-510 | sixteen tables may be nested, and the next one is written as nil |
| `MsgpackWire.ShortestStr` | src/lua_cmsgpack.c:177-203 | no bytes that decode to a string are fewer than those the encoder writes for it |
| `MsgpackWire.ShortestCount` | src/lua_cmsgpack.c:296-340 | nor are any that start an array or a map of so many entries |
| `MsgpackTables.ArrayKeys` | src/lua_cmsgpack.c:426-467 | a table that passes the array test has exactly the keys 1 to n |
| `MsgpackTables.TableIsAnArray` | src/lua_cmsgpack.c:428-467 | one pass that counts keys and finds the largest decides exactly that test |
| `MsgpackCodec.RoundTrip` | src/lua_cmsgpack.c:486-581 | at every level, encoding followed by anything decodes to the value and leaves exactly what followed, a table at level 16 being read as nil and so missing from the table around it; it is the nil-key error if and only if a table at level 16 is a key somewhere inside |
| `MsgpackCodec.Refused` | src/lua_cmsgpack.c:383-423 | in whatever order its entries come, a table is refused so if and only if one of them has a key that is cut off or refused, or a value that is refused |
| `MsgpackCodec.CanonicalFinds` | src/lua_cmsgpack.c:383-423 | in the table read back every key holds what it held, and nil where that was cut off |
| `MsgpackBuffer.Buffer.Append` | src/lua_cmsgpack.c:119-131 | the bytes are appended, in a buffer twice as large as needed when the free part is too short |
| `MsgpackBuffer.EncodeInt` | src/lua_cmsgpack.c:224-294 | the branches write the bytes of the specification |
| `MsgpackBuffer.EncodeBytes` | src/lua_cmsgpack.c:177-203 | header and string are appended |
| `MsgpackBuffer.EncodeType` | src/lua_cmsgpack.c:486-510 | the recursive encoder appends exactly the encoding of the value |
| `MsgpackCursor.Cursor.Need` | src/lua_cmsgpack.c:163-173 | a step goes on exactly when the bytes it needs are there |
| `MsgpackCursor.Cursor.DecodeHead` | src/lua_cmsgpack.c:583-795 | the switch reads the head the specification reads and moves past it |
| `MsgpackCursor.Cursor.DecodeType` | src/lua_cmsgpack.c:583-795 | the recursive decoder computes the specified value, advances by what it consumed and never reads past the end |
| `MsgpackStream.UnpackPack` | src/lua_cmsgpack.c:516-549 | unpack(pack(v1, ..., vn)) is v1, ..., vn, and an error if and only if one of them is refused |
| `MsgpackStream.DecodeLeaves` | src/lua_cmsgpack.c:583-795 | what a successful decoding leaves is a proper end of its input |
| `MsgpackStream.StreamSplits` | src/lua_cmsgpack.c:797-852 | reading m values and then n more is reading m + n values |
| `MsgpackStream.OneByOneIsUnpack` | src/lua_cmsgpack.c:854-863 | iterating unpack_one by the offset it returns until -1 gives what unpack gives, errors included |
| `MsgpackStream.ZeroLimit` | src/lua_cmsgpack.c:865-872 | limit 0 reads everything at offset 0 and nothing elsewhere |
| `MsgpackStream.RequestErrors` | src/lua_cmsgpack.c:797-830 | a negative limit or offset is one error, an offset behind the end the other, exactly |
| `MsgpackStream.Pack` | src/lua_cmsgpack.c:516-549 | the arguments one by one through one reused buffer, concatenated |
| `MsgpackStream.RunUnpackFull` | src/lua_cmsgpack.c:797-852 | the cursor loop with its limit, offset and errors computes the specified stream |
| `MsgpackPrefix.DecodeStable` | src/lua_cmsgpack.c:583-795 | more input after a value changes neither the value nor a format error |
| `MsgpackPrefix.PrefixFree` | src/lua_cmsgpack.c:583-795 | no value's bytes are a proper prefix of another's |
| `StringBuffer.Buffer.CalculateNewSize` | src/strbuf.c:125-154 | the doubling loop ends at the least doubling that fits, or at the exact size near the top of the range |
| `StringBuffer.Buffer.Resize` | src/strbuf.c:159-175 | the contents are kept and there is room for them and a NUL |
| `StringBuffer.Buffer.EnsureEmptyLength` | src/strbuf.h:87-91 | afterwards there is the room asked for, with the same contents |
| `StringBuffer.Buffer.AppendCharUnsafe` | src/strbuf.h:114-117 | given room for one byte, it is appended |
| `StringBuffer.Buffer.AppendMemUnsafe` | src/strbuf.h:126-130 | given the room, the bytes are appended |
| `StringBuffer.Buffer.AppendString` | src/strbuf.c:177-193 | the C string is appended, whatever room there was |
| `JsonText.LiteralReads` | src/lua_cjson.c:462-483 | tokenizing the literal of any byte string gives the string and consumes exactly the literal |
| `JsonText.Utf8Reads` | src/lua_cjson.c:772-805 | every Unicode scalar value gets the UTF-8 form of section 3 of RFC 3629, which reads back as it |
| `JsonText.EscapedPointReads` | src/lua_cjson.c:816-872 | every scalar value written as one escape or a surrogate pair decodes to its UTF-8 form |
| `JsonText.LoneSurrogate` | src/lua_cjson.c:816-872 | a low surrogate first, or a high one without a low one behind it, is an error |
| `JsonSpelling.HexReads` | src/lua_cjson.c:735-768 | four characters are read as n if and only if they spell n, each letter in either case |
| `JsonSpelling.CaseDoesNotMatter` | src/lua_cjson.c:735-768 | texts that differ only in the case of the letters a to f are read alike |
| `JsonSpelling.AnyPointReads` | src/lua_cjson.c:816-872 | every spelling of a scalar value, as one escape or a surrogate pair, decodes to its UTF-8 form |
| `JsonSpelling.PointInString` | src/lua_cjson.c:882-955 | and inside a string stands for exactly those bytes |
| `JsonSpelling.ShortEscapes` | src/lua_cjson.c:431-443 | which characters may follow a backslash and what they stand for |
| `JsonSpelling.StructuralCharacters` | src/lua_cjson.c:405-417 | the structural characters and white space are those of section 2 of RFC 8259 |
| `JsonSpelling.Words` | src/lua_cjson.c:1062-1076 | and the three words those of section 3 |
| `JsonSpelling.NumberGrammar` | src/lua_cjson.c:993-1005 | every number of section 6 of RFC 8259 is one token |
| `JsonLimits.NumberIsLongest` | src/lua_cjson.c:993-1005 | the number token is at least as long as any decimal numeral the text starts with |
| `JsonLimits.NumberIsDecimal` | src/lua_cjson.c:993-1005 | and it is one |
| `JsonLimits.EscapedBytes` | src/lua_cjson.c:151-189 | a byte is escaped if and only if it is a control character, DEL, a quote, a backslash or a slash |
| `JsonLimits.NumberedEscape` | src/lua_cjson.c:151-189 | a control character without a short escape is written as \u00 and two lower-case hexadecimal digits |
| `JsonGrammar.ParsesExactly` | src/lua_cjson.c:1132-1248 | the parser takes a value from the front of a text if and only if its tokens there are a tree of the grammar of RFC 8259, no deeper than the limit, and the value is what the tree means |
| `JsonGrammar.DecodesExactly` | src/lua_cjson.c:1250-1288 | a text decodes to a value if and only if its tokens, to the end, are such a tree and it does not start as UTF-16 or UTF-32 would |
| `JsonGrammar.LastCounts` | src/lua_cjson.c:1132-1181 | of members with one name the last one counts |
| `JsonFaults.FaultIsSo` | src/lua_cjson.c:1096-1288 | every error of the decoder names a token that does not fit behind the tokens before it, in the innermost open bracket, at the depth limit or at the end |
| `JsonFaults.StringFaultIsSo` | src/lua_cjson.c:882-955 | what a string is refused for, an end, an escape or a surrogate, stands where it is refused |
| `JsonRoundTrip.RoundTrip` | src/lua_cjson.c:656-698 | parsing the text of a value, followed by anything that ends a token, gives the value back and leaves what followed |
| `JsonRoundTrip.DenseLength` | src/lua_cjson.c:489-530 | keys exactly 1 to n, in any order, make an array of length n |
| `JsonLimits.SparseExactly` | src/lua_cjson.c:489-530 | a table is too sparse if and only if its keys are positive integers, the largest over ten and over twice their number, and otherwise an array up to the largest |
| `JsonLimits.ObjectExactly` | src/lua_cjson.c:489-530 | it is an object if and only if some key is no positive integer, or it is empty |
| `JsonLimits.RefusedForCause` | src/lua_cjson.c:532-698 | whatever reason a refusal gives, its cause is in the value: a depth, a sparse table, a key or a type |
| `JsonTrees.TextIsTree` | src/lua_cjson.c:562-698 | the tokens of the text of any value are the tree of the value: arrays with their holes as null, objects in the order of traversal, integer keys as strings |
| `JsonTrees.TextDecodes` | src/lua_cjson.c:700-729 | so every text decodes, to what that tree means |
| `JsonAcceptance.NoNul` | src/lua_cjson.c:656-698 | no text of the encoder holds a NUL |
| `JsonAcceptance.Accepted` | src/lua_cjson.c:532-553 | a value JSON can hold has a text if and only if it is nested no deeper than the limit |
| `JsonAcceptance.PlainValuesSurvive` | src/lua_cjson.c:700-729 | with equal depth limits, every value that has a text is decoded from it unchanged |
| `JsonEncoder.AppendStringLiteral` | src/lua_cjson.c:462-483 | the literal is appended; the unchecked quote has its room |
| `JsonEncoder.LuaArrayLength` | src/lua_cjson.c:489-530 | the traversal decides array, object or too sparse as specified |
| `JsonEncoder.AppendData` | src/lua_cjson.c:656-698 | the recursive printer appends exactly the specified text, or refuses for the specified reason |
| `JsonEncoder.JsonEncode` | src/lua_cjson.c:700-729 | the result is the specified one whatever an earlier call left in the buffer |
| `JsonParser.DecodeHex4` | src/lua_cjson.c:749-768 | what four hexadecimal digits spell, in either case, or -1 (`JsonSpelling.HexReads`), without reading behind the NUL |
| `Bits.TagPayload` | src/lua_cjson.c:780-801 | a tag above the low k bits and a payload in them share no bit, so setting the tag adds it |
| `JsonParser.SurrogateMasks` | src/lua_cjson.c:835-853 | the masks tell surrogates, high and low, exactly |
| `JsonParser.PairIs` | src/lua_cjson.c:855-858 | the ten low bits of both halves, shifted and joined, are the code point less 0x10000 |
| `JsonParser.CodepointToUtf8` | src/lua_cjson.c:772-805 | shifting, masking and setting the tag bits gives the UTF-8 form of section 3 of RFC 3629 |
| `JsonParser.Parser.AppendUnicodeEscape` | src/lua_cjson.c:816-872 | the escape's bytes are appended without a check and never exceed the characters consumed |
| `JsonParser.Parser.NextStringToken` | src/lua_cjson.c:882-940 | the string loop computes the specified token and never appends past the buffer sized from the input |
| `JsonParser.Parser.LexToken` | src/lua_cjson.c:1011-1088 | the next token is the specified one and the pointer stands behind it |
| `JsonParser.Parser.ProcessValue` | src/lua_cjson.c:1113-1248 | the value is the specified one, with the depth counter as before on success |
| `JsonParser.JsonDecode` | src/lua_cjson.c:1250-1288 | the whole input decodes to the specified value or fault |
| `EngineRuns.StepKeeps` | src/engine_luajit.c:384-669 | every step of a disciplined host keeps the whole invariant, of the engine and of every user's state |
| `EngineRuns.Safety` | src/engine_luajit.c:384-809 | over every run, reference counts are the numbers of live functions, every kept function's library is present, any script called by any user runs its own source, and any library function called by any user runs the callback its own source registers |
| `EngineRuns.NeverReused` | src/engine_luajit.c:384-470 | a freed function id never comes back, resets or not |
| `EngineCalls.CallEvalRuns` | src/engine_luajit.c:472-612 | a script call runs its own source in the caller's state, cached or not |
| `EngineCalls.CallFunctionRuns` | src/engine_luajit.c:472-612 | a function call runs its own callback, cached or not, and keeps the user's invariant; it fails only when running the library stops early |
| `EngineLimits.FreeServes` | src/script_luajit.c:1771-1778 | with right counts, after a free another function is still served if and only if it did not depend on the freed name |
| `EngineLimits.LateFreeServes` | src/engine_luajit.c:614-669 | whatever the host did before, after a free another function is still served if and only if it did not depend on the freed name and, unless it is cached, not on that last reference |
| `EngineLimits.RivalTakesName` | src/engine_luajit.c:614-669 | a run in which freeing one function makes another unavailable |
| `EngineLimits.StaleFreeReleases` | src/engine_luajit.c:716-809 | a run in which a late free after a reset drops a new library |
| `EngineResets.FunctionsAreGone` | src/engine_luajit.c:716-791 | after a reset of the functions, or of everything, a call of any function by any user misses the library, cached before or not |
| `EngineResets.ScriptsAreGone` | src/engine_luajit.c:716-791 | after a reset of the scripts, or of everything, every script has to be loaded again |
| `EngineResets.OthersUnaffected` | src/engine_luajit.c:716-791 | a reset of the scripts changes no call of a function, and the other way round |
| `EngineResets.IdsAfterReset` | src/engine_luajit.c:716-737 | then library ids start over and function ids go on |
| `EngineResets.ScriptLoadsOnce` | src/engine_luajit.c:493-512 | a script that ran once runs again without being loaded |
| `EngineResets.FunctionFoundOnce` | src/engine_luajit.c:493-584 | a function that ran once runs again even without its library |
| `EngineResets.LibraryRunsOnce` | src/engine_luajit.c:532-566 | a second function of a library that was run is only looked up |
| `EngineResets.IdsInOrder` | src/engine_luajit.c:384-470 | a script that loads gets the next id, and the functions of a library the next ones in their order |
| `ScriptEngine.Context.GetOrCreateUserState` | src/engine_luajit.c:263-277 | the state of the user, a fresh one at the first call |
| `ScriptEngine.Context.CompileEval` | src/engine_luajit.c:384-470 | a script that loads gets the next id |
| `ScriptEngine.Context.CompileLibrary` | src/engine_luajit.c:384-470 | a library that loads gets consecutive function ids and a reference for each |
| `ScriptEngine.PCall` | src/script_luajit.c:1608-1613 | the handler stands right under the function and its arguments, which give way to one result |
| `ScriptEngine.RunOnTop` | src/engine_luajit.c:586-611 | the function on top is run under the error handler, its result consumed by one reply, and every slot below is as before |
| `ScriptEngine.RegisterFunction` | src/script_luajit.c:1690-1754 | given a name and a function, or one table with both as named fields, the function is registered under the name, cut at its first NUL; with any other number or kind of arguments nothing is and an error is raised |
| `ScriptEngine.RegistersExactly` | src/script_luajit.c:1690-1754 | a call registers if and only if it has a string or number and a function, as two arguments or as the fields function_name and callback of one table |
| `ScriptEngine.RegistersName` | src/script_luajit.c:1690-1754 | the function goes by that name in either form |
| `ScriptEngine.Context.CacheSet` | src/engine_luajit.c:579-583 | the cache table is the slot that lua_rawset(-4) finds, it gets the function on top, and goes itself |
| `ScriptEngine.Context.CallEval` | src/engine_luajit.c:472-612 | the outcome of the specification, exactly one reply, and the stack slot for slot as before |
| `ScriptEngine.Context.CallFunction` | src/engine_luajit.c:472-612 | the outcome of the specification, exactly one reply, and the stack slot for slot as before, except where the library is missing: then one slot below is gone too |
| `ScriptEngine.Context.FreeFunction` | src/engine_luajit.c:614-669 | one reference less, the library gone with the last one, the name gone from every user |
| `ScriptEngine.Context.ResetEnv` | src/engine_luajit.c:716-809 | the dictionaries a reset of that kind empties, in the engine and for every user |
| `RespRoundTrip.ReadBack` | src/script_luajit.c:454-638 | a client that trusts the lengths in the headers reads exactly the reply that was sent, whatever follows it |
| `RespRoundTrip.ErrorExact` | src/script_luajit.c:162-202 | an error text comes back if and only if it has no NUL, no leading dash and no line end at either end |
| `RespRoundTrip.IntegerExact` | src/script_luajit.c:248-257 | an integer survives the conversion to a Lua number if and only if it is a multiple of the distance between the doubles around it |
| `RespRoundTrip.SmallIntegersExact` | src/script_luajit.c:248-257 | every integer up to 2^53 in magnitude survives the conversion to a Lua number |
| `RespRoundTrip.FirstInexactInteger` | src/script_luajit.c:248-257 | 2^53 + 1 does not |
| `RespShape.LeafReply` | src/script_luajit.c:220-416 | a reply that is not an aggregate comes back if and only if it is faithful |
| `RespShape.RoundTrip` | src/script_luajit.c:454-638 | under RESP3 every faithful reply, however nested, comes back the same up to the order of maps and sets, for every order of traversal |
| `RespExact.Exact` | src/script_luajit.c:454-638 | under RESP3 a reply comes back the same up to the order of maps and sets if and only if it is faithful, however nested |
| `RespExact.OrderedExact` | src/script_luajit.c:454-638 | without maps and sets, it comes back equal if and only if it is faithful |
| `RespExact.Lighter` | src/script_luajit.c:454-638 | no conversion there and back makes a reply heavier, and only a faithful one keeps its weight, so changes inside a set cannot cancel out |
| `RespExact.RoundingSettles` | src/script_luajit.c:248-257 | an integer that was rounded once is not changed again |
| `RespShape.OrderedIsShape` | src/script_luajit.c:454-638 | without maps and sets that is equality |
| `RespShape.KindKept` | src/script_luajit.c:454-638 | no reply, faithful or not, comes back as another kind; the two nulls count as one kind |
| `RespShape.NullCutsArray` | src/script_luajit.c:618-633 | an array with a null inside comes back as the items before it |
| `RespShape.ArrayPartOfItems` | src/script_luajit.c:258-275 | the table of an array reply is taken for an array, ending before the first nil |
| `RespTwo.LuaIsLifted` | src/script_luajit.c:220-416 | under RESP2 a reply becomes the Lua value that under RESP3 the same reply with false for its nulls becomes |
| `RespTwo.ReplyIsLowered` | src/script_luajit.c:454-638 | under RESP2 a Lua value is sent as what RESP3 would send with 1 for true and a null for false, at every depth |
| `RespTwo.TruthSurvives` | src/script_luajit.c:469-481 | a boolean sent and read back under RESP2 is a true value if and only if it was true |
| `RespTwo.LowerHasNone` | src/script_luajit.c:469-481 | no boolean is ever sent under RESP2 |
| `RespTwo.ExactTwo` | src/script_luajit.c:454-638 | under RESP2 a reply comes back the same, up to the order of maps and sets, if and only if it has neither booleans nor null arrays and is faithful with false for its nulls |
| `RespNames.EarlierFieldCounts` | src/script_luajit.c:495-610 | a field looked up behind the one that decides about a table changes nothing, whatever it holds |
| `RespNames.ShortNames` | src/script_luajit.c:495-610 | the field names are the ones of the protocol |
| `RespNames.CodedError` | src/script_luajit.c:162-202 | "-CODE message" is stored as the code, a space and the trimmed message |
| `RespNames.BareError` | src/script_luajit.c:162-202 | "-word" is stored behind the code ERR |
| `RespNames.OneLineAt` | src/script_luajit.c:515-523 | in a status or big number a line end becomes a space and nothing else changes |
| `RespNames.TowardsZero` | src/script_luajit.c:483 | a number loses its fraction, on either side of zero |
| `RespNames.LimitReached` | src/script_luajit.c:457-465 | with room for fewer than four values the reply is the stack limit error |
| `RespNames.TaggedFields` | src/script_luajit.c:234-371 | the tables of status, double and big number replies, by their field names |
| `RespNames.ErrorFields` | src/script_luajit.c:393-407 | the table of an error has its text and is marked not to be counted again |
| `RespNames.VerbatimField` | src/script_luajit.c:372-392 | the table of a verbatim string has its text and its format |
| `RespNames.ItemsFromOne` | src/script_luajit.c:258-275 | item i of an array reply is under the number i + 1 |
| `RespNames.SentFromOne` | src/script_luajit.c:618-633 | an array that is sent has what is under 1, 2 and so on, up to the first hole |
| `RespNames.MembersAreTrue` | src/script_luajit.c:313-334 | the members of a set reply are the keys of its table, each with the value true |
| `RespNames.OthersAreNull` | src/script_luajit.c:635 | nil, functions and userdata are sent as nulls |
| `RespStack.Interpreter.PushReply` | src/script_luajit.c:220-416 | exactly one value is pushed, the specified one, unless Lua raises an error for a nil key |
| `RespStack.Interpreter.SendReply` | src/script_luajit.c:454-638 | exactly one slot is consumed and exactly one complete reply emitted, the specified one (`RespExact.Exact` for RESP3, `RespTwo.ReplyIsLowered` for RESP2), on every branch and at the stack limit |
| `RespStack.Interpreter.SetLength` | src/script_luajit.c:572-633 | the postponed length goes to the innermost open aggregate |
| `RespStack.Interpreter.SendElements` | src/script_luajit.c:618-633 | the array loop ends, and the length set is the number of elements emitted |
| `RespStack.TokensSettled` | src/script_luajit.c:454-638 | a complete reply has no length outstanding |
| `IntegerText.Digits10IsLength` | src/script_luajit.c:647-665 | the decision tree counts the digits of every number |
| `IntegerText.Ull2String` | src/script_luajit.c:675-713 | the canonical decimal, its length and a terminator; 0 exactly when they do not fit |
| `IntegerText.Ll2String` | src/script_luajit.c:715-745 | the same for every signed 64-bit value, the least one included |
| `IntegerText.IntTextDiffers` | src/script_luajit.c:715-745 | two integers with the same text are equal |
| `IntegerText.OneSpelling` | src/script_luajit.c:715-745 | the text is the only one that has a sign exactly for a negative number, no leading zero, and the value |
| `IntegerText.KnownText` | src/script_luajit.c:675-745 | -1234567890 is written so |
| `StructFormat.Pow2Exactly` | src/lua_struct.c:62 | the bit test holds exactly for powers of two |
| `StructFormat.Aligns` | src/lua_struct.c:137-142 | for a unit that is a power of two the padding is the least that reaches a multiple of it |
| `StructFormat.StartUnpadded` | src/lua_struct.c:137-142 | an option at the start takes no padding if and only if its unit is a power of two |
| `StructFormat.OddSizePads` | src/lua_struct.c:137-142 | a 3-byte integer under alignment 4 is padded by two bytes at position 0 |
| `StructCodec.IntReads` | src/lua_struct.c:169-290 | an integer comes back if and only if its option can hold it, for every size, signedness and byte order |
| `StructExact.RoundTrip` | src/lua_struct.c:208-363 | unpacking what a format packed gives the arguments back and the position after them if and only if they are reversible, under any mix of byte orders and alignments, wherever unpacking is specified at all |
| `StructExact.FittingIsReversible` | src/lua_struct.c:208-363 | integers in range, exact lengths, counted c0 strings and strings without NUL are reversible |
| `StructExact.WrappedLength` | src/lua_struct.c:337-348 | 300 in one byte before a c0 string of 44 bytes is reversible too, the one thing that need not be in range |
| `StructExact.DoublePrefixed` | src/lua_struct.c:328-348 | the double 5.0 before a c0 string of 5 bytes is taken for its length and is reversible |
| `StructLaws.AllReturned` | src/lua_struct.c:208-363 | without c0 the results are all the arguments |
| `StructLaws.LengthPrefixed` | src/lua_struct.c:337-348 | a counted string: the length is taken by c0 and the string comes back |
| `StructLaws.SizeIsLength` | src/lua_struct.c:366-385 | whenever a format packs, its size is the packed length, unless it has s or c0, and then it has no size |
| `StructLaws.SizedPacksIff` | src/lua_struct.c:366-385 | a format with a size can be packed with some arguments if and only if it has no stray letter or digit |
| `StructLaws.StrayLetter` | src/lua_struct.c:366-385 | the size of "z" is 0 while nothing packs with it |
| `StructBytes.PacksPlain` | src/lua_struct.c:208-263 | any sequence of options and switches is packed as its values one behind the other, each behind its padding, in the width of its option, and with its bytes by weight in the order last set |
| `StructBytes.UnpacksPlain` | src/lua_struct.c:293-363 | and unpacked from those bytes, options in lower case as signed |
| `StructBytes.FormatsArePlain` | src/lua_struct.c:208-363 | so for struct.pack and struct.unpack, which start little-endian and unaligned |
| `StructBytes.IntegerByWeight` | src/lua_struct.c:169-193 | byte i of an integer is n / 256^i mod 256, the low byte last after > and first after < |
| `StructBytes.OneInteger` | src/lua_struct.c:208-263 | one integer behind a switch of the order, or none |
| `StructBytes.TwoByteOrders` | src/lua_struct.c:149-153 | ">I2" writes n / 256 and n mod 256, "<I2" the reverse |
| `StructBytes.OptionIs` | src/lua_struct.c:92-166 | which options take a numeral, the width of each option and the alignment that ! sets |
| `StructBytes.MissingValue` | src/lua_struct.c:208-263 | with any number of values fewer, packing ends in an argument error |
| `StructBytes.MissingBytes` | src/lua_struct.c:293-363 | with any number of bytes fewer, unpacking ends in an error for short data or an unfinished string |
| `StructBytes.NumberLimits` | src/lua_struct.c:92-131 | a number in a format goes up to 2^31 - 1 and the size of an integer up to 32 |
| `StructBytes.CountedText` | src/lua_struct.c:247-258 | "c" with a number takes so many bytes of its string, all of them for 0, and refuses a shorter one |
| `StructBytes.OnlyPowers` | src/lua_struct.c:154-160 | an alignment is taken if and only if it is a power of two |
| `StructBytes.OtherLetters` | src/lua_struct.c:161-164 | what is neither an option nor a switch is turned down |
| `StructBytes.NoLengthYet` | src/lua_struct.c:337-348 | a c0 with no result before it is an error |
| `StructLoops.ReadNumber` | src/lua_struct.c:92-104 | the number written in the format, or an error exactly when it exceeds INT_MAX |
| `StructLoops.PutInteger` | src/lua_struct.c:169-193 | filling the buffer from either end writes the specified bytes |
| `StructLoops.GetInteger` | src/lua_struct.c:266-290 | shifting the bytes into a word and extending the sign reads the specified number |
| `StructLoops.CorrectBytes` | src/lua_struct.c:196-205 | the swaps in place reverse the bytes |
| `StructLoops.PackAll` | src/lua_struct.c:208-263 | the option loop computes the specified bytes or error: for every format without c0 those of `StructBytes.PacksPlain` |
| `StructLoops.UnpackAll` | src/lua_struct.c:293-363 | the option loop computes the specified results, next position or error: `StructBytes.UnpacksPlain` says which |
| `StructLoops.SizeAll` | src/lua_struct.c:366-385 | the option loop computes the specified size or error |

## Left out

- LuaJIT itself: Lua values are a finite datatype, tables are lists of entries, metatables, coercions between numbers and strings, garbage collection, hooks and timeouts are not modelled.
- Allocation failure, and the exits of the string buffer and the MessagePack buffer on size overflow.
- `src/function_luajit.c`, configuration, module loading, the debugger and the FFI interface: plumbing around the parts modelled.
- MessagePack: integers beyond 2^53 that Lua rounds to a double, NaN and comparisons of floats, array indexes past INT_MAX, luaL_checkstack; `f` and `d` payloads are bytes as they come.
- JSON numbers: the text of a number is a token that strtod takes whole; `src/fpconv.c`, infinities, NaN, hexadecimal text and the 14 digits of integer keys from 10^14 on are not modelled. Sparse-array options keep their defaults.
- JSON array indexes above INT_MAX.
- Engine: library code is a list of names it registers, the same at every run; KEYS, ARGV, error handlers, the asynchronous part of a reset, memory accounting and the FFI context are left out, and the host passes each function to the call of its own kind. Error texts of the engine are parameters.
- ScriptEngine.Context.CallFunction: where the library is missing the stack must hold a value below, as popping an empty Lua stack has no defined meaning.
- ScriptEngine.RegisterFunction: the texts of its error messages.
- RespExact.Exact: takes room on the Lua stack and verbatim formats of at least three characters as given, the format being read as three characters wherever it is shorter.
- Sha1Context.Context.Update: chunks for which the 32-bit sum of the guard wraps are excluded, since what the source does with them has no defined meaning; GuardIsExact and WrappedGuard say exactly when and why.
- RESP: attribute and promise replies, RESP2 framing of maps and sets, whether an error counts in the statistics, the panic when the Lua stack is full while a reply is converted to Lua, and infinities and NaN.
- RESP tables on the stack are values; lua_next visits an arbitrary permutation of the entries that stays the same during one traversal.
- struct: the machine is 64-bit with little-endian byte order; floats are images of their bits, of which only the whole part is read, as the length of a `c0`; signed integers of size 0 or above 8, where the source shifts too far, end in an error of their own when unpacked. Integers beyond 2^53, which lua_pushnumber rounds, are taken as they are.
- StructExact.RoundTrip: claims nothing where a `c0` follows a string, which Lua takes for a length if it is a numeral, or a number that is no size (negative, infinite, not a number, or too large); such a `c0` is unspecified.
- StructLoops.UnpackAll: the same cases of `c0` are unspecified.
- StructLoops.PackAll: an argument of another type than its option asks for, which Lua may convert, is unspecified; a missing one is an error.
