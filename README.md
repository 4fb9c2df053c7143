# ubuf in Dafny

ubuf is a small binary wire format. It has three parts:

- a growable byte writer (`OutBuffer`) and a bounds-checked reader (`InBuffer`), in C++ (`io/io.hpp`) and in JavaScript (`io/io.js`);
- a variable-length integer (varint) for every length prefix;
- a way to declare tagged, fixed-schema messages. The Python generator `ubuf.py` turns such a declaration into C++ structs with `operator>>`/`operator<<`, or into JS classes with `InBuffer.prototype.read*`/`OutBuffer.prototype.write*` methods. `examples/protocol.hpp` and `examples/protocol.js` are its output for the sample protocol: `Pos` and five messages.

The model has nine modules, one per file:

| module | file | models |
|---|---|---|
| `Bytes` | bytes.dfy | `byte`, `Float64` (an 8-byte string), `Result` (the C++ `throw "OOM"`), `Step` (a read from a position: `Done(value, next)` or `Fail(at)`), and small sequence facts |
| `Varint` | varint.dfy | the varint: `Digits`/`Value` is the reference definition, `Encode` what the writers emit, `From`/`Decode` what `read_size` computes; `Collect` is the digit-collecting loop both writers share |
| `Wire` | wire.dfy | the byte layout of `Pos` and the five messages, their readers as functions on the whole byte region, and the round trip, length and truncation facts |
| `CppIo` | cpp_io.dfy | the classes `InBuffer` (`data`, `offset`) and `OutBuffer` (`p: array<byte>`, `size`, `bufsize`), each method proved against `Varint`/`Wire` |
| `CppProtocol` | cpp_protocol.dfy | the C++ `operator>>`/`operator<<` of `Pos` and of each message, and `serialize` |
| `JsIo` | js_io.dfy | the JS `InBuffer` (a byte array with an `offset`; reading past the end yields `undefined`) and `OutBuffer` (a JS array of numbers, turned into a `Uint8Array` by `serialize`) |
| `JsProtocol` | js_protocol.dfy | the JS classes, their `read*`/`write*` prototype methods and `serialize`, and how the JS bytes relate to the C++ bytes |
| `PyStr` | pystr.dfy | the Python string operations the generator relies on: `split`, `join`, `str.capitalize`, decimal formatting |
| `Ubuf` | ubuf.dfy | `ubuf.py`: the C++ and JS emitters and the `JS_TYPES` table (the class `JsGenerator`); lemmas split the generated text into lines |

The varint is big-endian in groups of 7 bits. Every byte except the last has `0x80` set; 0 is the single byte `0`. `Encode(n)` is `Marked(n / 128) + [n % 128]`, where `Marked(m)` is the digits of `m`, each with `0x80` set. `EncodeShape` ties this to the digit list `Digits(n)`, whose value `Value` is `n` (`DigitsValue`).

In C++, a read that runs out of bytes throws. `Result.Oom` models the throw. The per-message readers are stated against `Wire`'s `Parse*` functions, which return `Fail(at)` with the offset the reader is left at. In JS nothing is bounds-checked: a byte past the end is `undefined`, and `& 0x7f`, `& 0x80` and `String.fromCharCode` treat it as 0. So the JS readers never fail; `JsIo.From`/`JsProtocol.ParseAs` return a value and the offset reached, which may lie past the end.

On the JS side a string is a sequence of UTF-16 code units. `writeChar` pushes the code unit as is, and `serialize` keeps it modulo 256. Going through bytes therefore returns a string unchanged exactly when each of its code units is below 256 (`JsProtocol.StringThroughBytes`). This is why `JsProtocol.RoundTrip` requires `Latin1Msg`.

The generator's output is described line by line. A lemma such as `CEntryLines` gives `split('\n')` of the text emitted for one entry as an explicit list of lines. `PyStr.BlockLines`, `PyStr.JoinAround` and `PyStr.SplitJoin` relate `join` and `split`.

## Model

| member | source | states |
|---|---|---|
| Varint.DigitsValue | io/io.hpp:20-31 | the base-128 digit list of `n` evaluates back to `n` (the accumulator `ans = ans * 128 + (c & 0x7f)` of `read_size`) |
| Varint.EncodeShape | io/io.hpp:86-101 | the encoding of `n` has exactly one byte per base-128 digit, most significant first; each byte is its digit, plus 128 on every byte but the last |
| Varint.EncodeContinuation | io/io.hpp:91-98 | in the encoding, the high bit is set on every byte except the last; for `n > 0` the first byte is neither 0 nor `0x80`; 0 encodes as the single byte 0 |
| Varint.EncodeSingleByte | io/io.hpp:95-98 | the encoding is one byte long exactly when `n < 128` |
| Varint.CollectStep | io/io.hpp:89-94 | one pass of the collecting loop keeps the invariant: the digits still in `inp` (marked), followed by the reversed collected bytes, are the marked digits of `n` |
| Varint.FinishCollected | io/io.hpp:95-99 | pushing 0 onto an empty collection, or clearing the high bit of the first collected byte, and then reversing gives the encoding of `n` |
| Varint.Collect | io/io.hpp:88-98 | the bytes collected by the loop, once reversed, are the encoding of `n` |
| Varint.From | io/io.hpp:20-31 | a digit run that ends inside the data ends after the starting offset; one that runs off the end fails at the end of the data |
| Varint.FromMarked | io/io.hpp:24-29 | reading over the marked digits of `m` continues with accumulator `m` just past them |
| Varint.DecodeEncode | io/io.hpp:20-31 | reading a size where the encoding of `n` sits returns `n` and moves just past the encoding |
| Varint.EncodeInjective | io/io.hpp:86-101 | two sizes with the same encoding are equal |
| Varint.FromAllMarked | io/io.hpp:24-29 | if every remaining byte has its high bit set, the read runs off the end and fails there |
| Varint.DecodeCut | io/io.hpp:20-31 | reading a cut-short encoding fails at the end of the data |
| Wire.ParseScalar | io/io.hpp:37-43 | a scalar read fails exactly when fewer than `width` bytes remain, and then leaves the offset where it was; otherwise it returns the next `width` bytes and moves past them |
| Wire.ParseString | io/io.hpp:45-52 | a successful string read returns the bytes right before the new offset, after the length prefix; a failure lies past the start or at the end of the data |
| Wire.ParsePos | examples/protocol.hpp:146-149 | a successful `Pos` read consumes exactly 16 bytes |
| Wire.TagsDistinct | examples/protocol.hpp:158-212 | the five `id_` constants are below 5 and pairwise distinct |
| Wire.ParseStringEncode | io/io.hpp:45-52 | reading a string where `write` put `t` returns `t` and moves past it |
| Wire.ParsePosEncode | examples/protocol.hpp:146-153 | reading a `Pos` where one was written returns it and moves 16 bytes on |
| Wire.ParseAsEncodeFields | examples/protocol.hpp:161-221 | each message's reader, run over the fields its writer emitted, returns the message and consumes them all |
| Wire.ParseServerUpdateEncode | examples/protocol.hpp:199-209 | reading a ServerUpdateMsg over `user_id`, `name` and `pos` as written returns the message and consumes them all |
| Wire.ParseNamePosEncode | examples/protocol.hpp:201-202 | after `user_id`, the `name` string and the `pos` read back in turn |
| Wire.RoundTrip | examples/protocol.hpp:164-221 | a serialized message starts with its `id_`; reading the remaining bytes with that message's reader gives the message back and consumes every byte |
| Wire.PosLength | examples/protocol.hpp:150-153 | a written `Pos` is 16 bytes: the 8 bytes of `x`, then the 8 bytes of `y` |
| Wire.ServerRegisterLayout | examples/protocol.hpp:169-179 | ServerRegisterMsg serializes to the single byte 1; its reader consumes nothing and always succeeds |
| Wire.ServerUpdateLength | examples/protocol.hpp:204-209 | a serialized ServerUpdateMsg is 1 + (length prefix + bytes of `user_id`) + (length prefix + bytes of `name`) + 16 bytes long |
| Wire.ParseStringCut | io/io.hpp:45-52 | reading a cut-short string throws |
| Wire.ParsePosCut | examples/protocol.hpp:146-149 | reading a cut-short `Pos` throws |
| Wire.ParseServerUpdateCut | examples/protocol.hpp:199-203 | reading cut-short ServerUpdateMsg fields throws, wherever the cut falls |
| Wire.ParseServerUpdateCutAfterUserId | examples/protocol.hpp:201-202 | once `user_id` has been read, a cut inside `name` or `pos` throws |
| Wire.ParseAsCut | examples/protocol.hpp:161-217 | each message's reader throws on a cut-short copy of its fields |
| Wire.DropLastByteThrows | examples/protocol.hpp:161-221 | for every message but ServerRegisterMsg, reading the serialized message without its last byte throws |
| CppIo.InBuffer.constructor | io/io.hpp:12-13 | the reader starts at offset 0 over the given bytes |
| CppIo.InBuffer.Size | io/io.hpp:15-18 | `size()` is the length of the byte region |
| CppIo.InBuffer.ReadScalar | io/io.hpp:37-43 | throws exactly when fewer than `width` bytes remain, and then leaves the offset unchanged; otherwise returns the next `width` bytes and advances past them; agrees with `Wire.ParseScalar` |
| CppIo.InBuffer.ReadSize | io/io.hpp:20-31 | the loop's result and new offset are `Varint.Decode` of the data at the old offset; runs off the end exactly when `Decode` fails |
| CppIo.InBuffer.ReadString | io/io.hpp:45-52 | the result and new offset are `Wire.ParseString` of the data at the old offset, the throw included |
| CppIo.CapacityIsDoubling | io/io.hpp:57-84 | every capacity the buffer can have is `INIT` (64) times a power of two |
| CppIo.DoublingIsCapacity | io/io.hpp:57-84 | conversely, `INIT` times any power of two is a capacity, so the capacities are exactly 64·2^k |
| CppIo.Realloc | io/io.hpp:82 | the new block has the requested length and starts with the old block's bytes |
| CppIo.Memcpy | io/io.hpp:110 | the copy puts `src` at `at` and leaves every other byte as it was |
| CppIo.OutBuffer.constructor | io/io.hpp:62-63 | a new buffer is empty, with capacity `INIT` |
| CppIo.OutBuffer.IncreaseSize | io/io.hpp:75-84 | the size grows by `sz` and the bytes written so far are kept; the capacity never shrinks, stays 64 times a power of two and at least the size, and it grows only if the size outgrew it, to the least doubling that holds the size |
| CppIo.OutBuffer.WriteScalar | io/io.hpp:107-111 | the contents become the old contents followed by the scalar's bytes |
| CppIo.OutBuffer.WriteSize | io/io.hpp:86-101 | the contents become the old contents followed by `Varint.Encode(n)` |
| CppIo.OutBuffer.WriteString | io/io.hpp:117-124 | the contents become the old contents followed by the length prefix and the string's bytes |
| CppIo.OutBuffer.AsString | io/io.hpp:126-129 | `as_string()` is exactly the `size` bytes written |
| CppProtocol.ReadPos | examples/protocol.hpp:146-149 | result and offset are `Wire.ParsePos`, the throw included |
| CppProtocol.WritePos | examples/protocol.hpp:150-153 | appends the 16 bytes of `Wire.EncodePos` |
| CppProtocol.ReadClientRegisterMsg | examples/protocol.hpp:161-163 | result and offset are those of the `Wire` reader, the throw included |
| CppProtocol.WriteClientRegisterMsg | examples/protocol.hpp:164-167 | appends the tag 0 and the length-prefixed name |
| CppProtocol.ReadServerRegisterMsg | examples/protocol.hpp:173-175 | reads nothing and succeeds |
| CppProtocol.WriteServerRegisterMsg | examples/protocol.hpp:176-179 | appends the tag 1 only |
| CppProtocol.ReadClientUpdateMsg | examples/protocol.hpp:185-187 | result and offset are those of the `Wire` reader, the throw included |
| CppProtocol.WriteClientUpdateMsg | examples/protocol.hpp:188-191 | appends the tag 2 and the position |
| CppProtocol.ReadServerUpdateMsg | examples/protocol.hpp:199-203 | result and offset are those of the `Wire` reader; a throw in any field propagates |
| CppProtocol.WriteServerUpdateMsg | examples/protocol.hpp:204-209 | appends the tag 3, `user_id`, `name` and `pos`, in that order |
| CppProtocol.ReadServerDeleteMsg | examples/protocol.hpp:215-217 | result and offset are those of the `Wire` reader, the throw included |
| CppProtocol.WriteServerDeleteMsg | examples/protocol.hpp:218-221 | appends the tag 4 and the length-prefixed `user_id` |
| CppProtocol.Write | examples/protocol.hpp:164-221 | the overload chosen by the message's type appends `Wire.Encode(msg)` |
| CppProtocol.Serialize | io/io.hpp:132-138 | `serialize(msg)` is `Wire.Encode(msg)` and begins with the message's `id_` |
| CppProtocol.SerializePos | io/io.hpp:132-138 | `serialize(pos)` is the 16 bytes of `x` then `y` |
| JsIo.Uint8 | io/io.js:39-41 | `new Uint8Array(elems)` keeps the length and stores each element modulo 256 |
| JsIo.Units | io/io.js:30 | `String.fromCharCode` of each byte gives that byte as a code unit |
| JsIo.Uint8Units | io/io.js:30-40 | code units made from bytes come back as the same bytes |
| JsIo.From | io/io.js:10-20 | the size read always ends after its start, and at most one position past the end of the data |
| JsIo.BytesAt | io/io.js:21-26 | the bytes read are those of the data, and 0 for each position past its end |
| JsIo.FromAgrees | io/io.js:10-20 | where the C++ `read_size` succeeds, the JS one returns the same size and offset; where C++ throws, JS stops one position past the end |
| JsIo.DecodeAgrees | io/io.js:10-20 | the same, for a read from a fresh accumulator |
| JsIo.InBuffer.constructor | io/io.js:2-5 | the reader starts at offset 0 over the given bytes |
| JsIo.InBuffer.ReadChar | io/io.js:6-9 | advances the offset by one and returns the element there, `undefined` past the end |
| JsIo.InBuffer.ReadSize | io/io.js:10-20 | result and offset are `JsIo.Decode` of the data at the old offset |
| JsIo.InBuffer.ReadDouble | io/io.js:21-26 | returns the next 8 bytes (0 past the end) and advances by 8 |
| JsIo.InBuffer.ReadString | io/io.js:27-32 | returns, as code units, the `n` bytes after the length prefix `n` (0 past the end), and advances past them |
| JsIo.OutBuffer.constructor | io/io.js:36-38 | a new buffer is empty |
| JsIo.OutBuffer.Serialize | io/io.js:39-41 | returns each element modulo 256 |
| JsIo.OutBuffer.WriteChar | io/io.js:42-44 | appends the one element |
| JsIo.OutBuffer.WriteSize | io/io.js:45-56 | appends the varint encoding of `n`, the same bytes as the C++ writer |
| JsIo.OutBuffer.WriteDouble | io/io.js:57-63 | appends the double's 8 bytes |
| JsIo.OutBuffer.WriteString | io/io.js:64-68 | appends the length prefix, then the code units unchanged |
| JsProtocol.ParseString | io/io.js:27-32 | the read ends after its start, `length` positions past the end of the prefix |
| JsProtocol.ParsePos | examples/protocol.js:87-90 | a `Pos` read always moves 16 positions on |
| JsProtocol.ParseAs | examples/protocol.js:106-216 | the reader of a type always returns a message of that type and never moves backwards |
| JsProtocol.ReadPos | examples/protocol.js:87-90 | result and offset are `ParsePos` |
| JsProtocol.WritePos | examples/protocol.js:91-94 | appends `x`'s 8 bytes, then `y`'s |
| JsProtocol.ReadClientRegisterMsg | examples/protocol.js:112-114 | result and offset are those of the reader function |
| JsProtocol.WriteClientRegisterMsg | examples/protocol.js:115-118 | appends the id 0 and the name |
| JsProtocol.ReadServerRegisterMsg | examples/protocol.js:136-138 | reads nothing |
| JsProtocol.WriteServerRegisterMsg | examples/protocol.js:139-142 | appends the id 1 only |
| JsProtocol.ReadClientUpdateMsg | examples/protocol.js:160-162 | result and offset are those of the reader function |
| JsProtocol.WriteClientUpdateMsg | examples/protocol.js:163-166 | appends the id 2 and the position |
| JsProtocol.ReadServerUpdateMsg | examples/protocol.js:186-190 | result and offset are those of the reader function |
| JsProtocol.WriteServerUpdateMsg | examples/protocol.js:191-196 | appends the id 3, `user_id`, `name` and `pos`, in that order |
| JsProtocol.ReadServerDeleteMsg | examples/protocol.js:214-216 | result and offset are those of the reader function |
| JsProtocol.WriteServerDeleteMsg | examples/protocol.js:217-220 | appends the id 4 and `user_id` |
| JsProtocol.Write | examples/protocol.js:101-205 | the `write<Class>` that a class's `serialize` calls appends `Encode(msg)` |
| JsProtocol.Deserialize | examples/protocol.js:106-216 | `deserialize` of a class returns what its reader function returns |
| JsProtocol.ToWire | examples/protocol.js:97-220 | the C++ message made from a JS one has the same type |
| JsProtocol.FromWire | examples/protocol.js:97-220 | the JS message made from a C++ one has the same type |
| JsProtocol.Uint8Append | io/io.js:39-41 | `serialize` of two arrays written one after the other is the concatenation of their bytes |
| JsProtocol.StringThroughBytes | io/io.js:27-41 | a string survives `serialize` and `String.fromCharCode` exactly when each of its code units is below 256 |
| JsProtocol.SerializeString | io/io.js:45-68 | the serialized bytes of `writeString(t)` are the C++ layout of the string `t` modulo 256 |
| JsProtocol.SerializePosBytes | examples/protocol.js:91-94 | the serialized bytes of `writePos` are the C++ layout of the position |
| JsProtocol.SerializeMatchesWire | examples/protocol.js:101-205 | every message serializes to the bytes its C++ counterpart does |
| JsProtocol.WireRoundTrip | examples/protocol.js:97-220 | a JS message converts to C++ and back unchanged exactly when its strings are Latin-1; a C++ message always converts to JS and back unchanged |
| JsProtocol.BytesAtInside | io/io.js:21-26 | inside the data, the bytes read are exactly the data's bytes |
| JsProtocol.ParseStringAgrees | io/io.js:27-32 | where the C++ string read succeeds, the JS one returns the same bytes and offset; where C++ throws, JS ends past the end of the data |
| JsProtocol.ParsePosAgrees | examples/protocol.js:87-90 | the same, for `Pos` |
| JsProtocol.ParseAsAgrees | examples/protocol.js:112-216 | the same, for each message's reader |
| JsProtocol.RoundTrip | examples/protocol.js:101-216 | a message with Latin-1 strings serializes to bytes that start with its id; reading the rest with its class's reader gives it back and consumes every byte |
| JsProtocol.ReadsCppBytes | examples/protocol.js:112-216 | the JS reader reads any C++-serialized message back, consuming every byte |
| JsProtocol.Serialize | examples/protocol.js:101-205 | `serialize()` returns the message's elements modulo 256, which are exactly the C++ `serialize` bytes |
| JsProtocol.SerializePos | examples/protocol.js:78-82 | `Pos.serialize()` returns the C++ layout: `x`'s 8 bytes, then `y`'s |
| PyStr.Split | ubuf.py:62 | `split` gives at least one piece, and no piece holds the separator |
| PyStr.SplitAppend | ubuf.py:62 | splitting at a separator splits the two sides independently |
| PyStr.JoinSplit | ubuf.py:62 | joining the pieces of a split with the separator gives the string back |
| PyStr.SplitJoin | ubuf.py:14-16 | splitting a join of pieces that do not hold the separator gives the pieces back |
| PyStr.BlockLines | ubuf.py:12-37 | the lines of `first + join("\n" + ind, ps) + last` are `ps`, each indented, with `first` glued to the first and `last` to the last |
| PyStr.JoinLines | ubuf.py:55 | the lines of a newline-join are its one-line pieces |
| PyStr.JoinAround | ubuf.py:55 | in a newline-join of one-line pieces around a multi-line piece, only that piece splits further |
| PyStr.BlockIndent | ubuf.py:94 | an indented join without prefix or suffix is each piece indented |
| PyStr.ConcatAppend | ubuf.py:62 | `"".join` of two lists is the concatenation of their joins |
| PyStr.Decimal | ubuf.py:13 | a formatted number is a non-empty run of digits without a leading zero, except 0 itself |
| PyStr.DecimalRoundTrip | ubuf.py:13 | reading the digits back gives the number |
| PyStr.DecimalInjective | ubuf.py:13 | distinct numbers format differently |
| PyStr.Capitalize | ubuf.py:62 | on ASCII names, `str.capitalize` keeps the length; the first character is not lower case afterwards, and no later character is upper case |
| PyStr.CapitalizeKeepsLetters | ubuf.py:62 | on ASCII names, `str.capitalize` changes only the case of letters, and keeps `_` where it was |
| Ubuf.Normalize | ubuf.py:44-47 | a declaration is an alias exactly when it is a non-empty string, and then names that type; otherwise it is a record with its fields, or with none |
| Ubuf.CTranslateType | ubuf.py:4-8 | `string` becomes `std::string`; every other name is kept |
| Ubuf.CTranslateIdempotent | ubuf.py:4-8 | translating twice is translating once |
| Ubuf.CFieldLines | ubuf.py:13-16 | the body of a struct is the `id_` line for a message, then one declaration line per field |
| Ubuf.CStructLines | ubuf.py:11-17 | the lines of `c_struct` are the opening, the message's `id_` line, one declaration per field in order, and `};` |
| Ubuf.CReaderLines | ubuf.py:20-23 | the lines of `c_reader` are the opening, one `buf >> out.<attr>;` per field in order, and `};` |
| Ubuf.CWriterLines | ubuf.py:26-37 | the lines of `c_writer` are the opening, `buf << el.id_;` for a message, one `buf << el.<attr>;` per field in order, and `};` |
| Ubuf.CRecordLines | ubuf.py:50-53 | the code of a record is its struct's, reader's and writer's lines in that order |
| Ubuf.CEntryLines | ubuf.py:43-53 | an entry emits either the one `using` line or the struct, reader and writer lines |
| Ubuf.CIdsDistinct | ubuf.py:13 | two records numbered differently get different `id_` lines |
| Ubuf.CCode | ubuf.py:40-55 | the loop returns the code of every entry, numbered from 0 in map order with aliases counted, joined by newlines |
| Ubuf.CamelAppend | ubuf.py:61-62 | CamelCasing `a_b` is CamelCasing `a` followed by CamelCasing `b` |
| Ubuf.CamelPlain | ubuf.py:61-62 | a name without `_` is just capitalized |
| Ubuf.CamelAvoids | ubuf.py:61-62 | on ASCII names, a character that is not a letter and not already in the name (or is `_`) is not in its CamelCase form |
| Ubuf.CamelExample | ubuf.py:61-62 | `coord_t` becomes `CoordT` |
| Ubuf.JsGenerator.constructor | ubuf.py:58 | the alias table starts empty |
| Ubuf.JsGenerator.RegisterType | ubuf.py:65-66 | after registering, only `name` changes in the table, and it translates to the CamelCase form of its target |
| Ubuf.JsGenerator.JsCode | ubuf.py:130-148 | the loop leaves the table and returns the code that `JsRun` gives: aliases registered and emitting nothing, each record emitted with the aliases declared before it and numbered by its index among all entries |
| Ubuf.JsClassLinesOf | ubuf.py:75-96 | the class lines are the head, one indented assignment per field (a line of four spaces if there are none), and the fixed `serialize`/`deserialize` lines |
| Ubuf.JsStructLines | ubuf.py:92-100 | the lines of `js_struct` are the class lines; then, for a message, `id_ = <id>;`; the closing brace; and, for a message, the static `<Name>.id = <id>;` after it |
| Ubuf.JsReaderLines | ubuf.py:103-113 | the lines of `js_reader` are the opening, `return new <Name>(` with the first read, one line per further read, and the closing `};` |
| Ubuf.JsWriterLines | ubuf.py:116-127 | the lines of `js_writer` are the opening, `writeChar(<Name>.id)` for a message, one `write<Type>(el.<attr>);` per field in order, and `};` |
| Ubuf.JsRecordLines | ubuf.py:141-144 | the code of a JS record is its class's, reader's and writer's lines in that order |
| Ubuf.JsRunShape | ubuf.py:130-148 | `js_code` emits one block per record and none per alias; the alias table keeps its old names, gains every alias declared, and gains no other name |
| Varint.Encode | io/io.hpp:86-101 | definition of the bytes `write_size` emits; properties in `Varint.EncodeShape`, `Varint.EncodeContinuation`, `Varint.DecodeEncode` |
| Varint.Decode | io/io.hpp:20-31 | definition of `read_size` from an offset; properties in `Varint.DecodeEncode`, `Varint.DecodeCut` |
| Wire.EncodeString | io/io.hpp:117-124 | definition of a length-prefixed string; properties in `Wire.ParseStringEncode`, `Wire.ParseStringCut` |
| Wire.EncodePos | examples/protocol.hpp:150-153 | definition of a written `Pos`; properties in `Wire.PosLength`, `Wire.ParsePosEncode` |
| Wire.EncodeFields | examples/protocol.hpp:164-221 | definition of the fields each writer emits after the tag; properties in `Wire.ParseAsEncodeFields` |
| Wire.Encode | examples/protocol.hpp:164-221 | definition of a serialized message; properties in `Wire.RoundTrip`, `Wire.DropLastByteThrows`, `Wire.ServerUpdateLength` |
| Wire.ParseClientRegisterMsg | examples/protocol.hpp:161-163 | definition of the reader; properties in `Wire.ParseAsEncodeFields`, `Wire.ParseAsCut` |
| Wire.ParseServerRegisterMsg | examples/protocol.hpp:173-175 | definition of the reader; properties in `Wire.ServerRegisterLayout` |
| Wire.ParseClientUpdateMsg | examples/protocol.hpp:185-187 | definition of the reader; properties in `Wire.ParseAsEncodeFields`, `Wire.ParseAsCut` |
| Wire.ParseServerUpdateMsg | examples/protocol.hpp:199-203 | definition of the reader; properties in `Wire.ParseServerUpdateEncode`, `Wire.ParseServerUpdateCut` |
| Wire.ParseServerDeleteMsg | examples/protocol.hpp:215-217 | definition of the reader; properties in `Wire.ParseAsEncodeFields`, `Wire.ParseAsCut` |
| Wire.ParseAs | examples/protocol.hpp:161-217 | definition of the reader chosen by the message type; properties in `Wire.RoundTrip`, `Wire.ParseAsCut` |
| JsIo.Decode | io/io.js:10-20 | definition of `readSize` from an offset; properties in `JsIo.DecodeAgrees` |
| JsIo.EncodeString | io/io.js:64-68 | definition of the elements `writeString` pushes; properties in `JsProtocol.SerializeString` |
| JsProtocol.EncodePos | examples/protocol.js:91-94 | definition of the elements `writePos` pushes; properties in `JsProtocol.SerializePosBytes` |
| JsProtocol.EncodeFields | examples/protocol.js:115-220 | definition of the elements each writer pushes after the id; properties in `JsProtocol.SerializeMatchesWire` |
| JsProtocol.Encode | examples/protocol.js:115-220 | definition of the elements a message's writer pushes; properties in `JsProtocol.SerializeMatchesWire`, `JsProtocol.RoundTrip` |
| JsProtocol.ParseClientRegisterMsg | examples/protocol.js:112-114 | definition of the reader; properties in `JsProtocol.ParseAsAgrees` |
| JsProtocol.ParseServerRegisterMsg | examples/protocol.js:136-138 | definition of the reader; properties in `JsProtocol.ParseAsAgrees` |
| JsProtocol.ParseClientUpdateMsg | examples/protocol.js:160-162 | definition of the reader; properties in `JsProtocol.ParseAsAgrees` |
| JsProtocol.ParseServerUpdateMsg | examples/protocol.js:186-190 | definition of the reader; properties in `JsProtocol.ParseAsAgrees` |
| JsProtocol.ParseServerDeleteMsg | examples/protocol.js:214-216 | definition of the reader; properties in `JsProtocol.ParseAsAgrees` |
| PyStr.Join | ubuf.py:14-16 | definition of `sep.join(pieces)`; properties in `PyStr.JoinSplit`, `PyStr.SplitJoin`, `PyStr.BlockLines` |
| PyStr.Concat | ubuf.py:62 | definition of `"".join(pieces)`; properties in `PyStr.ConcatAppend` |
| Ubuf.CStruct | ubuf.py:11-17 | definition of `c_struct`; properties in `Ubuf.CStructLines` |
| Ubuf.CReader | ubuf.py:20-23 | definition of `c_reader`; properties in `Ubuf.CReaderLines` |
| Ubuf.CWriter | ubuf.py:26-37 | definition of `c_writer`; properties in `Ubuf.CWriterLines` |
| Ubuf.CEntry | ubuf.py:43-54 | definition of the code of one entry in `c_code`; properties in `Ubuf.CEntryLines` |
| Ubuf.Camel | ubuf.py:61-62 | definition of `snake_case_to_CamelCase`; properties in `Ubuf.CamelAppend`, `Ubuf.CamelPlain`, `Ubuf.CamelAvoids` |
| Ubuf.JsTranslateType | ubuf.py:69-72 | definition of `js_translate_type`; properties in `Ubuf.JsGenerator.RegisterType`, `Ubuf.TranslateClean` |
| Ubuf.JsStruct | ubuf.py:75-100 | definition of `js_struct`; properties in `Ubuf.JsStructLines` |
| Ubuf.JsReader | ubuf.py:103-113 | definition of `js_reader`; properties in `Ubuf.JsReaderLines` |
| Ubuf.JsWriter | ubuf.py:116-127 | definition of `js_writer`; properties in `Ubuf.JsWriterLines` |
| Ubuf.JsRecord | ubuf.py:141-144 | definition of the code of one record in `js_code`; properties in `Ubuf.JsRecordLines` |
| Ubuf.JsRun | ubuf.py:130-148 | definition of `js_code` as a fold over the entries; properties in `Ubuf.JsRunShape`, and `Ubuf.JsGenerator.JsCode` is proved against it |

## Left out

- Integer widths are not modelled. `size_t` (C++) and the JS 32-bit bitwise operators are unbounded integers here, so `read_size` does not wrap on more than 64 bits of digits. `JsIo.OutBuffer.WriteSize` requires `n < 2^31`, where `inp >>= 7` on a JS number is exact.
- Doubles are opaque 8-byte strings. Floating point and byte order are not modelled: `Float64Array` and `reinterpret_cast` are the identity on those 8 bytes.
- `malloc` and `realloc` are assumed to succeed. `OutBuffer`'s destructor (`free`) has no counterpart.
- CppIo.OutBuffer.IncreaseSize: `realloc` is modelled as a fresh array holding the old contents, so whether the block moves is not captured.
- `JsIo.OutBuffer.WriteString` requires `string.length < 2^31`, as `WriteSize` does.
- The reader constructors do not copy: the C++ `InBuffer` borrows a `string_view`, and the JS one copies its input into a `Uint8Array`. Both become a `seq` of bytes here, so aliasing of the borrowed bytes is not modelled.
- The C++ reader of each message has the signature `operator>>(InBuffer&, T&)` and overwrites the fields of `out` one by one. The model returns a fresh `Message` instead. After a throw, the fields already read into `out` are not modelled.
- `main` in ubuf.py (argument parsing, reading the YAML file, printing `io.hpp`/`io.js`) is I/O and is not modelled. The YAML document is given as a list of `Entry` values in map order.
- `setup.py` is packaging and is not modelled.
- The first 138 lines of `examples/protocol.hpp` are a copy of `io/io.hpp`, modelled once in `CppIo`. The first 69 lines of `examples/protocol.js` are a copy of `io/io.js`, modelled once in `JsIo`.
- The generated `id_` instance field of each JS class and its static `id` are both the constant `Id(m)`; JS object identity is not modelled.
- Choosing the message type from the tag byte, detecting unknown tags, and framing are the caller's job in both languages, and the model does the same: `Wire.ParseAs` and `JsProtocol.ParseAs` take the type as a parameter.
- JS reads are not bounds-checked in `io/io.js`, so a cut-short message does not fail in JS. It reads `undefined`, which becomes 0. The model follows the code (`JsIo.Elem`, `JsProtocol.ParseAsAgrees`): only the C++ reader throws on truncation (`Wire.DropLastByteThrows`); the JS reader reads `undefined` as 0 and returns.
- PyStr.Capitalize: only ASCII case mapping is modelled. Python's `str.capitalize` title-cases the first character and lower-cases the rest by Unicode rules, so `"é".capitalize()` is `"É"` (the model keeps `é`), `"ß_a".capitalize()` is `"Ss_a"` (longer) and `"ŉ".capitalize()` is `"ʼN"`. The generated names agree with Python only for ASCII declarations.
- CapitalizeKeepsLetters: holds for the ASCII model only. In Python, `"ß_a".capitalize()` moves `_` and changes the length.
- CamelAvoids: holds for the ASCII model only. In Python, capitalizing `ŉ` brings in `ʼ`, a non-letter that was not in the name.
- JS strings holding a code unit of 256 or more are written modulo 256. They are modelled as written, and `JsProtocol.RoundTrip` requires Latin-1 strings (`JsProtocol.StringThroughBytes` shows why).
