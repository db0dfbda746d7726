# Bubbler: a verified model of its wire protocol, scanners and builders

Bubbler runs desktop applications in sandboxes. This project models the parts of it that
decide something by computation alone, and proves what those parts are for:

- **The D-Bus client** (`Signatures`, `Wire`, `RoundTrip`, `Canonical`, `Alignment`, `Budget`,
  `Codec`, `Format`, `Conformance`, `Scalars`, `Messages`, `MessageRoundTrip`, `MessageFormat`,
  `Delivery`, `Session`, `CallFormat`, `Stream`, `SessionSafety`, `SessionRuns`, `Lookups`,
  `Opening`). Signatures, marshaling and messages follow the D-Bus Specification, sections "Type
  System", "Valid Signatures", "Marshaling (Wire Format)", "Message Format" and "Header Fields". Values are encoded and decoded by functions on byte sequences; classes with a growing
  buffer, a reader's cursor and a client's fields are proved to compute them; what the functions
  write and accept is said once more of the bytes alone, in the specification's own numbers. The peer is an
  input of arbitrary chunks, so what a session keeps it keeps whatever the peer sends.
- **The text scanners of the configuration** (`Bounds`, `Markers`, `Grammar`, `Lexemes`, `Cutting`): the
  checks made before a text reaches a parser, the marks of disabled nodes, first as one scan finds
  them and then as the text itself says, and what cutting them out keeps.
  `Placement`, `Granting` and `Writing` follow those nodes through the reading of a document and its writing back.
- **The builder of the sandbox's command line** (`Bwrap`, `BwrapPlan`, `Mounts`, `BwrapSafety`,
  `BwrapRuns`, `BwrapMounts`, `BwrapEtc`, `BwrapShown`, `BwrapHostEtc`,
  `BwrapEnv`, `BwrapPhase`): phases edited in place, an argv read as bwrap reads it, and a
  small interpreter of mounts in which the newest mount over a path decides; then what any history
  of calls shows, sets and begins with, by tables that name the options, paths and texts in full.
- **Launcher entries** (`Desktop`, `DesktopText`, `DesktopHead`, `DesktopPatch`, `DesktopOwner`,
  `DesktopSafety`, `DesktopExec`, `DesktopProgram`): the rewriting of a vendor's `.desktop` text.
- **The merge of protocol tables** (`Tables`, `Conflicts`): which copy of an interface a build keeps, and
  exactly when a file is dropped or a build fails.

Each imperative operation of the program is a method over the same state, proved equal to a
function, and the promises are lemmas about the functions. `Results`, `Bytes` and `Utf8Text`
hold what all of them share: results, little-endian numbers and UTF-8 as a predicate on bytes.

What the code does where it differs from what it says:

- `patch` promises an entry that knows itself. A text with CRLF lines whose last line is not
  ended, and whose main group runs to that last line, gets its marker as the last line with a
  carriage return that the reading of lines then keeps. `DesktopSafety.PatchedKnowsItself` says
  exactly when, `DesktopExec.MisreadIsMisread` gives such a text.
- `decode` accepts a variant that holds an empty array or dict, which `encode` cannot name.
  `Canonical.EncodeOfDecode` states the round trip with exactly that exception,
  `Canonical.EmptyIsNotWrittenBack` gives eight such bytes.
- An unquoted program with a carriage return, a form feed or a leading no-break space is not read
  back from the command it is written to; `DesktopExec.ProgramReadsBack` says exactly when it is,
  `DesktopExec.TwoWordsAreMisread` gives such a program.
- The merge means to trust no two copies of an interface that disagree. It compares a copy with the
  newest one held, so two that disagree may both be kept where a third, newer than both, comes in
  between. `Conflicts.MergeIsExact` says exactly when a file is refused,
  `Conflicts.NotEveryPairIsSeen` gives such files.

## Model

| member | source | states |
|---|---|---|
| `Signatures.ReadType` | crates/bubbler-core/src/dbus_wire.rs:441-512 | the cursor-moving parser of one single complete type succeeds exactly when the recursive grammar does, with the same type and the same end |
| `Signatures.ReadSignature` | crates/bubbler-core/src/dbus_wire.rs:425-437 | the loop over a whole signature is the grammar `ParseSignature`, the 255-byte limit included |
| `Signatures.SignatureIffRendered` | crates/bubbler-core/src/dbus_wire.rs:425-512 | parser and printer undo each other, both ways: a text parses to a list of types exactly when it is the rendering of that list, at most 255 bytes, and every type keeps the limits of "Valid Signatures" (32 arrays, 32 structs or dict entries, no empty struct, dict entries only in arrays and with basic keys) |
| `Signatures.SignatureIsText` | crates/bubbler-core/src/dbus_wire.rs:425-437 | a signature the parser accepts is printable ASCII, so it is always a text |
| `Wire.LegalIsSolid` | crates/bubbler-core/src/dbus_wire.rs:495-512 | every type within the limits occupies at least one byte on the wire, since no struct is empty; the decoder of arrays terminates because of it |
| `Format.TablesAgree` | crates/bubbler-core/src/dbus_wire.rs:372-408 | every type has the code and the boundary the specification gives it: 1 for `y`, `g` and `v`, 2 for `n` and `q`, 4 for `b`, `i`, `u`, `h`, `s`, `o` and `a`, 8 for `x`, `t`, `d`, structs and dict entries |
| `Format.SignatureIsSpelled` | crates/bubbler-core/src/dbus_wire.rs:425-512 | a signature is accepted, and as those types, exactly when it is their letters one after another, at most 255 of them, 32 arrays and 32 structs deep, no struct empty and dict entries only in arrays with a basic key: in literal letters and numbers |
| `Format.PathIsElements` | crates/bubbler-core/src/dbus_wire.rs:517-531 | an object path is accepted exactly when it is `/`, or elements of ASCII letters, digits and `_`, none empty, each behind a slash |
| `Scalars.Utf8IsExact` | crates/bubbler-core/src/dbus_wire.rs:815-826 | a text is well formed exactly when it is the UTF-8 of some code points, none a surrogate or past U+10FFFF |
| `Wire.RawRoundTrip` | crates/bubbler-core/src/dbus_wire.rs:568-632 | a fixed-size value and its two's-complement wire number determine each other |
| `Wire.FromRawCanonical` | crates/bubbler-core/src/dbus_wire.rs:846-929 | a wire number read as a value and written again is the same number; a boolean is 0 or 1 only |
| `RoundTrip.DecodeOfEncode` | crates/bubbler-core/src/dbus_wire.rs:552-704 | whenever `encode` succeeds, `decode` under the same signature gives exactly the values back, with all alignment padding, unless the count of values and dict entries passes 2^20, when it is `TooManyValues` |
| `RoundTrip.ValueReads` | crates/bubbler-core/src/dbus_wire.rs:568-632 | one encoded value, at any place of any buffer and with any count so far, is read back where it ends |
| `RoundTrip.ArrayReads` | crates/bubbler-core/src/dbus_wire.rs:658-704 | the same for an array or dict: its length word leaves out the padding to the first element, and its elements fill it exactly |
| `Conformance.DecodeIsExact` | crates/bubbler-core/src/dbus_wire.rs:832-984 | `decode` gives those values, and only those, that the format says the bytes hold. The format is said of the bytes alone: each value at the first multiple of its type's 1, 2, 4 or 8 at or behind where it may start, NULs before it; byte `i` of a number `n` is `n / 256^i % 256`; the length word of an array or dict is the count of bytes from its first element's boundary to its end, at most 2^26; strings behind their length with a NUL behind; 64 levels; at most 2^20 values and dict entries |
| `Conformance.EncodeIsOfTheFormat` | crates/bubbler-core/src/dbus_wire.rs:552-704 | what `encode` writes is, in that format, the values it was given |
| `Conformance.EncodeWritesEveryBlock` | crates/bubbler-core/src/dbus_wire.rs:552-704 | and it writes any block of the format it could name the variants of, byte for byte |
| `Conformance.ArrayOfFive` | crates/bubbler-core/src/dbus_wire.rs:658-704 | the specification's array of one INT64: length 8, four NULs that it does not count, the number |
| `Conformance.DictOfSeven` | crates/bubbler-core/src/dbus_wire.rs:658-704 | the same of a dict: the length word 6 leaves out the padding before its entry |
| `Canonical.EncodeOfDecode` | crates/bubbler-core/src/dbus_wire.rs:832-984 | canonical form: whatever `decode` accepts is what `encode` writes for the values, byte for byte; the one exception is stated exactly, a variant whose contents cannot be named because of an empty array or dict, and then the refusal is that one |
| `Canonical.SigOfValue` | crates/bubbler-core/src/dbus_wire.rs:713-754 | the signature computed from a decoded value is the rendering of the very type it was decoded under, or the refusal of an empty container |
| `Canonical.EmptyIsNotWrittenBack` | crates/bubbler-core/src/dbus_wire.rs:713-754 | the failing input: eight bytes of signature `v`, a variant of signature `ai` and length 0, are accepted by `decode`, and `encode` refuses the value they gave with the refusal of an empty array |
| `Alignment.EncCongruent` | crates/bubbler-core/src/dbus_wire.rs:568-632 | a value encoded at two offsets that agree modulo 8 is the same bytes |
| `Alignment.BodyStandsAlone` | crates/bubbler-core/src/dbus_wire.rs:1005-1042 | a body marshalled on its own is the bytes it takes behind a header that ends at a multiple of 8 |
| `Budget.DecodeIsBounded` | crates/bubbler-core/src/dbus_wire.rs:777-783 | a successful decode holds at most 2^20 values and dict entries and nests no deeper than the 64 levels below the outermost |
| `Budget.ValueCosts` | crates/bubbler-core/src/dbus_wire.rs:846-929 | the decoder's counter grows by exactly the number of values and dict entries read, and the depth limit holds for every one |
| `Codec.Buffer.Pad` | crates/bubbler-core/src/dbus_wire.rs:534-539 | padding appends exactly the zero bytes up to the next multiple of the alignment |
| `Codec.EncodeValue` | crates/bubbler-core/src/dbus_wire.rs:568-632 | the appending, back-patching encoder writes behind what is there exactly what the encoding function says, or fails as it says |
| `Codec.EncodeArray` | crates/bubbler-core/src/dbus_wire.rs:658-704 | the length written first as zero and patched in place afterwards is the length of the elements without their leading padding; what that makes of the bytes is said by `Conformance.EncodeIsOfTheFormat` |
| `Codec.EncodeStr` | crates/bubbler-core/src/dbus_wire.rs:636-645 | a string goes out as its length, its bytes and a NUL, and one with a NUL inside is refused |
| `Codec.EncodeBlock` | crates/bubbler-core/src/dbus_wire.rs:552-565 | the whole of `encode` over a growing buffer is the encoding function `Encode`, whose every byte `Conformance.EncodeIsOfTheFormat` gives a place |
| `Codec.Reader.TakeBytes` | crates/bubbler-core/src/dbus_wire.rs:796-801 | the reader hands over the next bytes and moves on, or refuses without moving past the end |
| `Codec.Reader.SkipPadding` | crates/bubbler-core/src/dbus_wire.rs:787-794 | padding is skipped only if all of it is NUL |
| `Codec.DecodeValue` | crates/bubbler-core/src/dbus_wire.rs:846-929 | the reader with its cursor and its count ends where the decoding function says, with the same value, count and error |
| `Codec.DecodeItems` | crates/bubbler-core/src/dbus_wire.rs:958-984 | the array loop reads elements until it stands at the end, refuses to overrun it, and terminates because every element takes a byte |
| `Codec.DecodeBlock` | crates/bubbler-core/src/dbus_wire.rs:832-843 | the whole of `decode` is the decoding function `Decode`, bytes left over refused; `Conformance.DecodeIsExact` says which blocks it takes and as what |
| `Messages.WriteMessage` | crates/bubbler-core/src/dbus_wire.rs:1005-1042 | the header and body put together step by step are the message `EncodeMessage` describes |
| `Messages.FrameOfPrefix` | crates/bubbler-core/src/dbus_wire.rs:1051-1075 | a message is measured from its first 16 bytes alone |
| `Messages.ReadMessage` | crates/bubbler-core/src/dbus_wire.rs:1083-1152 | the reading of a message, its checks in their order, is the function `DecodeMessage` |
| `Messages.ReadFields` | crates/bubbler-core/src/dbus_wire.rs:1105-1144 | the loop over header fields refuses a field that comes twice or has a wrong type and ignores unknown ones |
| `MessageRoundTrip.FrameOfEncoded` | crates/bubbler-core/src/dbus_wire.rs:1051-1075 | `frame` of an encoded message puts the body at a multiple of 8 and offset plus length at the message's own length, or refuses it as too long |
| `MessageRoundTrip.Gathered` | crates/bubbler-core/src/dbus_wire.rs:1105-1144 | the header fields are gathered exactly when they are distinct and well typed, each known field ending with the value given for it |
| `MessageRoundTrip.DecodeOfEncodedMessage` | crates/bubbler-core/src/dbus_wire.rs:1005-1152 | message round trip, both ways: an encoded message within the limits comes back with kind, body and every known header field when its fields are distinct and typed and a body has a signature, and is refused as malformed otherwise |
| `MessageFormat.EncodedMessageIs` | crates/bubbler-core/src/dbus_wire.rs:1005-1042 | a marshalled message is, in the format: the letter `l`, its kind, its flags, version 1, the length of its body, its serial, the fields it was given as code and variant in an array, NULs to a boundary of 8, the body |
| `MessageFormat.EncodeWritesEveryMessage` | crates/bubbler-core/src/dbus_wire.rs:1005-1042 | and every message of the format is marshalled so, byte for byte, if its variants can be named and it has at most 2^27 bytes, and refused as too long past that |
| `MessageFormat.MessageIsExact` | crates/bubbler-core/src/dbus_wire.rs:1051-1152 | a message is read, and as that message, exactly when the bytes begin with one in the format of at most 2^24 bytes, no field code twice, each known field of its own type, a body only with a signature; what is read is what codes 4, 5, 7, 8 and 9 say and the body |
| `Delivery.EncodedIsWhole` | crates/bubbler-core/src/dbus_wire.rs:1689-1713 | a sendable message is one whole message of the stream, and the one that was meant |
| `Delivery.SentIsReceived` | crates/bubbler-core/src/dbus_wire.rs:1646-1713 | end to end: messages marshalled one after another and cut into reads in any way are received as those messages, in order, down to the last byte |
| `Stream.ReceiveConserves` | crates/bubbler-core/src/dbus_wire.rs:1689-1713 | for any peer: a received message is exactly the bytes taken off the front of the stream, as many as its own header declares; a failure takes one refused message or nothing |
| `Stream.ReceiveFed` | crates/bubbler-core/src/dbus_wire.rs:1646-1713 | in the middle of any stream of well-formed messages the next receive returns the next of them and leaves the rest |
| `Stream.ChunksDoNotMatter` | crates/bubbler-core/src/dbus_wire.rs:1646-1713 | however the concatenation of well-formed messages is cut into reads, as many receives return exactly those messages in order and use it up |
| `Stream.OwnDescriptorsOnly` | crates/bubbler-core/src/dbus_wire.rs:1689-1713 | a whole message that is buffered is returned if and only if the descriptors that came with what was read so far are its own, so one read together with the start of a message that carries some is refused |
| `Stream.LineTakesLine` | crates/bubbler-core/src/dbus_wire.rs:1583-1597 | an authentication line is taken off the front of the stream with its CR LF and nothing more, so what a read brought beyond it is the start of the messages |
| `Stream.EndlessIsRefused` | crates/bubbler-core/src/dbus_wire.rs:1583-1597 | more than 4096 bytes without the end of a line are refused, whatever follows |
| `Stream.ReadersEnd` | crates/bubbler-core/src/dbus_wire.rs:1646-1679 | a reader that lacks bytes ends as the connection does: closed, broken, or at the deadline |
| `Session.Client.ReceiveMessage` | crates/bubbler-core/src/dbus_wire.rs:1689-1713 | the loop that fills and frames until a message is complete is the function `Receive` |
| `Session.Client.FillBuffer` | crates/bubbler-core/src/dbus_wire.rs:1646-1679 | one read appends what it brought and counts its descriptors, or is the end of the stream or the bound |
| `Session.Client.AwaitReply` | crates/bubbler-core/src/dbus_wire.rs:1382-1449 | the loop that skips every message but the awaited reply, and forgets an owner that is gone, is the function `Await` |
| `Session.Client.CallOwner` | crates/bubbler-core/src/dbus_wire.rs:1327-1450 | `call_by`: refusals, owner, serial, send and wait in that order; `CallFormat.SentIsSpoken` says what goes out and `SessionRuns.AnswersAreGenuine` what comes back |
| `Session.Client.ResolveOwner` | crates/bubbler-core/src/dbus_wire.rs:1465-1481 | `owner_of`: the bus and unique names own themselves, then the cache, then the bus |
| `Session.Client.AskBus` | crates/bubbler-core/src/dbus_wire.rs:1484-1504 | `ask_owner`: only an answer that is one unique name is an owner |
| `Session.Client.ReadLine` | crates/bubbler-core/src/dbus_wire.rs:1583-1597 | `line` over the shared buffer is the function `Line` |
| `Session.Client.LogIn` | crates/bubbler-core/src/dbus_wire.rs:1529-1552 | `authenticate`: what the two lines of the bus make of the connection is the function `Authenticate` |
| `Session.Client.SayHello` | crates/bubbler-core/src/dbus_wire.rs:1559-1579 | `hello`: only an answer that is one unique name is taken |
| `Session.Client.Connect` | crates/bubbler-core/src/dbus_wire.rs:1266-1268 | the lines first, then the name; the first failure ends it |
| `CallFormat.SentIsSpoken` | crates/bubbler-core/src/dbus_wire.rs:1360-1380 | every call that goes out is, as bytes, a message of kind 1 without flags under its serial, whose fields are, each once and no other: 1 the path, 6 the peer it is sent to, 3 the member, 2 the interface exactly if there is one, 8 the signature exactly if there is one, 9 the number of descriptors exactly if positive; its body holds the call's values under its signature, and every descriptor index in it is below that number |
| `CallFormat.CallFieldsAre` | crates/bubbler-core/src/dbus_wire.rs:1362-1376 | those are the fields it is put together with |
| `CallFormat.OwnCallsAreSpelled` | crates/bubbler-core/src/dbus_wire.rs:1484-1579 | the calls the client makes itself, letter by letter: `GetNameOwner` of signature `s`, `StartServiceByName` of `su` with flags 0, `Hello` of none, each to path `/org/freedesktop/DBus`, interface and peer `org.freedesktop.DBus` |
| `CallFormat.RefusedUnsent` | crates/bubbler-core/src/dbus_wire.rs:1338-1351 | a call is refused before anything goes out, by the first of the reasons and with the connection as it was, exactly if it has no destination, descriptors where they do not pass, more than 253 of them, or an index that is none of them |
| `CallFormat.BadFdIs` | crates/bubbler-core/src/dbus_wire.rs:1719-1736 | the check of indices walks every array, struct, dict and variant: it finds none exactly if all are below the count, and what it finds is one that is not |
| `CallFormat.RejectedIsSpelled` | crates/bubbler-core/src/dbus_wire.rs:1529-1552 | the words of the authentication, letter by letter, here `REJECTED` |
| `SessionSafety.SerialCycles` | crates/bubbler-core/src/dbus_wire.rs:1377-1378 | the serial drawn n-th from a new session is (n - 1) mod (2^32 - 1) + 1, so never 0 |
| `SessionSafety.SerialsDiffer` | crates/bubbler-core/src/dbus_wire.rs:1377-1378 | any two draws fewer than 2^32 - 1 apart have different serials |
| `SessionSafety.AwaitKeeps` | crates/bubbler-core/src/dbus_wire.rs:1382-1449 | a wait keeps the invariant, changes the cache only by forgetting, and ends in the judged reply or in a local failure |
| `SessionSafety.CallKeeps` | crates/bubbler-core/src/dbus_wire.rs:1327-1450 | every call keeps the invariant: cached names are distinct, none is the bus or a unique name, each maps to a unique name the bus itself answered with after it was asked; every message went out under the serial of its own draw, and as bytes is the call it stands for (`CallFormat.SentIsSpoken`). Its answer or refusal was heard after it, or after the lookup of its own name that was refused, went out |
| `SessionSafety.OwnerKeeps` | crates/bubbler-core/src/dbus_wire.rs:1465-1481 | an owner handed out is the name itself or one the bus vouched for; a failed lookup leaves the name uncached, and one that is refused is refused by the bus in answer to a question about that name or the starting of it |
| `SessionSafety.AskKeeps` | crates/bubbler-core/src/dbus_wire.rs:1484-1504 | an owner asked for is a unique name in the bus's own reply to that very question, heard after it was put |
| `SessionRuns.RunKeepsInv` | crates/bubbler-core/src/dbus_wire.rs:1310-1450 | so does every connection any run of calls reaches |
| `SessionRuns.AnswersAreGenuine` | crates/bubbler-core/src/dbus_wire.rs:1382-1524 | an answer is the decoded body of a METHOD_RETURN, heard after this very call went out, from the peer it was addressed to, which is the destination itself or the owner the bus named for it, with this call's serial; and what went out is as bytes that very call. A remote error is an ERROR heard after what it answers, with its serial: this call, and then from that peer or the bus, or the lookup or the starting of its name, and then from the bus alone |
| `SessionRuns.JudgeIs` | crates/bubbler-core/src/dbus_wire.rs:1394-1449 | which messages end a wait, in numbers: kind 2 or 3 under the call's serial, from the peer, from the bus if of kind 3, or from nobody; and what each comes to: the values of a return or why they cannot be read, the name of an error with its first value if that is a string, a bad message without a sender or an error name |
| `SessionRuns.FirstReplyIs` | crates/bubbler-core/src/dbus_wire.rs:1382-1449 | the message a wait is to find is the first of the stream that ends it |
| `SessionRuns.AwaitFindsTheAnswer` | crates/bubbler-core/src/dbus_wire.rs:1382-1449 | liveness: with reads enough left, a wait on any stream of well-formed messages returns what the first of them that ends it comes to, whatever it has to skip, and leaves those behind it; where none does it ends at its deadline |
| `SessionRuns.CallIsAnswered` | crates/bubbler-core/src/dbus_wire.rs:1327-1450 | the same for a whole call, whether its peer was known or has just been looked up or started |
| `Lookups.LookupIsInOrder` | crates/bubbler-core/src/dbus_wire.rs:1465-1524 | a name not known is asked for; exactly if the bus says nobody owns it, in an error of that name, it is started, and after a start that went well asked for once more; nothing else is sent, all of it to the bus, and nobody is told a name has no owner unless starting it was tried |
| `Lookups.KnownIsNotAsked` | crates/bubbler-core/src/dbus_wire.rs:1465-1481 | a call to a name whose owner is known sends itself at most, and to that owner |
| `Lookups.LookedUpOnce` | crates/bubbler-core/src/dbus_wire.rs:1465-1481 | behind a call that was answered the next to the same name asks nothing: it sends itself at most |
| `SessionRuns.GoneIsForgotten` | crates/bubbler-core/src/dbus_wire.rs:1421-1449 | after a call answered with either error, named in full, its name is not cached |
| `SessionRuns.AwaitTwins` | crates/bubbler-core/src/dbus_wire.rs:1382-1449 | a wait on two streams that agree on the trusted senders ends the same on both |
| `SessionRuns.CallTwins` | crates/bubbler-core/src/dbus_wire.rs:1327-1524 | so does a whole call, with its owner lookup and the starting of a service |
| `SessionRuns.StrangersDoNotMatter` | crates/bubbler-core/src/dbus_wire.rs:1310-1524 | over a whole run of calls, deleting every message from anyone but the bus and the owners it named, and cutting what is left into other reads, leaves every answer and the cache as they were |
| `Opening.NewConnection` | crates/bubbler-core/src/dbus_wire.rs:1230-1269 | a connection opened on any input whatever satisfies the invariant, and so does every one that any calls on it reach |
| `Opening.AuthenticateKeeps` | crates/bubbler-core/src/dbus_wire.rs:1529-1552 | the authentication lines keep the invariant, whatever the peer sends in their place |
| `Opening.NameIsTheBuss` | crates/bubbler-core/src/dbus_wire.rs:1559-1579 | the greeting keeps the invariant, and the name a connection has is a unique one that the bus itself gave in a reply to that greeting |
| `Opening.LineRead` | crates/bubbler-core/src/dbus_wire.rs:1583-1597 | an authentication line and the stream behind it, cut into reads in any way: the line is returned and what is left is the rest |
| `Opening.LinesAreJudged` | crates/bubbler-core/src/dbus_wire.rs:1529-1552 | two lines however cut, the messages right behind them in the same reads or not: the result is what the two lines come to, descriptors pass exactly if the bus agreed, and the next read is the first message's |
| `Opening.StrangersNeverMatter` | crates/bubbler-core/src/dbus_wire.rs:1230-1579 | the life of a connection from its first byte: on the same lines and on messages that agree on what the bus and the owners it named say, cut into reads in any way, two connections get the same name or refusal, and every call of a whole run the same answer |
| `Bounds.LineAt` | crates/bubbler-core/src/config.rs:1305-1319 | the line of an offset is one more than the newlines before it, CR LF counted once |
| `Bounds.NewlineIsLongest` | crates/bubbler-core/src/config.rs:1136-1150 | the newlines are CR LF, CR, LF, VT, FF, NEL, LS and PS in UTF-8, and where several stand the longest is taken |
| `Grammar.NewlinesAreBreaks` | crates/bubbler-core/src/config.rs:1305-1319 | the newlines counted are the offsets one of them begins at, each once, a line feed behind a carriage return being none |
| `Grammar.MatchIsComment` | crates/bubbler-core/src/config.rs:1160-1190 | where the walk over a comment ends is where a grammar of nested comments ends it, and there is no end exactly where the grammar has none |
| `Grammar.CommentMarksAre` | crates/bubbler-core/src/config.rs:1160-1190 | its marks are the stars and slashes between its own two pairs, or up to the end of the text if it has no end |
| `Bounds.BlockCommentEnd` | crates/bubbler-core/src/config.rs:1160-1190 | within the bound the true end of the nested comment and the exact number of its `*` and `/` bytes, past it a count over the bound; never more steps than the walk is allowed |
| `Bounds.WalksAreLinear` | crates/bubbler-core/src/config.rs:1074-1112 | all the comment walks over a text together take at most 65 steps per byte |
| `Bounds.CheckBounds` | crates/bubbler-core/src/config.rs:1079-1112 | accepts exactly the texts of at most 65536 bytes with at most 32 `{` in which every nested-comment reading has at most 128 marks; an error is that of the first place a bound is passed, with its line; the walks it makes stay within 65 steps per byte |
| `Bounds.AcceptsIs` | crates/bubbler-core/src/config.rs:1079-1112 | in literal numbers: 65536 bytes, 32 times `{`, 128 marks behind any slash and star |
| `Markers.FindStringEnd` | crates/bubbler-core/src/config.rs:1210-1256 | the loop over a string, raw or not, one line or many, is the function `StringEnd` |
| `Markers.FindEsclineEnd` | crates/bubbler-core/src/config.rs:2019-2032 | the end of a line continuation, comments inside it included |
| `Markers.CheckOnlySpaces` | crates/bubbler-core/src/config.rs:1264-1280 | whether a piece of a line is blank, escapes allowed or not |
| `Markers.SpaceIsListed` | crates/bubbler-core/src/config.rs:1284-1300 | a space is one of 18 code points, and as long as its UTF-8 |
| `Markers.BytesAreSpelled` | crates/bubbler-core/src/config.rs:1964-2014 | the characters the scan looks for |
| `Grammar.BlankIsSpaces` | crates/bubbler-core/src/config.rs:1264-1280 | a piece of a line is blank exactly if it falls into those spaces, each behind a backslash or not where escapes are allowed |
| `Grammar.TripleIs` | crates/bubbler-core/src/config.rs:1210-1256 | a string runs over lines exactly if it opens with three quotes and a newline |
| `Markers.FindMarkers` | crates/bubbler-core/src/config.rs:1964-2014 | the scanner of `/-` marks over index, depth and line state is the function `SlashdashMarks` |
| `Markers.MarkersFromOk` | crates/bubbler-core/src/config.rs:1964-2014 | the marks are strictly increasing, do not overlap, each is a `/-` that opens its line |
| `Lexemes.StringEndIs` | crates/bubbler-core/src/config.rs:1210-1256 | where `string_end` puts the end of a string is, and is only, the first place the text may close it: an unescaped quote, or three quotes with nothing but space before them on their line, with as many `#` behind as in front; without one, the quote stands alone |
| `Lexemes.EsclineIs` | crates/bubbler-core/src/config.rs:2019-2032 | a continued line ends, and only ends, behind blanks, then a comment if there is one, then the newline |
| `Lexemes.TilesAreATiling` | crates/bubbler-core/src/config.rs:1964-2014 | every text falls into lexemes: newlines, comments of both kinds, continued lines, strings with their `#`, single bytes |
| `Lexemes.OneTilingOnly` | crates/bubbler-core/src/config.rs:1964-2014 | and it does so in one way only |
| `Lexemes.MarksAreTheOpeners` | crates/bubbler-core/src/config.rs:1964-2014 | said without the scan: an offset is reported if and only if a `/-` begins a lexeme there, right behind a newline or at the start of the text, with no brace open in front of it |
| `Lexemes.NoMarkInside` | crates/bubbler-core/src/config.rs:1964-2014 | no mark is reported inside a comment, a string, a continued line or any other lexeme |
| `Cutting.CutMarkers` | crates/bubbler-core/src/config.rs:1932-1944 | the loop that copies the text between the marks is the function `Cut` |
| `Cutting.PutBackRestores` | crates/bubbler-core/src/config.rs:1932-1944 | putting `/-` back at the marks restores the text |
| `Cutting.CutOneAccepted` | crates/bubbler-core/src/config.rs:1932-1944 | taking out one `/-` cannot form or lengthen a comment, so an accepted text stays accepted |
| `Cutting.DisabledTextIsSafe` | crates/bubbler-core/src/config.rs:1932-2014 | for every accepted text: the marks are in order, the text without them is accepted as well, and putting them back gives the text |
| `Placement.Builder.GrantNode` | crates/bubbler-core/src/config.rs:1809-1847 | granting a node in place does what `Take` says and refuses a duplicate |
| `Placement.ParseLines` | crates/bubbler-core/src/config.rs:1323-1486 | the loop over the nodes of a document, then the sort, is the function `Parse` |
| `Granting.ParseIsExact` | crates/bubbler-core/src/config.rs:1323-1486 | a document is read exactly if nothing is granted twice: no key within `lint-allow`, `service` and `env`, no second node in any other section; each section then holds what its enabled nodes grant in their order, a mode at its default counting as none, and each disabled entry stands before what its own section is granted after it |
| `Placement.SortIsStable` | crates/bubbler-core/src/config.rs:1448-1457 | the sort by section keeps each section's entries in their order |
| `Placement.EveryEntryHasItsPlace` | crates/bubbler-core/src/config.rs:1436-1457 | after the whole document every disabled entry sits inside its section's final entries, in non-decreasing places, and the entries are sorted by section |
| `Placement.MergeSplits` | crates/bubbler-core/src/kdl_out.rs:145-166 | merging a section's disabled entries into its enabled ones and splitting them again gives the same lists, exactly when the places are in order and none lies past the end |
| `Placement.WrittenReadsBack` | crates/bubbler-core/src/kdl_out.rs:41-124 | a configuration read, written back and read again is the same configuration |
| `Writing.MergePlaces` | crates/bubbler-core/src/kdl_out.rs:136-166 | for any entries off, wherever they point: a section is written with all its entries on in their order and, before each, the entries off read above it in theirs; one that points past the last comes behind it and is not dropped |
| `Writing.WrittenInSections` | crates/bubbler-core/src/kdl_out.rs:41-124 | a configuration is written section after section, each section so, and nothing else |
| `Bwrap.BwrapArgs.constructor` | crates/bubbler-core/src/bwrap.rs:261-406 | the baseline, phase by phase |
| `Bwrap.BwrapArgs.InsertShareNet` | crates/bubbler-core/src/bwrap.rs:606-617 | inserted at index 1, once |
| `Bwrap.BwrapArgs.ReplaceChdir` | crates/bubbler-core/src/bwrap.rs:628-643 | the value of the one `--chdir` replaced where it stands; requires the item the source expects to find |
| `Bwrap.BwrapArgs.ReplaceTmpSize` | crates/bubbler-core/src/bwrap.rs:655-670 | the cap of `/tmp` replaced and re-attributed where it stands |
| `Bwrap.BwrapArgs.SpliceHostEtc` | crates/bubbler-core/src/bwrap.rs:689-760 | the two splices: host `/etc` for the tmpfs and its allowlist, the covering files behind the re-attributed accounts |
| `Bwrap.BwrapArgs.PushDisableUserns` | crates/bubbler-core/src/bwrap.rs:779-787 | the pair of flags, once |
| `Bwrap.BwrapArgs.PushMask` | crates/bubbler-core/src/bwrap.rs:877-893 | the two operations of a mask |
| `Bwrap.BwrapArgs.EmitAll` | crates/bubbler-core/src/bwrap.rs:1110-1162 | the loop over all phases, failing at the first thing the allocator cannot provide |
| `Bwrap.BwrapArgs.FinishArgv` | crates/bubbler-core/src/bwrap.rs:990-1072 | the whole argv and where its command begins |
| `BwrapPlan.StepIsPlanned` | crates/bubbler-core/src/bwrap.rs:606-984 | each call does to the phases, through inserts, replacements and splices, exactly what it does to a plan that is only ever extended; what the calls then show and set is said by `BwrapShown.SandboxShows`, `BwrapEnv.EnvironmentIs` and `BwrapPhase.PhaseOneIs` |
| `BwrapPlan.OnlyASecondHostEtcPanics` | crates/bubbler-core/src/bwrap.rs:606-760 | no `expect` fires in a history from the baseline if and only if it asks for the host's `/etc` at most once, and then the phases are those its plan draws |
| `BwrapRuns.ArgvIsTheBuilders` | crates/bubbler-core/src/bwrap.rs:990-996 | the command line the theorems speak of is the one the builder finishes after those calls |
| `BwrapRuns.ArgvReadsBack` | crates/bubbler-core/src/bwrap.rs:1169-1217 | read option by option with the number of values each takes, a finished argv is options up to exactly the remembered place, where the double dash stands: no value that spells an option is taken for one; every `--tmpfs` has its own `--size` and every `--size` its `--tmpfs` |
| `BwrapRuns.PhaseOneHolds` | crates/bubbler-core/src/bwrap.rs:606-787 | in the whole argv of every history: `--unshare-all` first and once, `--share-net` second and once exactly if asked for, one `--chdir` with the last directory asked for, `--disable-userns` at most once, exactly if asked for, and always behind `--unshare-user` |
| `BwrapPhase.PhaseOneIs` | crates/bubbler-core/src/bwrap.rs:261-810 | every finished command line begins, option by option, with `--unshare-all`, `--share-net` if asked for, `--die-with-parent`, `--new-session`, `--hostname bubbler`, `--chdir` with the last directory, the descriptor the allocator gave for the info pipe, then one group for each call that adds there, in order: the block pipe, a filter with its own program, the two flags against user namespaces; no further option of these kinds follows, and the runtime directory is made with mode 0700 |
| `BwrapShown.LastCallDecides` | crates/bubbler-core/src/bwrap.rs:818-958 | for every history and path not masked: the last call that puts something at or above the path decides what is seen there. By a table of its own: `ro_bind` and the supervisor read-only, `bind` and `dev_bind` writable, `dev_bind_try` if its source is there, a link its target, data the allocator's file with that content read-only, the shim a read-only layer; what was fixed shows where none does |
| `BwrapShown.SandboxShows` | crates/bubbler-core/src/bwrap.rs:261-406 | and what was fixed is, outside `/etc`: `/usr` read-only, `/bin`, `/lib`, `/lib64`, `/sbin` links into it, `/opt` read-only if the host has it, `/proc`, `/dev` with `ntsync` if the host has the device, `/tmp` with the cap last asked for, `/var` and `/run` empty with 64 MiB, the instance's home writable at `/home/bubbler`, and nothing else |
| `BwrapEnv.EnvironmentIs` | crates/bubbler-core/src/bwrap.rs:379-402 | whatever environment the launcher has: a variable is what the last call set it to, else the sandbox's own `HOME`, `PATH`, `XDG_RUNTIME_DIR`, `USER` or `LOGNAME` in full, else the last passed through, else not set |
| `BwrapEnv.BehindTheOptions` | crates/bubbler-core/src/bwrap.rs:1019-1072 | behind its options a finished command line is `--`, the supervisor with its socket, `--ctty` exactly if asked for, the first nested server asked for with its own `--` and its window manager, `--` and the command |
| `BwrapEnv.AccountsName` | crates/bubbler-core/src/bwrap.rs:231-245 | the synthetic accounts, letter by letter, under the numbers given |
| `BwrapEnv.DecimalSpells` | crates/bubbler-core/src/bwrap.rs:231-245 | numbers are spelled in decimal digits without a leading zero |
| `BwrapMounts.MasksWin` | crates/bubbler-core/src/bwrap.rs:877-893 | for every history and order of calls: at or below each masked directory the mounts, read left to right, leave an empty read-only tmpfs, and everywhere else the masks change nothing |
| `BwrapMounts.AccountsAreSynthetic` | crates/bubbler-core/src/bwrap.rs:689-760 | with or without the host's `/etc`: unless a call mounts over it, `/etc/passwd` and `/etc/group` are the read-only files the allocator wrote the synthetic content to |
| `BwrapMounts.TmpIsCapped` | crates/bubbler-core/src/bwrap.rs:655-670 | unless a call mounts over it, `/tmp` is a tmpfs with the cap last asked for, or the baseline's |
| `BwrapEtc.EtcIsAnAllowlist` | crates/bubbler-core/src/bwrap.rs:313-324 | without a call for the host's `/etc`, and unless a call mounts over it: a path at or below `/etc`, the two accounts apart, is the host's own, read-only, if its entry is on the allowlist and the host has it, and the capped tmpfs otherwise |
| `BwrapEtc.AllowlistIsSpelled` | crates/bubbler-core/src/bwrap.rs:200-225 | the 24 names of the allowlist |
| `BwrapEtc.HostAccountsAreCovered` | crates/bubbler-core/src/bwrap.rs:689-760 | with the host's whole `/etc`: each of `passwd-`, `passwd+`, `group-`, `group+`, `subuid`, `subgid` the host has is, unless a call mounts over it, the read-only file the allocator wrote its synthetic content to |
| `BwrapHostEtc.HostEtcIsReadOnly` | crates/bubbler-core/src/bwrap.rs:689-760 | and every other path at or below it is, unless a call mounts over it, the host's own, read-only |
| `Mounts.SettingsConcat` | crates/bubbler-core/src/bwrap.rs:1169-1171 | operations one after another read as their options one after another |
| `Mounts.RemountElsewhere` | crates/bubbler-core/src/bwrap.rs:877-893 | making one mount read-only changes nothing seen elsewhere |
| `Desktop.FindHead` | crates/bubbler-core/src/desktop.rs:84-104 | the loop over the main group is the function `HeadOf`, and `DesktopHead.HeadSays` is what that finds |
| `DesktopHead.HeadSays` | crates/bubbler-core/src/desktop.rs:84-104 | an entry is hidden, or not displayed, exactly if some line of its main group splits into the key `Hidden`, or `NoDisplay`, and the value `true`; its command and its marker are the values of the first `Exec` and the first `X-Bubbler-Instance` line there |
| `DesktopHead.SplitIsGives` | crates/bubbler-core/src/desktop.rs:121-124 | a line gives a key and a value exactly if it is the key, space, the first `=` of the line, space and the value, neither with space on its inner side |
| `DesktopHead.KeysAreSpelled` | crates/bubbler-core/src/desktop.rs:25-31 | the words looked for and written |
| `Desktop.ReadQuoted` | crates/bubbler-core/src/desktop.rs:139-159 | the character loop over a quoted program is the function `Unquoted` |
| `Desktop.CopyLines` | crates/bubbler-core/src/desktop.rs:324-372 | the line loop with its group, its present keys and its insertions is the function `CopyAll` and `Close` |
| `Desktop.PatchText` | crates/bubbler-core/src/desktop.rs:302-378 | the whole of `patch`: its refusals in order and the text it gives |
| `DesktopHead.PatchDecides` | crates/bubbler-core/src/desktop.rs:302-322 | a text is patched exactly if it has no marker, the program is text, and its main group has a command and no `Hidden=true`; otherwise the error is that of the first of these checks it fails, in this order: marker, program, group, command, hidden |
| `DesktopExec.ArgumentIsSafe` | crates/bubbler-core/src/desktop.rs:164-185 | the program as one argument: quoted exactly if it holds a character that needs it, the four that must be escaped there escaped, and no percent taken for a field code |
| `DesktopProgram.ProgramIs` | crates/bubbler-core/src/desktop.rs:136-159 | for any command: the program read is the one it begins with behind any space, up to the first quote without a backslash if it begins with a quote, each backslash taking the character behind it, and its first word otherwise; none exactly where there is no such program |
| `DesktopProgram.SpacesAre` | crates/bubbler-core/src/desktop.rs:121-159 | what counts as space: the 25 code points of White_Space, and five ASCII characters between words |
| `DesktopPatch.CopyIsRest` | crates/bubbler-core/src/desktop.rs:324-390 | the one growing list, searched backwards for where to insert, is the text group by group |
| `DesktopPatch.NothingIsLost` | crates/bubbler-core/src/desktop.rs:302-409 | the patched lines are the source's lines in order with the added lines merged in and nothing else put in. Headers, lines that are no key and all keys but four are kept byte for byte; an `Exec` of any group keeps the vendor's command behind the launch prefix; `Name` in every locale, `TryExec` and `DBusActivatable` are rewritten in a main group and kept outside it |
| `DesktopOwner.EntryGroupOfOut` | crates/bubbler-core/src/desktop.rs:384-409 | the main group of the result is the text's own, line for line as copied, the added keys after its last line that is not blank |
| `DesktopSafety.PatchedKnowsItself` | crates/bubbler-core/src/desktop.rs:302-378 | the owner of a patched entry is the instance it was made for if and only if its marker is not put, with a carriage return, where no line feed follows it; in that one case the owner read is the name with the carriage return |
| `DesktopSafety.PatchedTwice` | crates/bubbler-core/src/desktop.rs:302-305 | patching the result again, with whatever instance and program, is refused as generated for that instance, or for its name with the carriage return in the one case where that is the owner read |
| `DesktopSafety.CommandsAreLaunched` | crates/bubbler-core/src/desktop.rs:352-355 | in every group every `Exec` line starts with the launch prefix |
| `DesktopSafety.MainGroupIsSet` | crates/bubbler-core/src/desktop.rs:352-409 | read in the main group of the result: a `TryExec` that is the program, `DBusActivatable` false wherever it stands, the marker, every `Name` with the suffix |
| `DesktopExec.ProgramReadsBack` | crates/bubbler-core/src/desktop.rs:139-185 | the program read back from the patched command is the one given, percents doubled, if and only if it has to be quoted or is one word |
| `DesktopExec.TwoWordsAreMisread` | crates/bubbler-core/src/desktop.rs:139-185 | the failing input: the program `a`, carriage return, `b`, which is not read back whatever follows it |
| `DesktopExec.MisreadIsMisread` | crates/bubbler-core/src/desktop.rs:318-378 | the concrete text (CRLF, last line not ended) whose marker is misread |
| `Tables.SupersedesIsByOpcode` | crates/bubbler-wl-proxy/build.rs:345-356 | one copy stands for another exactly when it is no older and the other's requests and events are prefixes of its own |
| `Tables.FoldFile` | crates/bubbler-wl-proxy/build.rs:109-130 | a file folded into its own map, a conflict remembered |
| `Tables.Compare` | crates/bubbler-wl-proxy/build.rs:131-140 | every name of the file compared with the table's; `Conflicts.RefusedClashes` says when that fails |
| `Tables.Insert` | crates/bubbler-wl-proxy/build.rs:163-170 | a file's copies put into the table where they are newer |
| `Tables.MergeFiles` | crates/bubbler-wl-proxy/build.rs:101-171 | the whole merge loop: unstable files with a conflict dropped whole, a stable one fails the build; `Conflicts.MergeIsExact` says when |
| `Conflicts.AgreeIs` | crates/bubbler-wl-proxy/build.rs:363-376 | two copies disagree exactly if the one of higher version, or the earlier at equal versions, lacks the other's requests or events as a prefix |
| `Conflicts.RefusedClashes` | crates/bubbler-wl-proxy/build.rs:109-140 | one file is refused exactly if a copy in it disagrees with the first newest copy of its name earlier in it, or its own first newest copy of a name with the first newest of what was kept before |
| `Conflicts.MergeIsExact` | crates/bubbler-wl-proxy/build.rs:101-171 | a build fails exactly if some stable file is so refused, and if it does not, the files dropped are exactly the unstable ones that are: so no file is dropped and no build fails for less |
| `Conflicts.RefusedPair` | crates/bubbler-wl-proxy/build.rs:363-376 | a refusal always rests on two copies of one name that disagree |
| `Conflicts.NotEveryPairIsSeen` | crates/bubbler-wl-proxy/build.rs:131-140 | the converse fails: version 2 of a name lacks a message of version 1, and both are kept if version 3 comes in between; in the other order the build fails |
| `Tables.StableFilesAreKept` | crates/bubbler-wl-proxy/build.rs:141-153 | a file that is dropped is an unstable one |
| `Tables.TableStandsForKeptCopies` | crates/bubbler-wl-proxy/build.rs:101-171 | after any files: each entry supersedes every copy of its name in every kept file, is the first of the newest of them, and comes from a kept file, so a name only dropped files have is absent |
| `Tables.KeptCopiesAgree` | crates/bubbler-wl-proxy/build.rs:345-376 | any two copies of a name in kept files have the same message at every opcode both define |

## Left out

- Sockets, `poll`, `sendmsg` and `recvmsg`: reads are a list of chunks, and a send succeeds unless the message cannot be encoded; partial and failing writes are not part of the model.
- Time: a deadline is a number of reads still allowed, so "not reached" is a number large enough.
- Descriptors themselves: only how many a read brings, and that indices lie below the count, is modelled.
- The lines the client itself sends while it authenticates, the making of the socket, and the text of error messages beyond their kind.
- `WireError::Remote` is a case of its own in the answers of a session, apart from the errors of the wire.
- Doubles are their 64 bits; UTF-8 validity is a predicate on bytes.
- Stream.ChunksDoNotMatter: a message with descriptors is taken to begin a read of its own, which is more than keeping the descriptors of two messages in separate reads; the program relies on it, as `Stream.OwnDescriptorsOnly` says.
- Opening.StrangersNeverMatter: the same of the messages behind the lines, and no descriptors with the lines themselves.
- SessionRuns.StrangersDoNotMatter: for streams of well-formed messages whose senders the bus has stamped, the deadline not reached; a malformed message ends a call with its error.
- DesktopSafety.PatchedKnowsItself: for a program whose path holds no line break, which would break the entry's own lines; the same holds for the four that follow.
- DesktopPatch.NothingIsLost: no line break in the program or the instance.
- DesktopSafety.CommandsAreLaunched: no line break in the program or the instance.
- DesktopSafety.MainGroupIsSet: no line break in the program or the instance.
- DesktopSafety.PatchedTwice: no line break in the program.
- BwrapShown.SandboxShows: paths at or below `/etc` are excluded; `BwrapEtc`, `BwrapHostEtc` and `BwrapMounts` say what they show where no call reaches, `BwrapShown.LastCallDecides` where one does.
- Which operation an argument is attributed to: the origins are carried along, and no theorem rests on them.
- The parser of KDL documents: `Placement` takes nodes as parsed, with the grants of each, and the grammar of single nodes is not modelled.
- Placement.WrittenReadsBack: the checks across sections at the end of `parse_doc`, `include` lines and the line shortening of the writer are not modelled.
- The sidecar baselines and `finish_plain`: the same pushes without the in-place edits.
- Notes that explain an operation: they never reach the argv.
- Paths are lists of components; other spellings of one path, `..` and symbolic links on the way to a mount are not modelled, and neither are the launches bwrap itself refuses.
- `--dir` creates nothing in the mount table, since it mounts nothing.
- Finding, writing and removing `.desktop` files and the search of `PATH`.
- Reading the XML files, the verbose notes, the presence of `wl_display` and the rendering of the tables.
- `cgroup.rs`, `audio_policy.rs`, `catalogue.rs`, `env.rs`, `error.rs`, `json.rs` and `dbus.rs`: kernel directories, fixed texts and lookups on the host.
