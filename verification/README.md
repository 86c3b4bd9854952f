# ceema in Dafny

ceema is a client for the Threema chat protocol. This project models the parts of it that
carry state or bit-level arithmetic and proves what they are for:

- **The transport session.** `Transport` gives every operation of the session as a function
  on one record of all its fields, `Session` has the session itself as a class whose methods
  are proved to do exactly that, and `Socket` has the non-blocking socket below it. On top
  stand: independence of how the stream is cut and agreement with a one-shot parser
  (`Chunking`, `Framing`), delivery of everything an honest server sends (`Delivery`), the
  handshake as the server reads it and what a session takes from anybody (`Handshake`),
  freshness of nonces over whole runs (`Runs`), conservation of everything sent, up to
  the peer's opening it (`Conservation`), and delivery while packets are being sent over a
  socket that may block or break (`Interleaving`).
- **Promises, futures and the deferred queue.** `Futures` is a heap of cells with the cascade
  of callbacks, `FutureLaws` proves laws of all runs of it, `Async` has the cells and
  promises as classes. `Queueing` and `MessageHandler` do the same for messages that wait for
  a contact's key.
- **Encoders, key derivation, the backup string.** `Bytes` and `Bits` define positional values
  and bit operators; `Accumulator` the 32-bit accumulator both text decoders use; then
  `Base32`, `Base64`, `Pbkdf2` and `Backup`.
- **Messages and text.** `Packets`, `Payloads` and `Messages` are the codecs; `Mailbox` joins
  them with the session into one statement from sender to recipient. `CsvScan`, `GroupScan`
  and `Location` are the character scanners.

The public-key box is any pair of functions with the laws in `Box.Lawful`, and
`Box.ToyIsLawful` shows that some pair has them. HMAC, SHA-256 and the stream cipher are
arbitrary functions. Random bytes, the socket's answers and the bytes that arrive are inputs.
A thrown exception is a result; the connection's reaction to one, which is to terminate the
session, is `Chunking.Close`. Runs on either side of the conditions below:
`Interleaving.HandshakeExists` and `Interleaving.FullSocketEndsHandshake`,
`Interleaving.EarlyOrNot`, `Queueing.AllHappen`.

Where code and expectation differ, the code is modelled and the exact condition proved:

- An honest server's stream is delivered if and only if the socket does not break on what is
  written meanwhile (`Delivery.EndToEnd`, `Interleaving.DeliveredAmidWrites`). A socket breaks
  by an error, but also when it takes the beginning of a message and would block on the rest
  (`Socket.TransmitEnds`): a send buffer that fills up in the middle of a message ends the
  session, and one that does so in the authentication ends the handshake
  (`Interleaving.FullSocketEndsHandshake`).
- A frame of length zero makes the session deaf (`Chunking.ZeroLengthWedges`).
- A packet sent before the server's hello is answered is not refused by the session, and
  spoils the order of what the peer gets (`Conservation.ExpectedIffNotEarly`).
- A frame longer than its length field can say is cut (`Framing.UnframeRecovers`).
- An acknowledgement is read back only if its two ids are equal
  (`Packets.AcknowledgementRoundTrip`).
- Waiting messages of one contact can be overtaken (`Queueing.OrderedIffNoneOvertakes`).
- A handler that throws behind the first message of a queue leaves its own message and those
  behind it without any fate, and the queue in place for good; one that throws on a message
  received from a known contact leaves that message without any (`Queueing.NeverNeither`,
  `Queueing.QueueIffOneFetch`).
- Base32 text of a number of octets not divisible by five is not decoded
  (`Base32.DecodeEncode`), although the encoder pads it. Both buffer decoders write one octet
  past the size they are given exactly when the text is too long (`Base32.Decode`,
  `Base64.DecodeBuffer`).
- The Base64 encoder reads past its input, and its output then depends on what lies there
  (`Base64.TextMeetsStandard`); both decoders nevertheless recover the input
  (`Base64.BothInvert`), and the buffer decoder also takes a buffer one octet too large
  (`Base64.SizesAccepted`). The block decoder gives one octet too many for text whose single
  padding character is missing (`Base64.UnpaddedOneMore`).
- An empty header line costs an importer the first row (`CsvScan.HeaderSkipped`), and an
  imported alias gives way to a name that differs from it (`CsvScan.AliasShown`).
- An empty text and a group icon are never read back (`Payloads.SerializedRoundTrip`), and a
  place keeps its description only under the conditions of `Location.PlaceRoundTrip`.

## Model

| member | source | states |
|---|---|---|
| Socket.TcpSocket.Send | src/socket/socket.cpp:71-90 | sending loops over partial writes; its result and the bytes on the wire are those of Transmit |
| Socket.TransmitEnds | src/socket/socket.cpp:71-90 | a message goes out whole if and only if the system takes enough bytes before it first refuses; it breaks if and only if that refusal comes before the last byte and is an error or comes behind the first byte |
| Socket.TransmitEffect | src/socket/socket.cpp:71-90 | all or nothing unless the stream breaks: delivered means the whole message is on the wire, blocked means none of it, broken means a proper prefix |
| Socket.TcpSocket.Receive | src/socket/socket.cpp:92-102 | a read takes at most a buffer full and loses nothing of what is to come |
| Socket.GatherIs | src/protocol/session.cpp:91-107 | reading takes all chunks up to the first pause, end or error and nothing behind it |
| Session.Session.Connect | src/protocol/session.cpp:47-80 | a new connection terminates the old one, sets server key, prefix, counters and key pair, says hello, and rests in a state meeting the invariant |
| Session.Session.OnReadyRead | src/protocol/session.cpp:82-114 | reads everything the socket has, then drains; the outcome is one function of the old fields and those bytes; ends in a state meeting the invariant with no complete item left |
| Session.Session.ReceiveAll | src/protocol/session.cpp:91-107 | appends to the read buffer exactly the bytes up to the first pause, end or error |
| Session.Session.Drain | src/protocol/session.cpp:109-111 | the loop ends, since every iteration shrinks the buffer, and only with a zero length or too few bytes left |
| Session.Session.PacketReady | src/protocol/session.cpp:116-162 | each state reads its item and moves on as the transition function says, or throws |
| Session.Session.OnReadyWrite | src/protocol/session.cpp:164-182 | the buffer goes out whole, stays whole, or the session is terminated |
| Session.Session.Terminate | src/protocol/session.cpp:184-197 | wipes keys, buffers and socket; counters and queue stay |
| Session.Session.NextClientNonce | src/protocol/session.cpp:199-201 | the nonce of the current counter; the counter moves on, wrapping at 64 bits |
| Session.Session.ReadHello | src/protocol/session.cpp:216-244 | takes prefix and box, opens it under the next server nonce, stores the session key, checks the echoed prefix |
| Session.Session.SendAuth | src/protocol/session.cpp:246-285 | id, version, nonce and server prefix in the connection's order, and the session key's box, sealed, appended and flushed; what the server reads there is Handshake.ServerReadsAuth |
| Session.Session.ReadAck | src/protocol/session.cpp:287-301 | the acknowledgement must open to zeros under the next server nonce |
| Session.Session.ReadPacket | src/protocol/session.cpp:335-362 | opens one box and queues its packet, an unknown type being skipped and anything else malformed throwing; which packet it is, byte by byte, is Packets.ParsedIffStands |
| Session.Session.GetPacket | src/protocol/session.cpp:306-313 | takes the first packet off the queue, or none |
| Session.Session.SendPacket | src/protocol/session.cpp:315-333 | prints packets a client may send, refuses the others |
| Session.Session.SendBytes | src/protocol/session.cpp:364-379 | one frame under the next client nonce, its length field cut to 16 bits, appended and flushed |
| Transport.StepKeeps | src/protocol/session.cpp:116-162 | every step keeps the invariant (waiting phase fixes the size waited for, written bytes conserved) and strictly shrinks the read buffer |
| Transport.ConnectKeeps | src/protocol/session.cpp:47-80 | after connect the session waits for the hello having logged just its own, or its socket broke and it is disconnected |
| Transport.ConnectBreaks | src/protocol/session.cpp:47-80 | connecting fails if and only if the socket's answers break a message as long as the hello |
| Transport.FlushKeeps | src/protocol/session.cpp:164-182 | accepted bytes followed by the write buffer never change by flushing; only socket and buffer do |
| Transport.AppendKeeps | src/protocol/session.cpp:207-214 | appending and flushing adds exactly the written bytes to that conserved whole |
| Chunking.ArriveTwice | src/protocol/session.cpp:88-113 | two reads leave the session as one read of both byte strings would |
| Chunking.StepMore | src/protocol/session.cpp:116-162 | a step neither looks at nor touches bytes beyond the item it waits for, failures included |
| Chunking.ChunkingIrrelevant | src/protocol/session.cpp:88-162 | two ways of cutting the same stream end in the same state, counters, leftover, queue and output |
| Chunking.ArriveIsParse | src/protocol/session.cpp:82-162 | for every stream, honest or not, the incremental session equals a one-shot parser that first finds all frames |
| Chunking.ZeroLengthWedges | src/protocol/session.cpp:109-147 | waiting for a packet, the session ignores all further input if and only if the announced length is zero |
| Framing.CompleteIsLongest | src/protocol/session.cpp:142-156 | the number of frames counted as complete in n bytes is the largest that fits |
| Framing.UnframePrefix | src/protocol/session.cpp:142-156 | any prefix of honest frames yields exactly the frames it holds whole |
| Framing.UnframeRecovers | src/protocol/session.cpp:364-379 | the receive-side rule recovers the boxes sent if and only if every length fits the two-byte field |
| Delivery.EndToEnd | src/protocol/session.cpp:82-162 | for every honest server run, every prefix of its bytes and every chunking: the session is alive with the server counter at start plus boxes opened and the queue gaining, in order, for each complete frame the packet its four type bytes and its fields stand for, and nothing for other types, if and only if the hello is incomplete or the socket's answers do not break a message as long as write buffer and authentication; otherwise it is terminated with the hello read |
| Delivery.BoxesOpened | src/protocol/session.cpp:335-362 | honest boxes open one after another, unknown types using up their nonce all the same |
| Delivery.AuthSent | src/protocol/session.cpp:246-285 | the authentication is appended to what was written, on the wire or buffered, if and only if the socket's answers do not break a message as long as buffer and authentication; otherwise the session is terminated |
| Delivery.HandshakingOverOpenSocket | src/protocol/session.cpp:47-80 | connecting over a socket that takes hello and authentication whole leads to a handshake of that kind, whatever the keys and the prefix |
| Handshake.ServerReadsAuth | src/protocol/session.cpp:246-285 | answering an honest hello, the session appends 144 bytes which the server opens under the client's prefix and the eight counter bytes; bytes 0 to 8 are the id, 8 to 40 the version, then the nonce and the server's prefix with a proxy and the other way round without; bytes 80 to 128 open under that nonce and the long-term keys to the session key |
| Handshake.NonceIs | src/protocol/session.h:37-42 | a nonce is the prefix and the counter's eight digits to base 256, least significant first, and no other |
| Handshake.ConnectionCounts | src/protocol/session.cpp:47-80 | both counters start at 0 by way of the proxy and at 1 otherwise, and the queue is kept |
| Handshake.OnlyHello | src/protocol/session.cpp:216-244 | whoever is at the other end, a session that has read eighty bytes is alive only if they hold a box under the server's key that echoes its prefix |
| Handshake.OnlyAck | src/protocol/session.cpp:287-301 | waiting for the acknowledgement, a session stays alive only if its box opens to sixteen zeros |
| Handshake.FrameArrives | src/protocol/session.cpp:335-362 | one frame from anybody: a box too short or that does not open, or a body of known type and bad length, ends the session; an unknown type only uses up the nonce; anything else queues the one packet its bytes stand for |
| Handshake.DeadIsWiped | src/protocol/session.cpp:184-197 | whatever events end a session, no key, prefix, socket or buffered byte is left |
| Interleaving.StepAlike | src/protocol/session.cpp:116-162 | what is written, and how the socket answers, changes nothing about reading unless the socket breaks |
| Interleaving.ErrorIffBreaks | src/protocol/session.cpp:82-379 | in any session, whatever the server, a step ends in a socket error if and only if it has something to write, the hello's answer included, and the socket's answers break a message of that length |
| Interleaving.DeliveredAmidWrites | src/protocol/session.cpp:82-182 | in every run of reads, sends and socket-ready events over an honest stream the session ends alive if and only if at no step the socket's answers break a message as long as what is then to be written, and then exactly the known-type packets of the complete frames are queued |
| Interleaving.FullSocketEndsHandshake | src/socket/socket.cpp:80-84 | over a socket that takes the hello, one byte more and then would block, every client gets into a handshake which an honest server's hello ends, no error having occurred |
| Interleaving.ConnectedOverBlockedSocket | src/protocol/session.cpp:164-182 | connecting over a socket that only blocks leads to a handshake with the hello buffered |
| Interleaving.EarlyOrNot | src/protocol/session.cpp:315-379 | the handshake can be passed with nothing sent early and with something sent early |
| Runs.SendKeeps | src/protocol/session.cpp:315-379 | sending keeps the invariant and never touches the reading side |
| Runs.ArriveWrites | src/protocol/session.cpp:126-134 | whatever arrives, the writing side is left alone or gains the one authentication |
| Runs.NoncesRepeat | src/protocol/session.h:37-42 | two draws give the same nonce if and only if a multiple of 2^64 draws lies between |
| Runs.NoncesFresh | src/protocol/session.cpp:199-201 | in every run of up to 2^64 events after connecting, no two messages share a nonce |
| Conservation.ExpectedIffNotEarly | src/protocol/session.cpp:207-285 | a run past the handshake wrote hello, authentication under the first nonce, then frames, if and only if nothing was sent early |
| Conservation.PeerRecovers | src/protocol/session.cpp:164-182 | whatever the socket answered, accepted bytes and write buffer are hello, authentication and all frames in order, and the peer opens exactly what the packets handed over in the run print as, in order, if and only if each fits its length field |
| Futures.SetContentKeeps | src/async/future.h:81-95 | storing a result leaves only the waiting callback to run |
| Futures.RunReady | src/async/future.h:307-316 | running a waiting callback makes its target ready for exactly the outcome of the function |
| Futures.NextKeeps | src/async/future.h:330-384 | attaching a callback, early or late, on a plain or nested future, leaves the heap consistent but for that callback |
| Futures.NewPromiseKeeps | src/async/future.h:243-243 | a new promise keeps the heap invariant |
| FutureLaws.ExactlyOnce | src/async/future.h:71-102 | in every legal run each callback has run once if its result is there, and never otherwise |
| FutureLaws.ChainResult | src/async/future.h:330-352 | in any heap a run reaches, the end of a chain holds the composition of its callbacks over the head's value or exception, or nothing yet |
| FutureLaws.CallbackResult | src/async/future.h:307-316 | in every legal run each callback's target holds what the callback throws on the result it gets, else the value returned or the future given, and nothing before there is a result |
| FutureLaws.ChainOrder | src/async/future.h:330-352 | the callbacks of a chain run in chain order |
| FutureLaws.ChainWhenever | src/async/future.h:97-102 | a head resolved after any number of the attachments gives the same composition at the end |
| FutureLaws.BrokenWhenever | src/async/future.h:249-254 | destroying the head promise after any number of the attachments ends a chain of callbacks that pass exceptions on with the broken-promise exception |
| FutureLaws.OrderIndependence | src/async/future.h:81-102 | two legal runs of the same steps in any order end with the same result in every cell |
| FutureLaws.Confluence | src/async/future.h:81-102 | a heap's results are determined by its callbacks and the results of its roots |
| FutureLaws.FlattenIsBind | src/async/future.h:354-384 | a callback on a nested future gets the inner result once that is there, or the exception of the outer one, and its own target then holds what it throws, what it returns, or the future it gives |
| FutureLaws.Bind | src/async/future.h:354-384 | g behind f, f giving future i on input r: if f throws e, g is run on e; otherwise on the result of i, once there is one |
| Async.AsyncData.SetValue | src/async/future.h:81-87 | sets the value and cascades exactly as the heap function says |
| Async.AsyncData.SetException | src/async/future.h:89-95 | the same for an exception |
| Async.AsyncData.SetCallback | src/async/future.h:97-102 | stores the callback and runs it at once if the cell is resolved |
| Async.AsyncData.AsyncCallback | src/async/future.h:307-316 | the target is resolved with what the function throws, the value it returns, or the future it gives; that no exception is lost is FutureLaws.CallbackResult |
| Async.AsyncData.Next | src/async/future.h:330-384 | a fresh target, attached; both plain and nested futures |
| Async.Promise.SetValue | src/async/future.h:267-285 | resolves the cell once; a second time throws and changes nothing |
| Async.Promise.SetException | src/async/future.h:297-303 | the same for an exception |
| Async.Promise.Destruct | src/async/future.h:249-254 | breaks an unsatisfied promise and leaves a satisfied one alone |
| Queueing.QueueIffOneFetch | src/threepl/MessageHandler.cpp:72-105 | at rest in every run no contact has two fetches and one with a fetch has a queue; queues and fetches match for all contacts if and only if no handler threw behind the first message of a queue |
| Queueing.KnownNeverQueued | src/threepl/MessageHandler.cpp:26-47 | once known, a contact stays known, and what waits for it changes only by the end of its fetch |
| Queueing.KnownIffAnswered | src/threepl/ContactStore.cpp:23-44 | after every run a contact is known if and only if some fetch of it has finished, well or badly, or it was learnt, and it is stored as the first of these found it |
| Queueing.FetchedOnce | src/threepl/MessageHandler.cpp:72-105 | in every legal run a contact is fetched once if a message for it was submitted before anything answered for it, and never otherwise |
| Queueing.ExactlyOneFate | src/threepl/MessageHandler.cpp:26-99 | every message submitted is settled exactly once, as handled, failed or dropped, or still waits, never both |
| Queueing.NeverNeither | src/threepl/MessageHandler.cpp:26-99 | with no fetch outstanding every message has been handled or has failed if and only if no handler threw behind the first message of a queue and none threw on a message received from a known contact |
| Queueing.FateByCause | src/threepl/MessageHandler.cpp:26-105 | over whole runs a message is handled, failed or dropped exactly when some step gave it that fate: its submission to a known contact by whether its handler threw, or the end of its fetch by whether a key was found and where a handler threw |
| Queueing.AllHappen | src/threepl/MessageHandler.cpp:26-105 | there are runs in which a message overtakes another, in which a handler breaks a flush off, and in which a received message is dropped |
| Queueing.OrderedIffNoneOvertakes | src/threepl/MessageHandler.cpp:26-105 | messages of each contact are dealt with in submission order if and only if none is submitted for a contact that became known while its queue waited |
| MessageHandler.Handler.OnRecvMessage | src/threepl/MessageHandler.cpp:26-32 | hands the message to recv, whose exception reaches the caller, or enqueues it, as the model's step says |
| MessageHandler.Handler.SendMessage | src/threepl/MessageHandler.cpp:34-47 | sends at once, with its exception caught into the promise, or enqueues |
| MessageHandler.Handler.Enqueue | src/threepl/MessageHandler.cpp:72-105 | joins a waiting queue or starts one and fetches |
| MessageHandler.Handler.Flush | src/threepl/MessageHandler.cpp:83-102 | handles the queue in order, or fails it if there is no key or the first handler throws, and forgets it; a later handler that throws leaves it in place |
| MessageHandler.Handler.OnFetched | src/threepl/ContactStore.cpp:34-44 | stores the answer, a failure as an empty contact, then flushes |
| MessageHandler.ContactStore.Emplace | src/threepl/ContactStore.cpp:23-41 | an entry that exists is not replaced |
| Accumulator.ShiftIn | src/encoding/base32.h:55-56 | a digit shifted into the wrapping 32-bit accumulator loses none of the bits still needed |
| Accumulator.FedOctets | src/encoding/base32.h:50-73 | after any digits the octets written are the whole octets of their value, and all of the value if no bits are left |
| Accumulator.FedConcat | src/encoding/base64.h:78-95 | digits that fill their octets can be decoded apart from those behind them |
| Base32.Decode | src/encoding/base32.h:48-74 | the octets as a base-256 number equal the alphabet characters as a base-32 number; -1 if bits are left over; for a text too long the first octets up to one past the capacity and their count; nothing written beyond |
| Base32.SpreadIsGroup | src/encoding/base32.h:83-92 | the shift-and-mask expressions are the eight digits of the forty bits |
| Base32.Encode | src/encoding/base32.h:77-129 | for every input of at least four octets, the text of section 6 of RFC 4648, in all residues |
| Base32.DecodeEncode | src/encoding/base32.h:48-129 | decoding inverts encoding for whole groups of five and is refused for every other length |
| Base32.ReadAlike | src/encoding/base32.h:51-54 | two strings have the same digits if and only if they agree up to letter case and characters outside the alphabet |
| Base32.LettersOf | src/encoding/base32.h:24-27 | each digit's character: letters for 0 to 25, then the digits 2 to 7, and the padding |
| Base32.ExampleWhole | src/encoding/base32.h:77-129 | the octets of fooba give MZXW6YTB, as section 10 of RFC 4648 has it |
| Base64.Encode | src/encoding/base64.h:41-68 | for every input of at least two octets, the text of its groups, the last one filled from the byte beyond the input |
| Base64.SpreadIsGroup | src/encoding/base64.h:53-58 | the shift-and-mask expressions are the four digits of the twenty-four bits |
| Base64.DecodeBuffer | src/encoding/base64.h:78-109 | octets by value, left-over bits as a last octet if there is room, exactly when the buffer size is refused, what has been written then, and nothing written beyond |
| Base64.DecodeBlocks | src/encoding/base64.h:111-128 | for properly padded blocks the octets of each block; for any characters, the terminating NUL behind a last group of three included, the bytes their table entries put together give, and how many |
| Base64.UnpaddedOneMore | src/encoding/base64.h:111-128 | text of any digits whose last group of three lacks its padding decodes to the right octets and a third one, 64 or 192 by the last digit |
| Base64.BothInvert | src/encoding/base64.h:41-128 | both decoders give back every input, whatever byte the encoder found beyond it |
| Base64.DecodersAgree | src/encoding/base64.h:78-128 | on the padded text of any digits the two decoders agree, and the block decoder is meaningful if and only if no lone digit is left |
| Base64.SizesAccepted | src/encoding/base64.h:97-107 | for encoded text the buffer decoder takes the exact size, or one more after padding, and no other |
| Base64.TextMeetsStandard | src/encoding/base64.h:60-66 | the encoder's output is that of section 4 of RFC 4648 if and only if the bits it reads beyond the input are zero |
| Base64.LettersOf | src/encoding/base64.h:23-27 | each digit's character: capitals, small letters, decimal digits, plus and slash |
| Base64.Examples | src/encoding/base64.h:41-68 | the octets of f, fo and foo give the texts of section 10 of RFC 4648, nothing lying behind them |
| Pbkdf2.Derive | src/encoding/pbkdf2-sha256.c:79-121 | the buffer holds the key of section 5.2 of RFC 8018, last block cut, and nothing beyond it changes |
| Pbkdf2.ComputeBlock | src/encoding/pbkdf2-sha256.c:95-112 | a block from a copy of the cached state is F of the standard |
| Pbkdf2.Iterate | src/encoding/pbkdf2-sha256.c:102-110 | the iterations accumulate the exclusive or of U_1 to U_c |
| Pbkdf2.Store32Be | src/encoding/pbkdf2-sha256.c:67-72 | the four octets are the big-endian digits of the block number |
| Pbkdf2.KeyPrefix | src/encoding/pbkdf2-sha256.c:75-78 | a shorter key is the beginning of a longer one |
| Pbkdf2.KeyBlock | src/encoding/pbkdf2-sha256.c:94-117 | every whole block of the key is the block of its number |
| Pbkdf2.KeyOctet | src/encoding/pbkdf2-sha256.c:79-121 | given the chain of digests, each the PRF of the one before and the first of salt and block number in four octets, octet k of block n is the exclusive or of their octets k |
| Backup.MakeBackup | src/contact/backup.cpp:30-55 | the string is salt and encrypted account, in Base32, dashed |
| Backup.DecryptBackup | src/contact/backup.cpp:57-100 | for every string and password: invalid length, corrupted, or an account, by the value the string decodes to |
| Backup.InsertDashes | src/contact/backup.cpp:51-53 | dashes between groups of four counted from the end |
| Backup.RoundTrip | src/contact/backup.cpp:30-100 | a string decrypts to an account if and only if it is, up to letter case and characters outside the alphabet, a backup of it under that password with some salt |
| Backup.BackupOctets | src/contact/backup.cpp:30-55 | a backup decodes to fifty octets: the salt, and each octet of id, secret key and the first two of their hash xored with the stream under the key of 100000 iterations of password and salt |
| Backup.OpensIffHashed | src/contact/backup.cpp:57-100 | a string of fifty octets opens if and only if what they decrypt to, octet by octet, ends in the start of the hash of what precedes, and then to the account there |
| Backup.DashesStand | src/contact/backup.cpp:51-53 | counted from the end, every fifth character is a dash and the others are those of the text |
| Packets.MessageRoundTrip | src/protocol/packet/Message.cpp:31-120 | a relayed message is parsed to the fields sent, the nick cut at 32 bytes and the first zero, if and only if the payload can hold its MAC |
| Packets.ParsedIffStands | src/protocol/packet/Packet.cpp:29-52 | a body is parsed to a packet if and only if its four type bytes and its fields, byte by byte, stand for that packet |
| Packets.SkippedIffUnknown | src/protocol/packet/Packet.cpp:48-50 | the type is unknown if and only if its four bytes are none of the six |
| Packets.RefusedIffBadLength | src/protocol/packet/Message.cpp:31-38 | a body of known type is refused if and only if it is an acknowledgement not of 20 bytes or a message of fewer than its fixed fields and a MAC take |
| Packets.PacketsReceived | src/protocol/packet/Packet.cpp:33-47 | the packets that connected, disconnected, keep-alives and acknowledgements written in bytes are read as, for every tail |
| Packets.PacketsSent | src/protocol/packet/Acknowledgement.cpp:45-57 | acknowledgements and keep-alives byte by byte |
| Packets.MessageSent | src/protocol/packet/Message.cpp:78-120 | a sent message field by field at its offsets, the nick cut or filled with zeros to 32 bytes |
| Payloads.SerializedRoundTrip | src/protocol/packet/payloads/MessagePayload.cpp:31-92 | every payload of any list length is read back as written if and only if it is no empty text, no group icon and, for a type whose codec is given from outside, taken by that codec; otherwise reading throws |
| Payloads.DeserializedRoundTrip | src/protocol/packet/payloads/PayloadControl.cpp:22-63 | a body that can be read is written back unchanged, but for a typing flag above one |
| Payloads.PayloadLaid | src/protocol/packet/payloads/PayloadGroupControl.cpp:40-101 | type byte and body of every payload, byte by byte and id by id |
| Payloads.TakenIff | src/protocol/packet/payloads/MessagePayload.cpp:31-92 | a body is read if and only if its length and first bytes are those its type byte asks for |
| Payloads.BodyRead | src/protocol/packet/payloads/MessagePayload.cpp:31-92 | a body that is read lies in the bytes as that payload would, and a typing flag is set by every byte but zero |
| Payloads.PutIds | src/protocol/packet/payloads/PayloadGroupControl.cpp:40-50 | the loop over members or message ids fills its buffer exactly |
| Payloads.GetIds | src/protocol/packet/payloads/PayloadGroupControl.cpp:30-35 | the reading loop recovers the ids eight bytes at a time |
| Payloads.Serialize | src/protocol/packet/payloads/PayloadGroupControl.cpp:40-73 | each variant's bytes, none for the empty payload |
| Payloads.PutIcon | src/protocol/packet/payloads/PayloadGroupControl.cpp:91-101 | a group icon is written with its key over its size |
| Payloads.Deserialize | src/protocol/packet/payloads/MessagePayload.cpp:31-92 | the dispatch on the type byte with each codec's size checks |
| Messages.AddPadding | src/encoding/pkcs7.h:23-30 | between 1 and 255 bytes, each the pad's length |
| Messages.Message.ToPacket | src/protocol/packet/Message.cpp:78-120 | the advancing position fills the packet exactly, so the final check never throws |
| Messages.FromPacket | src/protocol/packet/Message.cpp:31-76 | wrong type and short packets are refused; otherwise the object holds the parsed fields |
| Messages.Message.Encrypt | src/protocol/packet/Message.cpp:122-138 | type byte, payload and pad sealed into the payload data, or nothing changed |
| Messages.Message.Decrypt | src/protocol/packet/Message.cpp:140-163 | the payload read, or the failure and what the object then holds |
| Messages.PostSucceeds | src/protocol/packet/Message.cpp:122-138 | encrypting to the addressee never fails once there is a payload |
| Messages.PostedOpens | src/protocol/packet/Message.cpp:122-138 | the addressee opens a posted message to the payload's bytes and as many pad bytes as each of them says |
| Messages.DecryptsIff | src/protocol/packet/Message.cpp:140-163 | decrypting succeeds if and only if both ids match, the box opens, the pad leaves something, and that is a readable body |
| Messages.DecryptLeaves | src/protocol/packet/Message.cpp:140-163 | after each outcome, what the object holds: the payload that lies in the bytes, the bytes opened or stripped, or what it held |
| Messages.Conversation | src/protocol/packet/Message.cpp:31-163 | from one person through the relay to another, fields and payload arrive, the payload being read if and only if it is sendable, whatever codecs are given |
| Mailbox.LettersArrive | src/protocol/session.cpp:82-182 | letters sealed by their authors and relayed by an honest server reach the queue, all and in order, however the bytes are cut and whatever is sent meanwhile, if at no step the socket's answers break what is to be written, and the session dies otherwise; each letter is read as written if and only if it is sendable |
| CsvScan.ScanContacts | src/threepl/ThreeplImport.cpp:52-169 | the character scanner adds a buddy for the contact of every complete line not known before, by its quoted cells, under the alias chosen from them |
| CsvScan.ContactsCounted | src/threepl/ThreeplImport.cpp:90-139 | new and old add up to the lines, and new counts the distinct ids not known before |
| CsvScan.FieldOfRow | src/threepl/ThreeplImport.cpp:54-68 | in a printed row the characters behind 2k + 1 quotes are cell k |
| CsvScan.HeaderSkipped | src/threepl/ThreeplImport.cpp:80-85 | the rows start behind the header if and only if it is not empty or there are no rows |
| CsvScan.ContactsRecovered | src/threepl/ThreeplImport.cpp:52-169 | importing a printed table adds a buddy for each row with a new id, from its id, names and alias, in order, every row counted |
| CsvScan.FirstRowAdds | src/threepl/ThreeplImport.cpp:90-139 | a buddy is added if and only if its id was not known and the first row with that id gives its alias |
| CsvScan.AliasMissing | src/threepl/ThreeplImport.cpp:115-122 | a missing alias is first and last name with a space between if both are there, and stays as it is otherwise |
| GroupScan.ScanGroups | src/threepl/ThreeplImport.cpp:171-300 | the scanner puts the groups of the complete lines before the first malformed id, which throws, into its own copy of the store |
| GroupScan.HexRoundTrip | src/encoding/hex.h:37-84 | decoding hex digits undoes encoding for every group id |
| GroupScan.SplitParts | src/threepl/ThreeplImport.cpp:271-276 | splitting at semicolons undoes joining for every list that is not empty |
| GroupScan.RowMembers | src/threepl/ThreeplImport.cpp:214-276 | a row's members are exactly those listed, in upper case, if all are well-formed |
| GroupScan.GroupsCounted | src/threepl/ThreeplImport.cpp:225-245 | nothing is thrown if and only if every row is well-formed, and then new and old add up to the rows and new to the growth of that copy |
| GroupScan.GroupsRecovered | src/threepl/ThreeplImport.cpp:171-300 | importing a printed table is adding its rows in order, one without a name under the name made of its id and owner, up to the first malformed one |
| GroupScan.RowRead | src/threepl/ThreeplImport.cpp:214-276 | a printed row gives the group id it spells, owner and members in capitals, and the name or the default one |
| GroupScan.LastRowStored | src/threepl/ThreeplImport.cpp:225-245 | a group is stored as the last row with its key has it |
| GroupScan.ThrownBehind | src/threepl/ThreeplImport.cpp:225-245 | when a row throws, what is stored is what the rows before the first such row gave |
| GroupScan.NameIs | src/threepl/GroupStore.cpp:98-104 | the default name is two hex digits for each octet, the words owned by, and the owner |
| GroupScan.HexDecodesIff | src/encoding/hex.h:56-75 | hex decodes if and only if its length is even and every character is a hex digit of either case or a plus sign, which the table takes too |
| Location.Unescape | src/protocol/packet/payloads/PayloadText.cpp:69-71 | the replace loop ends, equals one pass from left to right and leaves no pair |
| Location.UnescapedSame | src/protocol/packet/payloads/PayloadText.cpp:69-71 | a text is left alone if and only if it has no backslash followed by n |
| Location.UnescapedEscaped | src/protocol/packet/payloads/PayloadText.cpp:69-71 | a text without pairs whose newlines are escaped is unescaped to itself |
| Location.Split | src/protocol/packet/payloads/PayloadText.cpp:42-48 | at most two splits at newlines, an empty rest making no line |
| Location.Deserialize | src/protocol/packet/payloads/PayloadText.cpp:31-79 | coordinates, address and unescaped description of the lines; an empty payload throws, and so do coordinates that do not parse |
| Location.PlaceLines | src/protocol/packet/payloads/PayloadText.cpp:31-79 | one, two or three lines give coordinates, address and description, those missing being empty |
| Location.PlaceRoundTrip | src/protocol/packet/payloads/PayloadText.cpp:31-95 | a place is read back as printed if and only if its coordinates parse, its address is one line, there is no description without one, and the description has no escaped newline |

## Left out

- Session.Session.ReadPacket: a body shorter than four bytes is parsed from memory behind it; what is found there is a function given with the environment.
- Session.Session.Connect: the socket handed over has accepted nothing yet; failure to make a key pair is not modelled.
- Delivery.EndToEnd: honest contents have at least four bytes and are not malformed; what a malformed one does is Handshake.FrameArrives.
- Conservation.PeerRecovers: states the runs in which nothing was sent early; the others are those of Conservation.ExpectedIffNotEarly.
- FutureLaws.OrderIndependence: callbacks are functions of the result, which may also return a future made before; callbacks that use promises of their own while running are not modelled.
- Async.AsyncData.SetValue: a cell keeps its value when a callback has taken it; the lock is not modelled, since there is one event loop.
- Futures of void: their get never looks at the cell, so exceptions do not travel; not modelled.
- Queueing.QueueIffOneFetch: the handler is the only one to fetch contacts.
- Base32.Decode: the position is an unbounded number, not 32 bits wide; the array has room for the one octet written before a text too long is noticed.
- Base64.DecodeBuffer: the array has room for the one octet written before a text too long is noticed.
- Base32.Encode: fewer than four octets, for which the loop guard wraps.
- Base64.DecodeBlocks: text with one or two characters in its last group, for which characters beyond the terminating NUL are read.
- Base64.Encode: fewer than two octets, for which the loop guard wraps; one byte stands for whichever byte beyond the input is read.
- Pbkdf2.Derive: an iteration count of 2^64 - 1, for which the loop would not end; wiping the state afterwards.
- Backup.DecryptBackup: the octet the decoder may write past the end of the array goes into an array one longer.
- Payloads.Deserialize: the codecs of pictures, files, polls, icons, locations and the other group variants; whether one of them takes a body is an arbitrary function given from outside, and one that is taken is kept as bytes. A group icon of eight bytes is read past its end; the model calls that outcome PastEnd.
- Messages.Message.Decrypt: a payload that is empty once opened or stripped is read by the source past its end; the model calls that outcome Undefined.
- CsvScan.ScanContacts: the bookkeeping of libpurple beyond ids and aliases.
- GroupScan.ScanGroups: chats and their updates.
- Location.Deserialize: coordinates stay text, and whether they parse is a function given from outside.
- libsodium, SHA-256 and the stream cipher: only the laws named above.
- TLS, HTTP, JSON, zip files, logging, sockets beyond receive and send, and everything of libpurple.
- Flags, slices and accessors: easy on their own.
