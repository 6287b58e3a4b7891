# Wire codecs and tunnel of higs: a Dafny model

This project models four wire codecs of the repository and the state machine two of them feed, and
proves what they promise.

- **DNS messages** (`dns_*.dfy`). The encoder appends to a buffer and keeps a table from name suffix
  to the offset where that suffix was first written; it stores an entry before the entry's bytes
  exist and emits backward pointers (section 4.1.4 of RFC 1035). The decoder moves a cursor that can
  jump through one pointer and come back. The proxy builds responses from a resolver and a cache.
- **Masquerading packets** (`proxy_*.dfy`). Two padding lengths are not stored but derived from a
  salted djb2 hash of the first eight inner bytes; the payload length follows by subtraction; the
  control sum picks two of its bytes through indices found in the junk.
- **WebSocket frames** (`wsok_frame.dfy`). Three length forms, and masking in chunks of 16 KiB
  (sections 5.2 and 5.3 of RFC 6455).
- **The tunnel** (`tunnel.dfy`, `end_to_end.dfy`, `completion.dfy`). Decoded packets are dispatched to
  connections by id, through channels of 64, while each connection consumes its own.

Every codec is modelled twice: as classes and methods with the original's buffers, cursors, tables
and loops, and as functions on values that those methods are proved to compute. The properties are
lemmas about the functions, stated against independent references: the RFC reading of a name at an
offset (`DnsNames.RfcRead`), the message written without a table (`DnsCompression.Plain`), the parts
of a packet by the closed form of its hash (`ProxyWire.WireSpelled`), what the resolver's lists and
the cache hold (`DnsReplies.Known`), and, for the tunnel, what the list of sent packets alone says
each target should receive (`EndToEnd.Payloads`).

Bytes and words are integers with a range. A shift by k is a multiplication or division by 2^k, a
mask is a remainder, and every reduction modulo 2^16, 2^32 or 2^64 is written out; `|` and `^` are
defined bit by bit in `bytes.dfy`. Names are byte strings; `46` is the dot.

## What the proofs found

- **Pointer chains.** The encoder can write a name that ends in a pointer to a name that itself ends
  in a pointer (internal/dns/encode.go:99-108), and the decoder refuses a second hop
  (internal/dns/decode.go:267-268). Read by RFC 1035 every message means what was encoded
  (`DnsCompression.SameMeaning`); this decoder accepts it exactly when no name goes through two
  pointers, a condition on the list of names (`DnsLimits.DecodesIffShallow`), and otherwise returns
  the recursive-pointer error. `DnsLimits.ChainedIsRefused` gives a message it refuses: questions
  `b.c` and `x.b.c`, and an answer for `x.b.c`. `DnsResponse.ResponseDecodes` says exactly which of
  the proxy's own responses it reads, from the questions alone, and `DnsResponse.ResponseRefused`
  gives one that it does not.
- **Texts.** A text survives as a name exactly when its labels have 1 to 191 bytes and it does not
  end in a dot (`DnsTexts.SurvivesIff`). RFC 1035 allows labels of 63 bytes; the decoder takes any
  length byte that is not a pointer's (internal/dns/decode.go:264-283).
- **Opcodes.** The opcode is written unshifted and read from bit 3 up, so it survives exactly when it
  is 0 (`DnsHeader.OpcodeSurvives`).
- **Offsets.** A pointer holds 14 bits of an offset, so it leads to where its suffix was stored
  exactly when that is below 16 KiB (`DnsTable.PointerHolds`). Where no name ends in a pointer to a
  suffix stored beyond that (`DnsRoundTrip.Encodable`), as in every message whose uncompressed form
  is at most 16 KiB (`DnsCompression.SmallFits`), the names alone decide. A name that does is usually
  misread (`DnsLimits.FarIsMisread`), and can be read rightly by chance (`DnsLimits.FarByChance`);
  `DnsExact.DecodesExactly` covers both: a message of any size comes back exactly when each such
  pointer leads to bytes that spell its suffix in place, and no other name goes through two pointers.
- **Dropped fields.** `Decode` keeps neither additional records nor the response code
  (internal/dns/decode.go:45-49). `DnsExact.StoredExactly` puts all limits together: a message is
  decoded to just what it was exactly when its opcode and response code are 0, it has no additional
  records, its questions are named, and its names come back.
- **The cache's clock.** The answer is right exactly when nothing is left of the lifetime, or what is
  left fits 32 bits and no 64-bit subtraction wraps (`DnsCache.GetFollowsLastSet`). A clock set back
  to before an entry was saved makes the entry outlive its lifetime (`DnsCache.EarlyClockOutlives`).
- **The control sum.** It catches every change of one byte among the id and the first four bytes of
  data (`ProxyImage.SingleByteErrorDetected`), although the changes are multiplied by up to 33^20
  modulo 2^64 before they are folded: no multiple by less than 256 of 33^5 to 33^20, so reduced,
  comes close to a multiple of 2^32 - 1, as two short vectors of a lattice show for each power
  (`ProxyHash.FarSeparates`).
- **Abandoned connections.** A full queue holds up the whole tunnel (internal/server/tunnel.go:120),
  and a connection whose target cannot be dialled is never served (internal/server/conn.go:40-47).
  From a reachable state everything sent can still be delivered exactly when no connection that is
  not served any more is sent more than it has passed on and its queue can hold
  (`Completion.CanFinish`).

## Model

| member | source | states |
|---|---|---|
| `DnsEncode.Encoder.Name` | internal/dns/encode.go:92-109 | the buffer and the table after writing a name are those of the recursive specification, on every byte string |
| `DnsEncode.Encoder.Ptr` | internal/dns/encode.go:119-121 | a pointer is the offset with the two top bits set, high byte first |
| `DnsEncode.Encoder.Store` | internal/dns/encode.go:130-132 | the suffix is mapped to the buffer length, cut to 16 bits, before its bytes exist |
| `DnsEncode.Encoder.Header` | internal/dns/encode.go:60-71 | twelve header bytes are appended and the table is untouched |
| `DnsEncode.Encoder.Record` | internal/dns/encode.go:83-90 | name, then the fixed fields, the data length cut to 16 bits, and the data |
| `DnsEncode.Encode` | internal/dns/encode.go:10-49 | a message object is appended to the buffer as header and entries, in section order |
| `DnsHeader.WireHeader` | internal/dns/encode.go:16-31 | the twelve header bytes of every encoded message: the response flag is set exactly for answers or a response code (or by an opcode of 128 and up), recursion is desired, the opcode lies on the lowest bits, there are no authority records |
| `DnsPrefix.AppendedReads` | internal/dns/encode.go:8-14 | a message appended to a buffer leaves it alone, and its header and sections are read in place, offsets counted from the start of the buffer |
| `DnsHeader.HeaderExact` | internal/dns/encode.go:60-71 | any header with opcode 0 and a response code of four bits is read back as it was, every flag included |
| `DnsEncode.PutAppended` | internal/dns/encode.go:33-46 | writing two runs of entries is writing one after the other with the state carried over |
| `DnsTable.PutNameSound` | internal/dns/encode.go:92-132 | while any other names are still pending, a name that ends in no pointer out of reach is written so that the RFC reading gives back its labels, through exactly the foretold number of pointers, each leading before the start of the name, and the table with its suffixes added is sound |
| `DnsTable.AppendKeepsSound` | internal/dns/encode.go:134-148 | later appends leave every sound table entry sound |
| `DnsTable.LabelKeepsSound` | internal/dns/encode.go:104-107 | storing an entry ahead of its bytes makes it pending and disturbs no other |
| `DnsTable.Settle` | internal/dns/encode.go:104-108 | once its bytes are there a pending entry within reach is sound |
| `DnsTable.PutEntriesSound` | internal/dns/encode.go:33-46 | after any run of well-formed names, whatever is written between them, every table entry within reach is sound, and nothing is out of reach until the buffer is |
| `DnsTable.PointerHolds` | internal/dns/encode.go:119-132 | the pointer to a suffix stored at any offset leads to that offset modulo 16 KiB, so it is right exactly below 16 KiB |
| `DnsNames.ReadStable` | internal/dns/encode.go:52-58 | what the RFC reading finds at an offset is unchanged by anything appended |
| `DnsNames.JoinLabels` | internal/dns/decode.go:227-251 | the text of a well-formed name is its labels joined with dots |
| `DnsSuffixes.TableComplete` | internal/dns/encode.go:92-132 | after any names the table's keys are exactly their nonempty suffixes |
| `DnsSuffixes.InlineOnce` | internal/dns/encode.go:92-132 | no suffix is written in place twice: those written are exactly the new keys of the table, and no entry ever moves |
| `DnsSuffixes.InlineAt` | internal/dns/encode.go:130-132 | each suffix written in place has its label where it says, and the table has that offset, cut to 16 bits |
| `DnsDecode.Decoder.Label` | internal/dns/decode.go:255-288 | one label, through at most one jump, with the exact error otherwise, on every byte string and cursor |
| `DnsDecode.Decoder.Name` | internal/dns/decode.go:227-251 | the loop joins the labels of the specification and ends with no jump pending; it terminates by jumps left, then bytes left |
| `DnsDecode.Decoder.Restore` | internal/dns/decode.go:69-74 | the cursor returns to the mark, and the mark is cleared, if and only if there is one |
| `DnsDecode.Decoder.Header` | internal/dns/decode.go:81-106 | header fields from their bit positions, or the error on fewer than twelve bytes |
| `DnsHeader.HeaderRecombines` | internal/dns/decode.go:81-106 | the fields that are read recombine to the twelve bytes, whatever they are |
| `DnsHeader.FlagsRead` | internal/dns/decode.go:81-106 | what every flag and code of any encoded message is read as |
| `DnsDecode.Decoder.Quest` | internal/dns/decode.go:124-151 | a question, or the first of its errors |
| `DnsDecode.Decoder.Record` | internal/dns/decode.go:189-222 | a record, or the first of its errors |
| `DnsDecode.Decoder.Quests` | internal/dns/decode.go:108-122 | as many questions as the header says, in order, or the first error |
| `DnsDecode.Decoder.Records` | internal/dns/decode.go:153-187 | the same for answers and additional records |
| `DnsDecode.Decode` | internal/dns/decode.go:13-51 | on success id, opcode, questions and answers are stored and nothing else changes; on failure nothing changes |
| `DnsPrefix.PrefixRefused` | internal/dns/decode.go:13-51 | every proper prefix of a message that comes back is refused, with the error for no header below twelve bytes and for missing data from there on |
| `DnsPrefix.ServersIgnored` | internal/dns/decode.go:27-35 | a message is accepted exactly when its three sections can be read one after another, whatever number of authority records is announced |
| `DnsDecode.NameEndsUnmarked` | internal/dns/decode.go:255-263 | a name that was read leaves no mark |
| `DnsBounds.WalkIsTwoRuns` | internal/dns/decode.go:227-288 | on every byte string and from every offset a name is the labels in place and, after a pointer in whatever direction, the labels in place at its target, with the exact error otherwise |
| `DnsBounds.NameExtent` | internal/dns/decode.go:227-288 | after any accepted name the cursor is just past the name in place whatever its pointer's target, and the labels fit in the bytes they can come from |
| `DnsBounds.NameBounds` | internal/dns/decode.go:227-288 | an accepted name ends strictly after its start, within the buffer, and is at most twice the buffer long |
| `DnsBounds.AcceptedSize` | internal/dns/decode.go:13-51 | accepted input has at least 12 + 6 questions + 11 (answers + records) bytes, and as many of each as the header says |
| `DnsRoundTrip.WalkAgrees` | internal/dns/decode.go:227-288 | where a reading through any number of pointers finds a name, the cursor finds the same labels and ends after the name in place, unless it would need a second jump, when it reports a recursive pointer |
| `DnsRoundTrip.RoundTrip` | internal/dns/encode.go:10-109 | every encodable message decodes to its sections and to the last byte, or fails with exactly the error its names foretell, under this decoder and under the RFC reading |
| `DnsRoundTrip.HeaderSurvives` | internal/dns/decode.go:81-106 | id and counts survive any encoding, the counts modulo 2^16 |
| `DnsLimits.DecodesIffShallow` | internal/dns/decode.go:264-278 | an encodable message comes back whole exactly when its questions are named and none of its names goes through two pointers; with named questions the only error is that of a recursive pointer, with shallow names that of an empty name |
| `DnsLimits.ChainedIsRefused` | internal/dns/encode.go:99-108 | a concrete message that can be encoded and that the decoder then refuses as recursive |
| `DnsLimits.StoredUnchanged` | internal/dns/decode.go:45-49 | a message is decoded to just what it was exactly when opcode and response code are 0, there are no additional records, its questions are named, and no name goes through two pointers |
| `DnsLimits.FarIsMisread` | internal/dns/encode.go:119-132 | a concrete message whose third name every reader takes for the root, because its suffix was stored beyond 16 KiB |
| `DnsLimits.FarByChance` | internal/dns/encode.go:119-132 | a concrete message whose pointer is just as wrong, yet is read rightly |
| `DnsExact.NameExact` | internal/dns/encode.go:92-132 | a name written in any sound state ends where it should and comes back exactly when its pointer is out of reach and leads to a spelling of the suffix, or it goes through one pointer at most |
| `DnsExact.DecodesExactly` | internal/dns/decode.go:13-51 | a message of any size with well-formed names comes back whole exactly when its questions are named and every name comes back |
| `DnsExact.OkIsShallow` | internal/dns/encode.go:99-108 | where no pointer is out of reach, every name comes back exactly when none goes through two pointers |
| `DnsExact.StoredExactly` | internal/dns/decode.go:45-49 | a message of any size is decoded to just what it was exactly when opcode and response code are 0, there are no additional records, its questions are named, and its names come back |
| `DnsTexts.SurvivesIff` | internal/dns/encode.go:92-117 | a text written with nothing to point back to is read back exactly when its labels have 1 to 191 bytes and it does not end in a dot |
| `DnsTexts.DottedTexts` | internal/dns/encode.go:106 | the texts `a.` and `a..b` are not such |
| `DnsHeader.OpcodeSurvives` | internal/dns/encode.go:64 | for every message the opcode read back equals the one written exactly when it is 0 |
| `DnsHeader.HeaderRestored` | internal/dns/encode.go:60-71 | for every message the header read back is the one meant, flags spelled out, exactly when the opcode is 0 and the response code fits in four bits |
| `DnsCompression.PlainRoundTrip` | internal/dns/decode.go:13-51 | a message written without a table is read back whole, unless a question has no name or, to the RFC, a label is too long |
| `DnsCompression.SameMeaning` | internal/dns/encode.go:92-126 | to the RFC reading the compressed and the plain message are the same, errors included |
| `DnsCompression.NotLonger` | internal/dns/encode.go:92-126 | the compressed message is never longer, and is shorter exactly when a pointer is written |
| `DnsCompression.SmallFits` | internal/dns/encode.go:130-132 | a message whose plain form is at most 16 KiB stores all its suffixes within a pointer's reach |
| `DnsMessage.Message.AddAnswers` | internal/dns/message.go:191-199 | one answer per address is appended, in order, each with the name, type 1, class 1, the lifetime and its own address, and nothing else changes |
| `DnsMessage.Message.AddQuest` | internal/dns/message.go:162-168 | an address question for the name is appended |
| `DnsMessage.Message.AddEmptySec` | internal/dns/message.go:170-175 | the empty pseudo-section record is appended |
| `DnsProxy.Proxy.GetLocal` | internal/dns/proxy.go:109-116 | the resolver's list with the longest lifetime, else what the cache gives |
| `DnsProxy.Proxy.HandleMessage` | internal/dns/proxy.go:59-107 | the response takes the request's id and opcode, gains the questions that resolve and one answer per address in order, or one of two errors leaves it untouched |
| `DnsProxy.Proxy.Handle` | internal/dns/proxy.go:39-55 | the reply is the encoded response, or a panic when the request cannot be decoded or handled |
| `DnsReplies.RepliesIff` | internal/dns/proxy.go:39-69 | there is a reply to exactly the requests of one to eight questions that can be decoded |
| `DnsReplies.ResponseSpelled` | internal/dns/proxy.go:80-94 | for any questions, the i-th that has addresses is asked once, in order, and its j-th address, from the resolver's list or else the cache, is given by the answer at its place, with its name and lifetime |
| `DnsReplies.ReplySpelled` | internal/dns/proxy.go:39-55 | the reply to any request whose response can be encoded and is unchained is read back as a response with the request's id, no error, those questions and those answers |
| `DnsReplies.SingleQuestionAddresses` | internal/dns/message.go:191-199 | the reply to a single question whose name the resolver knows has one answer for each address of its list, in order, for the longest lifetime |
| `DnsResponse.ResponseDecodes` | internal/dns/proxy.go:80-100 | a response comes back whole exactly when each of its questions is spelled out in full or repeats an earlier one |
| `DnsResponse.ResponseRefused` | internal/dns/proxy.go:80-100 | asked for b.c and then for x.b.c, a proxy that knows both gives a response its own decoder refuses |
| `DnsResponse.SingleQuestionReply` | internal/dns/proxy.go:39-55 | the reply to a single resolved question is read back as a response, without an error, with the same id, that question and one answer per address |
| `DnsCache.Cache.Get` | internal/dns/cache.go:40-55 | the lookup with its 64-bit comparison and 32-bit subtraction |
| `DnsCache.Cache.Set` | internal/dns/cache.go:32-37 | the entry replaces the one of that name |
| `DnsCache.LookupIs` | internal/dns/cache.go:40-55 | the answer for every entry and every clock, wrap-around included |
| `DnsCache.GetFollowsLastSet` | internal/dns/cache.go:32-55 | after any run and for any clock a name is answered from its last Set, and the answer is right exactly when nothing is left, or what is left fits 32 bits and no 64-bit subtraction wraps |
| `DnsCache.WithinLifetime` | internal/dns/cache.go:49-54 | what is left is then in 1..ttl exactly when the clock reads from the entry's time to before its end |
| `DnsCache.StaysExpired` | internal/dns/cache.go:49-52 | what has expired misses, then and at any later time, until it is set again |
| `DnsCache.EarlyClockOutlives` | internal/dns/cache.go:49-54 | a clock set back k seconds before the entry's time adds them to the lifetime, modulo 2^32 |
| `ProxyHash.Hasher.Put` | proxy/hash.go:17-24 | the wrapping loop computes the fold of the mixing step |
| `ProxyHash.Hasher.Reset` | proxy/hash.go:9-15 | the value after a reset depends on the salt alone |
| `ProxyHash.Hasher.PutB` | proxy/hash.go:26-28 | one byte is mixed in |
| `ProxyHash.AbsorbClosedForm` | proxy/hash.go:17-24 | hashing n bytes gives v 33^n plus the sum of b_i 33^(n-1-i), modulo 2^64 |
| `ProxyWire.HashIsClosed` | proxy/hash.go:9-24 | the hash of salt and data is 33^(n+4) 5381 plus the sum of their bytes, each times its power of 33, the salt least significant byte first, modulo 2^64 |
| `ProxyHash.AbsorbAppended` | proxy/hash.go:17-24 | hashing a concatenation is hashing its parts in turn |
| `ProxyHash.AbsorbOne` | proxy/hash.go:26-28 | hashing one byte as a slice or as a byte is the same |
| `ProxyHash.FoldSeparates` | proxy/hash.go:30-33 | values less than 2^32 - 1 apart fold to different sums, carry and wrap-around included |
| `ProxyHash.FarSeparates` | proxy/hash.go:17-33 | values d 33^n apart fold to different sums for d in 1..255 and n in 5..20 |
| `ProxyHash.ByteChangeDetected` | proxy/hash.go:17-33 | changing one hashed byte with at most twenty after it changes the folded hash |
| `ProxyCodec.TextJunk` | proxy/packet.go:262-273 | each junk byte becomes the alphanumeric character of its low six bits |
| `ProxyCodec.AlphabetIs` | proxy/packet.go:269-273 | the low six bits of a byte pick a character by its place in the alphabet |
| `ProxyCodec.Packet.InitEncode` | proxy/packet.go:183-213 | the packet becomes exactly the prepared one: data, id, both junk arrays, salt, type and style |
| `ProxyCodec.PreparedMeans` | proxy/packet.go:183-213 | a prepared packet is one the encoder takes; its meaning is kept, a junk type stays junk within four bits, its junk is text, its style is the lowest random bit, and only an empty junk packet gets data, as much as its bits say |
| `ProxyCodec.JunkKindIs` | proxy/packet.go:190-203 | a junk type is 4 plus bit 8, bits 16 and 17, and bits 24 to 26 of the random number |
| `ProxyCodec.Packet.PutData` | proxy/packet.go:243-249 | an initialised data packet with this id, payload and salt, its junk and style from the random numbers |
| `ProxyCodec.Packet.PutJunk` | proxy/packet.go:251-256 | an initialised junk packet with a new id |
| `ProxyCodec.Encoder.Packet` | proxy/encode.go:21-75 | the buffer grows by exactly the eight parts of the packet |
| `ProxyCodec.Encode` | proxy/encode.go:8-15 | the packet's bytes are appended to the buffer |
| `ProxyWire.WireSpelled` | proxy/encode.go:21-75 | every part of an encoded packet at its offset, by the closed form of the hash alone: styles, hidden lengths from the lowest three bits and the next three, type byte, id, data, control sum with the bytes it covers, junk |
| `ProxyCodec.Decoder.Fields` | proxy/decode.go:59-107 | everything between the styles, every read in range, with the exact error |
| `ProxyCodec.Decoder.Packet` | proxy/decode.go:39-129 | on success id, data and type are written and the input is consumed whole; on error the packet is unchanged |
| `ProxyCodec.Decode` | proxy/decode.go:10-17 | the same for the entry point |
| `ProxyWire.ErrorsSpelled` | proxy/decode.go:39-129 | the exact error on every byte string, and that there is none otherwise: too short, not opened, too short for its hidden lengths, a wrong sum, not closed as opened |
| `ProxyImage.WireLaidOut` | proxy/encode.go:24-75 | where each part of an encoded packet is, and that it is 46 to 60 bytes longer than its data |
| `ProxyImage.DecodeOfWire` | proxy/decode.go:39-129 | decoding an encoded packet with its salt gives its id, data and type, types from 4 on being 4 |
| `ProxyImage.PreparedSurvives` | proxy/packet.go:183-213 | whatever packet is prepared and encoded, the other side decodes its id, data and type, junk types collapsed |
| `ProxyImage.WireOfSource` | proxy/encode.go:21-75 | an accepted byte string is the encoding of the packet read off from it |
| `ProxyImage.AcceptsExactlyTheImage` | proxy/decode.go:39-129 | a byte string is accepted with a salt exactly when some packet with that salt encodes to it |
| `ProxyImage.ImageIsUnambiguous` | proxy/packet.go:127-140 | packets with the same bytes and salt have the same id, data and type |
| `ProxyImage.AcceptedLength` | proxy/decode.go:77-86 | the data length is the length less 44 and the two hidden lengths |
| `ProxyImage.SingleByteErrorDetected` | proxy/decode.go:98-107 | changing one byte of the id, or of the first four of the data, of any encoded packet is always reported as a bad sum |
| `ProxyControl.EncodeHello` | proxy/hello.go:46-86 | the twelve bytes of a Hello |
| `ProxyControl.HelloLaidOut` | proxy/hello.go:62-78 | network and type on the two low bits of the first two bytes, port with its low byte first, address bytes and junk in turn |
| `ProxyControl.DecodeHello` | proxy/hello.go:104-149 | the target, the first error, or the panic of the IPv6 stub; the object changes only on success |
| `ProxyControl.HelloErrors` | proxy/hello.go:104-149 | the exact error, or panic, on every byte string, and that there is none otherwise |
| `ProxyControl.PutHelloTCP` | proxy/packet.go:221-230 | an initialised packet that carries the Hello of a TCP target |
| `ProxyControl.HelloRoundTrip` | proxy/hello.go:46-149 | an IPv4 target survives whatever the junk and whatever follows |
| `ProxyControl.HelloAccepts` | proxy/hello.go:104-149 | twelve bytes are accepted exactly when they encode some TCP or UDP target |
| `ProxyControl.EncodeClose` | proxy/close.go:39-58 | the code's bytes, least significant first, each followed by junk |
| `ProxyControl.CloseLaidOut` | proxy/close.go:39-58 | the code in the even bytes, the lowest first, and junk in the odd ones |
| `ProxyControl.DecodeClose` | proxy/close.go:67-82 | the code, or the size error |
| `ProxyControl.PutClose` | proxy/packet.go:232-241 | an initialised packet that carries a close code |
| `ProxyControl.CloseRoundTrip` | proxy/close.go:39-82 | a close code survives |
| `ProxyControl.CloseAccepts` | proxy/close.go:67-82 | exactly the strings of eight bytes decode, and they encode back to themselves |
| `WsokFrame.WriteMasked` | wsok/frame.go:204-237 | masking chunk by chunk writes every byte combined with mask byte i mod 4, for every length, as far as the writer takes it |
| `WsokFrame.MaskInto` | wsok/frame.go:213-217 | one chunk, with mask bytes counted from its own start |
| `Bytes.OperatorsBitwise` | wsok/frame.go:170-214 | `|` and `^` on bytes, bit by bit |
| `WsokFrame.MaskedAt` | wsok/frame.go:213-217 | byte i of a chunk is combined with mask byte i mod 4, as byte i of the whole is |
| `WsokFrame.Unmask` | wsok/frame.go:131-136 | the unmasking loop applies the same masking |
| `WsokFrame.UnmaskMasked` | wsok/frame.go:131-136 | masking twice with one mask is the identity |
| `WsokFrame.Encode` | wsok/frame.go:162-238 | the frame's bytes are written as far as the writer takes them, with an error exactly when it does not take all |
| `WsokFrame.Decode` | wsok/frame.go:60-145 | the first frame of the stream, or the error, a header read that is cut short among them; the reader is left right after the frame |
| `WsokFrame.CutsShort` | wsok/frame.go:60-107 | exactly when a header read gives less than it is asked for although there is more |
| `WsokFrame.FrameRoundTrip` | wsok/frame.go:60-249 | a frame at the front of any stream is decoded and takes exactly 2 + extra + mask + payload bytes |
| `WsokFrame.FrameUnchanged` | wsok/frame.go:60-249 | it comes back unchanged exactly when opcode and extension bits fit and an unused mask is zero |
| `WsokFrame.SelfDelimiting` | wsok/frame.go:60-145 | no proper prefix of a frame is a frame |
| `WsokFrame.PrefixError` | wsok/frame.go:60-145 | the exact error of every proper prefix of a frame |
| `WsokFrame.ShortestForm` | wsok/frame.go:241-249 | no accepted bytes that mean the same frame are fewer than its encoding |
| `WsokFrame.StreamRoundTrip` | wsok/frame.go:60-249 | a concatenation of frames decodes to those frames and then to the end of the stream |
| `Tunnel.Server.Dispatch` | internal/server/tunnel.go:90-129 | the map of connections and the outcome after one packet are those of the step function |
| `Tunnel.Server.AddConn` | internal/server/tunnel.go:132-136 | the connection is filed under its id and no other changes |
| `Tunnel.Server.ReadNextFrame` | internal/server/tunnel.go:77-130 | one frame is read, decoded and dispatched; a packet whose channel is full is held and tried again |
| `Tunnel.BrokenFrame` | internal/server/tunnel.go:77-88 | a frame that is no packet is rejected with the packet's error; connections and the rest of the stream are untouched |
| `Tunnel.CutStream` | internal/server/tunnel.go:66-81 | a stream that stops within a frame ends with the exact error of where it stops |
| `Tunnel.StubCrashes` | proxy/hello.go:139-140 | the Hello of an unknown connection for an IPv6 target reaches the panic |
| `Tunnel.Server.TakeOne` | internal/server/conn.go:57-73 | one payload goes from the queue of one connection to its target, written or lost |
| `Tunnel.Server.StopOne` | internal/server/conn.go:34-55 | a connection whose target cannot be dialled, or that is done, is served no more |
| `Tunnel.Conn.ServeOne` | internal/server/conn.go:62-63 | the oldest waiting payload is passed on; a failed write loses it, a closed target ends the loop |
| `Tunnel.RunConserves` | internal/server/tunnel.go:90-144 | over every interleaving: queues hold at most 64; connections stay, with their target, and what they passed on; abandoned ones stay so; at most one Hello is accepted per id; payloads passed on and waiting are together exactly those accepted, in order |
| `Tunnel.RunOtherEnd` | internal/server/conn.go:57-73 | over every run the writes that succeeded are those the run says, in order |
| `Tunnel.ServedUntilEnded` | internal/server/conn.go:57-73 | a connection is served at the end of a run exactly when no event of it stopped the connection or closed its target |
| `Tunnel.StoppedStays` | internal/server/conn.go:34-55 | a stopped connection passes nothing on in any later run |
| `Tunnel.WaitsExactlyWhenFull` | internal/server/tunnel.go:106-121 | after any run a packet waits exactly when it is a Data packet for an open connection with 64 accepted payloads not yet passed on |
| `Tunnel.HoldsSixtyFour` | internal/server/tunnel.go:106-121 | a connection takes Data packets until 64 wait, and not one more |
| `Tunnel.StepOnOne` | internal/server/tunnel.go:94-129 | one step on one connection: it lasts, and gains exactly the payload the step takes in |
| `Tunnel.StepOtherEnd` | internal/server/conn.go:57-73 | one step at the other end: a turn passes on exactly when the connection is served and something waits, whether the write succeeded is kept, and it is served until an event ends that |
| `EndToEnd.NextOfStream` | wsok/frame.go:60-145 | one frame of the sent stream yields one sent packet, or the error of a frame that is none, and leaves the rest |
| `EndToEnd.SentTypes` | proxy/packet.go:221-249 | the type number on the wire: 1 for a Hello, 2 for a Close, 3 for Data |
| `EndToEnd.StreamIntegrity` | internal/server/tunnel.go:77-130 | for every list of packets, with pings, junk, undecodable Hellos and frames that are no packet among them, and however reading and consuming interleave: each connection is at every moment exactly as some first n of them make it, all of them once the stream is read, and the outcome of the next read, errors included, is the one they foretell |
| `EndToEnd.DeliveredInFull` | internal/server/conn.go:57-73 | with everything read and its queue empty, a connection has passed on exactly the payloads sent for its id after its first Hello, in order, and written them if no write failed; its address and port are that Hello's |
| `Completion.CanFinish` | internal/server/conn.go:57-73 | from a reachable state some further run reads everything and empties every queue that is served, exactly when no abandoned connection is sent more than it has passed on and its queue can hold |

## Left out

- DnsRoundTrip.RoundTrip: assumes no pointer to a suffix stored at 16 KiB or beyond, where the error depends on the bytes at the cut offset; `DnsExact.DecodesExactly` has no such assumption.
- DnsExact.DecodesExactly: assumes well-formed names, counts and data lengths that fit 16 bits, and an initially empty buffer; single texts that are not well formed never survive (`DnsTexts.SurvivesIff`).
- DnsDecode.Decode: debug printing of headers, questions and records is not modelled.
- DnsProxy.Proxy.Handle: the clock is a parameter, the resolver an arbitrary function; the flags and counter that the original computes and ignores are local to the loop.
- ProxyCodec.Packet.InitEncode: random numbers are parameters; nothing is claimed about randomness or concealment.
- ProxyControl.DecodeHello: the IPv6 branch panics in the original; the panic is the result HelloPanic, which the dispatcher passes on as Crashed. Encoding an IPv6 target is not modelled.
- WsokFrame.Decode: memory does not run out for announced sizes; readers fail only by ending.
- WsokFrame.StreamRoundTrip: about what frames decode to when no header read is cut short; a reader that gives less is covered by `WsokFrame.Decode` alone.
- EndToEnd.StreamIntegrity: the list has no Hello for an IPv6 target, which brings the server down (`Tunnel.StubCrashes`), and both ends know one salt.
- Tunnel.Server.ReadNextFrame: the original calls an older packet interface, with swapped arguments and no salt; the model uses the current one, with a salt both ends know. The reader fills its requests. A blocked channel send is split into holding the packet and trying again.
- Tunnel.Conn.ServeOne: what comes of a write is a parameter; the reverse direction, from targets to the client, is not modelled.
- Completion.CanFinish: that delivery can be completed, not that it will be.
- A queue holds the payloads of the packets waiting in it; the other packet fields are not used after dispatch.
- HTTP serving, hijacking, dialing, iptables, process lookup, configuration, routes and name files: I/O and line splitting, which would only add easy members.
- WebSocket handshakes, key hashing, logging and text forms.
