# MailMimeParser core, modelled in Dafny

This project models the core of zbateson/mail-mime-parser, a PHP library that
parses e-mail messages (RFC 5322 headers, MIME bodies after RFC 2045 and RFC 2046)
into a tree of parts. The model covers five pieces of that library:

- **Part filters** (`part_filter.dfy`, `ascii.dfy`). `PartFilter` builds the
  closures a message uses to select attachments, inline text parts and parts with
  a given header value or disposition. Each closure is a predicate over a snapshot
  of the part's getters. PHP's `strtolower` and `strcasecmp` are modelled with
  ASCII-only case folding. Every filter has an if-and-only-if lemma that states
  when it keeps a part.
- **Header stream** (`header_block.dfy`, `part_tree.dfy`). `HeaderStream` is the
  readable stream of a part's header section. It writes one `Name: value` line
  per header, each ended by CR LF, then an empty line. A part that is an
  `IMimePart` writes its raw headers. Any other part whose parent answers true
  to `isMime()` writes three generated content headers. Any other part writes
  only the empty line. Writes go to the output stream's current position. The stream observes its
  part and rebuilds its text on `update`. A reader of the header section is
  proved to invert the writer for every header that can be written
  unambiguously.
- **Address-list base consumer** (`address_base_consumer.dfy`). This consumer
  of the header grammar handles address lists (section 3.4 of RFC 5322). It has
  no separators, start tokens or end tokens. It hands every token to the address
  consumer. It never steps past a start token, so that token reaches the
  sub-consumer.
- **Decode pipeline** (`filter_manager.dfy`). `PartStreamFilterManager` keeps a
  part's raw content stream. It also keeps the last transfer-decoding stage it
  built, keyed by the Content-Transfer-Encoding value (section 6 of RFC 2045),
  and the last charset-conversion stage, keyed by the pair of charsets. A stage is
  rebuilt only when a request's key differs from the key it was last built for.
  The stream factory logs each stage it is asked to build. The number of factory
  calls over any sequence of requests is proved equal to a count computed from
  the keys alone. Every stream returned is proved to be the pipeline for the
  request's key.
- **Message part** (`part_tree.dfy`). `MessagePart` has an ordered observer set
  (`attach`, `detach`, `notify`, with `notify` forwarded to the parent), a
  charset override, and a `PartStreamContainer` that routes content and binary
  requests to the filter manager. `setContent` and `detachContentStream` replace
  the content and notify observers once.

The classes whose fields the PHP code updates in place are Dafny classes:
`MessagePart`, `HeaderStream`, `PartStreamContainer`, `PartStreamFilterManager`,
`StreamFactory`, the in-memory `MemoryStream` and the shared `TokenIterator`. Each
stateful class method is proved against a pure function of the old state:
`PartStreamFilterManager.GetContentStream` against `ContentReply`, for example,
and `HeaderStream.WritePartHeadersTo` against `Serialize`. The lemmas are proved
about those functions. The methods whose names end in `Test` follow the
library's unit tests step by step and state those tests' expectations as
postconditions.

Streams of bytes that the core only passes along are values of the datatype
`FilterManager.Stream`: a raw stream, the factory's n-th result, or a caching
wrapper around another stream. Only the header stream's own text is modelled as
characters.

Three points about the code, which the model follows:

- `fromAttachmentFilter`'s doc comment says it drops text parts "that do not
  have an 'attachment' disposition", but the code at
  src/Message/PartFilter.php:35 drops only those whose disposition is `inline`.
  So a text/plain part with no disposition is kept
  (`PartFilter.AttachmentFilterKeepsTextWithoutDisposition`).
- `HeaderStream::update` (src/Stream/HeaderStream.php:50-55) guards on
  `$this->stream !== null`. The class declares no `stream` property, so reading
  it goes through the stream decorator's lazy getter, which builds the stream
  when it is missing, and the guard always passes. So `update` always rebuilds
  the header text eagerly; it does not merely drop a cache
  (`PartTree.HeaderStream.Update`).
- `getPartHeadersIterator` asks two different questions
  (src/Stream/HeaderStream.php:67-69): whether the part is an instance of
  `IMimePart`, and whether its parent's `isMime()` answers true. The model keeps
  them apart as `MessagePart.isMimePart` and `MessagePart.isMime`.

## Model

| member | source | states |
|---|---|---|
| Ascii.Lower | src/Message/PartFilter.php:34 | `strtolower` keeps the length and folds each character independently, and only A-Z change |
| Ascii.StrCaseCmp | src/Message/PartFilter.php:35 | the sign of `strcasecmp` is -1, 0 or 1 |
| Ascii.StrCaseCmpZero | src/Message/PartFilter.php:35 | `strcasecmp` is 0 exactly when both strings are equal after lower-casing |
| Ascii.StrCaseCmpAntisymmetric | src/Message/PartFilter.php:77 | swapping the operands negates the comparison |
| Ascii.LowerForgetsCase | src/Message/PartFilter.php:34 | lower-casing is idempotent and undoes any upper-casing |
| Ascii.EqualsIgnoreCaseUnderCaseChange | src/Message/PartFilter.php:77 | case-insensitive equality is symmetric and unchanged by changing the case of either side |
| PartFilter.HeaderValue | src/Message/PartFilter.php:61 | the value looked up is that of the first header whose name matches case-insensitively (no earlier header matches), and it is absent exactly when no header name matches |
| PartFilter.FromAttachmentFilter | src/Message/PartFilter.php:31-40 | (definition) the closure `fromAttachmentFilter` returns, as a predicate on a part; its meaning is stated by `AttachmentFilterAccepts` |
| PartFilter.FromHeaderValue | src/Message/PartFilter.php:54-65 | (definition) the closure `fromHeaderValue` returns, with `excludeSignedParts` defaulting to true; its meaning is stated by `HeaderValueFilterAccepts` and `HeaderValueFilterDefault` |
| PartFilter.FromContentType | src/Message/PartFilter.php:74-79 | (definition) the closure `fromContentType` returns; its meaning is stated by `ContentTypeFilterAccepts` |
| PartFilter.FromInlineContentType | src/Message/PartFilter.php:88-94 | (definition) the closure `fromInlineContentType` returns; its meaning is stated by `InlineContentTypeFilterAccepts` |
| PartFilter.FromDisposition | src/Message/PartFilter.php:106-114 | (definition) the closure `fromDisposition` returns, with `includeMultipart` and `includeSignedParts` defaulting to false; its meaning is stated by `DispositionFilterAccepts` and `DispositionFilterDefault` |
| PartFilter.AttachmentFilterAccepts | src/Message/PartFilter.php:31-40 | the attachment filter rejects exactly text/plain or text/html parts (any case) with an `inline` disposition (any case), and MIME parts that are multipart or signature parts |
| PartFilter.AttachmentFilterKeepsTextWithoutDisposition | src/Message/PartFilter.php:34-38 | a non-MIME text/plain part with no disposition is kept as an attachment |
| PartFilter.HeaderValueFilterAccepts | src/Message/PartFilter.php:54-65 | the header-value filter keeps a part iff it is MIME, it is not a signature part excluded by `excludeSignedParts`, and the header value (empty when missing) equals `value` up to case |
| PartFilter.HeaderValueFilterDefault | src/Message/PartFilter.php:46-65 | called with its default, the header-value filter keeps exactly the MIME parts that are not signature parts and whose header value matches up to case, so signed parts are excluded by default |
| PartFilter.ContentTypeFilterAccepts | src/Message/PartFilter.php:74-79 | the content-type filter keeps a part iff the types are equal up to case, so changing the case of either side never changes the answer |
| PartFilter.InlineContentTypeFilterAccepts | src/Message/PartFilter.php:88-94 | keeps a part iff its type matches up to case and its disposition is not `attachment` up to case |
| PartFilter.DispositionFilterAccepts | src/Message/PartFilter.php:106-114 | rejects MIME multipart parts unless `includeMultipart` and MIME signature parts unless `includeSignedParts`, and otherwise keeps a part iff the disposition matches up to case |
| PartFilter.DispositionFilterDefault | src/Message/PartFilter.php:106-114 | called with its defaults, the disposition filter keeps no multipart and no signature MIME part, and otherwise keeps a part iff the disposition matches up to case |
| HeaderBlock.Line | src/Stream/HeaderStream.php:87 | (definition) one header written as `Name: value` and CR LF |
| HeaderBlock.Lines | src/Stream/HeaderStream.php:86-88 | (definition) the lines of a header list, in order; `LinesAppend` and `ParseSerialize` state its properties |
| HeaderBlock.Serialize | src/Stream/HeaderStream.php:84-90 | (definition) the header section: the lines, then the empty line; `SerializeShape` and `ParseSerialize` state its properties |
| HeaderBlock.LinesEndWithCRLF | src/Stream/HeaderStream.php:86-88 | the lines of a non-empty header list end with CR LF |
| HeaderBlock.LinesAppend | src/Stream/HeaderStream.php:84-90 | the lines of a concatenated header list are the concatenation of the lines, in order |
| HeaderBlock.SerializeShape | src/Stream/HeaderStream.php:84-90 | the header section ends with CR LF, and it is that empty line alone iff there are no headers; with headers it ends with CR LF CR LF, the last header line followed by the empty line |
| HeaderBlock.ParseSerialize | src/Stream/HeaderStream.php:84-90 | reading back the written header section gives the same headers, in order, when no name holds a colon and nothing holds a CR |
| PartTree.PartHeaders | src/Stream/HeaderStream.php:65-77 | (definition) the headers a part's header stream writes, chosen by whether the part is an `IMimePart` and whether its parent's `isMime()` is true; the three lemmas below state each case |
| PartTree.MimePartHeaderText | src/Stream/HeaderStream.php:65-68 | a part that is an `IMimePart` writes its raw header list, whatever it holds; when no header name holds a colon and no name or value holds a CR (`Readable`), the section reads back as exactly that list |
| PartTree.ContentHeaderText | src/Stream/HeaderStream.php:69-74 | the three content headers are written as exactly the Content-Type, Content-Disposition and Content-Transfer-Encoding lines with the given values, then the empty line |
| PartTree.NonMimePartHeaderText | src/Stream/HeaderStream.php:65-74 | a part that is not an `IMimePart`, whose parent exists and answers true to `isMime()`, writes exactly Content-Type, Content-Disposition and Content-Transfer-Encoding lines with its own values, then the empty line |
| PartTree.OrphanPartHeaderText | src/Stream/HeaderStream.php:65-77 | a part that is not an `IMimePart` and has no parent, or whose parent answers false to `isMime()`, writes the empty line alone |
| PartTree.PutByte | src/Stream/HeaderStream.php:87-89 | writing one byte puts it at the position, keeps every other byte, and past the end fills the gap with NUL bytes |
| PartTree.WriteAt | src/Stream/HeaderStream.php:87-89 | (definition) a stream write, byte by byte from the position; the three lemmas below state its properties |
| PartTree.WriteAtSpan | src/Stream/HeaderStream.php:87-89 | a write puts the written bytes at the position, keeps every byte outside that span, and makes the stream just long enough |
| PartTree.WriteAtEnd | src/Stream/HeaderStream.php:97-100 | a write at the end of the stream appends |
| PartTree.WriteAtTwice | src/Stream/HeaderStream.php:86-89 | two writes one after the other equal one write of both strings |
| PartTree.MemoryStream.constructor | src/Stream/HeaderStream.php:97-98 | `stream_for()` with no argument makes an empty stream at position 0 |
| PartTree.MemoryStream.Write | src/Stream/HeaderStream.php:87-89 | a write puts the string at the position, overwriting or extending the bytes, and moves the position past it |
| PartTree.MemoryStream.Rewind | src/Stream/HeaderStream.php:101 | rewinding keeps the bytes and moves the position to 0 |
| PartTree.MemoryStream.GetContents | src/Stream/HeaderStream.php:92-103 | reading returns the bytes from the position to the end and moves to the end |
| PartTree.HeaderStream.constructor | src/Stream/HeaderStream.php:37-41 | a new header stream is appended to its part's observers and holds no text yet |
| PartTree.HeaderStream.Dispose | src/Stream/HeaderStream.php:43-48 | destruction removes the stream from its part's observers and keeps every other observer, in order |
| PartTree.Without | src/Stream/HeaderStream.php:46 | removal leaves no occurrence of the element and never lengthens the list |
| PartTree.WithoutCounts | src/Stream/HeaderStream.php:46 | removal keeps the count of every other element |
| PartTree.WithoutAbsent | src/Stream/HeaderStream.php:46 | removing an element that is not attached changes nothing |
| PartTree.WithoutAppend | src/Stream/HeaderStream.php:46 | removal works piece by piece over a concatenation, so the remaining elements keep their order |
| PartTree.HeaderStream.Update | src/Stream/HeaderStream.php:50-55 | after `update` the stream is a fresh one holding the part's current header section, rewound |
| PartTree.HeaderStream.WritePartHeadersTo | src/Stream/HeaderStream.php:84-90 | the header section of the part's current headers is written into the output at its position, and the position moves past it |
| PartTree.HeaderStream.CreateStream | src/Stream/HeaderStream.php:97-103 | a fresh stream holding the header section, at position 0 |
| PartTree.HeaderStream.GetContents | src/Stream/HeaderStream.php:92-103 | the first read builds the stream and returns the whole header section; later reads continue from the position |
| PartTree.HeaderStreamReadTest | src/Stream/HeaderStream.php:50-74 | a header stream over a non-MIME child of a MIME part reads that part's three generated headers, for any content type and encoding |
| PartTree.HeaderStreamUnderNonMimeMessageTest | src/Stream/HeaderStream.php:65-77 | under a parent that is an `IMimePart` but answers false to `isMime()`, the parent writes its raw headers and a non-MIME child writes the empty line alone |
| PartTree.HeaderStreamRefreshTest | src/Stream/HeaderStream.php:50-74 | after the part's content type changes and the part notifies, its header stream reads the new value |
| PartTree.DistinctCount | tests/MailMimeParser/Message/MessagePartTest.php:218-224 | in an observer list without repeats each observer occurs exactly once |
| PartTree.WithoutDistinct | tests/MailMimeParser/Message/MessagePartTest.php:223 | detaching keeps the observer list free of repeats |
| PartTree.MessagePart.constructor | tests/MailMimeParser/Message/MessagePartTest.php:60-63 | a new part has the given container and parent, no charset override, and no observers |
| PartTree.MessagePart.Attach | tests/MailMimeParser/Message/MessagePartTest.php:221 | attaching appends an observer that is not yet attached, does nothing otherwise, and keeps the list free of repeats |
| PartTree.MessagePart.Detach | tests/MailMimeParser/Message/MessagePartTest.php:223 | detaching removes the observer, keeps the others in order, and keeps the list free of repeats |
| PartTree.UpdateEach | tests/MailMimeParser/Message/MessagePartTest.php:215-225 | each observer gets one update per entry in the snapshot, and each one in it holds its current header text |
| PartTree.MessagePart.Notified | tests/MailMimeParser/Message/MessagePartTest.php:304-314 | (specification) the update calls one `notify` makes, in order: the part's observers in attachment order, then its parent's |
| PartTree.MessagePart.Notify | tests/MailMimeParser/Message/MessagePartTest.php:304-314 | every observer gets one update per attachment along the part and its ancestors and none otherwise; every header stream reached holds its part's current header text |
| PartTree.MessagePart.DeliveredIffWatching | tests/MailMimeParser/Message/MessagePartTest.php:304-314 | `notify` delivers at least one update to an observer iff the observer is in the observer list of the part or of one of its ancestors |
| PartTree.MessagePart.NotifiedOnce | tests/MailMimeParser/Message/MessagePartTest.php:218-224 | on a part without a parent, `notify` gives each attached observer exactly one update and others none |
| PartTree.PartStreamContainer.constructor | tests/MailMimeParser/Message/MessagePartTest.php:32-64 | the container holds the whole stream and the content stream, and a content stream is bound to the filter manager |
| PartTree.PartStreamContainer.HasContent | tests/MailMimeParser/Message/MessagePartTest.php:71 | (definition) the container has content exactly when it holds a content stream |
| PartTree.PartStreamContainer.SetContentStream | tests/MailMimeParser/Message/MessagePartTest.php:202-205 | the content becomes the given stream, or none; a new stream rebinds the filter manager and forgets its stages |
| PartTree.PartStreamContainer.GetContentStream | tests/MailMimeParser/Message/MessagePartTest.php:90-96 | each call is recorded, returns null without content, and otherwise returns what the filter manager's content reply gives |
| PartTree.PartStreamContainer.GetBinaryContentStream | tests/MailMimeParser/Message/MessagePartTest.php:116-119 | each call is recorded as a binary request and otherwise returns the filter manager's binary reply |
| PartTree.MessagePart.GetContentStream | tests/MailMimeParser/Message/MessagePartTest.php:81-101 | null without content, with no request made and the filter manager untouched; otherwise exactly one request for (transfer encoding, override or charset, target), with no transfer encoding after `setContent` |
| PartTree.MessagePart.GetBinaryContentStream | tests/MailMimeParser/Message/MessagePartTest.php:103-123 | null without content, with no request made and the filter manager untouched; otherwise exactly one binary request on every call, never a content request |
| PartTree.MessagePart.HasContent | tests/MailMimeParser/Message/MessagePartTest.php:71-72 | (definition) a part has content exactly when its container does; `PartStreamHandleTest` and `DetachContentStreamTest` state its use |
| PartTree.MessagePart.ContentEncoding | tests/MailMimeParser/Message/MessagePartTest.php:84-85 | (definition) the transfer encoding content is decoded from; the empty encoding after `setContent`; `GetContentStream` and `SetContentTest` state its use |
| PartTree.MessagePart.SourceCharset | tests/MailMimeParser/Message/MessagePartTest.php:86-99 | (definition) the charset content is converted from, the override when one is set; `ContentStreamAndCharsetOverrideTest` states its use |
| PartTree.MessagePart.GetStream | tests/MailMimeParser/Message/MessagePartTest.php:78 | (definition) the whole part stream the container holds; `Save`, `ToString` and `SaveAndToStringTest` state its use |
| PartTree.MessagePart.SetCharsetOverride | tests/MailMimeParser/Message/MessagePartTest.php:99 | the override becomes the given charset |
| PartTree.MessagePart.Save | tests/MailMimeParser/Message/MessagePartTest.php:247-253 | `save` writes the part's whole stream |
| PartTree.MessagePart.ToString | tests/MailMimeParser/Message/MessagePartTest.php:254 | `__toString` gives the part's whole stream |
| PartTree.MessagePart.DetachContentStream | tests/MailMimeParser/Message/MessagePartTest.php:196-213 | the container has no content stream afterwards, the filter manager is untouched, and observers are notified once |
| PartTree.MessagePart.SetContent | tests/MailMimeParser/Message/MessagePartTest.php:269-302 | the content becomes the new stream, read without transfer decoding and from the given charset; observers are notified once |
| PartTree.NewPart | tests/MailMimeParser/Message/MessagePartTest.php:32-64 | a fresh part over a whole stream and optional content, with a fresh container and filter manager |
| PartTree.PartStreamHandleTest | tests/MailMimeParser/Message/MessagePartTest.php:66-79 | a part without content has no content and no content stream, its parent is null, and its stream is the one it was made over |
| PartTree.ContentStreamAndCharsetOverrideTest | tests/MailMimeParser/Message/MessagePartTest.php:81-101 | the two requests carry the part's charset and then the override, and the override yields a different converted stream |
| PartTree.BinaryContentStreamTest | tests/MailMimeParser/Message/MessagePartTest.php:103-123 | two binary reads make two binary requests and no content request |
| PartTree.DetachContentStreamTest | tests/MailMimeParser/Message/MessagePartTest.php:196-213 | after `detachContentStream` there is no content and the observer was updated once |
| PartTree.NotifyTest | tests/MailMimeParser/Message/MessagePartTest.php:215-225 | one update after `notify`, and none more after `detach` and another `notify` |
| PartTree.SaveAndToStringTest | tests/MailMimeParser/Message/MessagePartTest.php:240-255 | `save` and `__toString` give the whole part stream, never the content stream |
| PartTree.SetContentTest | tests/MailMimeParser/Message/MessagePartTest.php:269-302 | the whole stream is unchanged, the content is the new stream, the observer is updated once, and the next request is ('', 'charset', 'a-charset') |
| PartTree.ParentNotifyTest | tests/MailMimeParser/Message/MessagePartTest.php:304-314 | a child's `notify` updates the parent's observer once, as well as its own |
| FilterManager.Decoder | tests/MailMimeParser/Message/Part/PartStreamFilterManagerTest.php:29-68 | (definition) the decoder built for an encoding; `DecoderIffDecodable` states when there is one |
| FilterManager.WithStream | tests/MailMimeParser/Message/Part/PartStreamFilterManagerTest.php:38 | (definition) `setStream` on the manager's state; `PartStreamFilterManager.SetStream` is proved against it |
| FilterManager.Rebuild | tests/MailMimeParser/Message/Part/PartStreamFilterManagerTest.php:83-109 | (definition) a rebuilt decode stage; `RebuildConsistent` states its properties |
| FilterManager.BinaryReply | tests/MailMimeParser/Message/Part/PartStreamFilterManagerTest.php:153-179 | (definition) `getBinaryStream` on the manager's state; `BinaryReplyServes` and `BinaryStreamReattach` state its properties |
| FilterManager.ContentReply | tests/MailMimeParser/Message/Part/PartStreamFilterManagerTest.php:29-151 | (definition) `getContentStream` on the manager's state; `ContentReplyServes`, `StepCost` and the scenario lemmas state its properties |
| FilterManager.RebuildConsistent | tests/MailMimeParser/Message/Part/PartStreamFilterManagerTest.php:29-68 | rebuilding sets a decode stage for the new encoding over the raw stream, drops the charset stage, and only appends to the factory log |
| FilterManager.StagePersists | tests/MailMimeParser/Message/Part/PartStreamFilterManagerTest.php:100-103 | a stage stays the pipeline for its key however many later builds are logged |
| FilterManager.BinaryReplyServes | tests/MailMimeParser/Message/Part/PartStreamFilterManagerTest.php:153-179 | a binary request returns the raw stream decoded from the encoding, or null without a stream, and keeps every stage consistent |
| FilterManager.ContentReplyServes | tests/MailMimeParser/Message/Part/PartStreamFilterManagerTest.php:29-151 | a content request returns the decoder, then the charset stage when both charsets are given, over the raw stream (null without one), and keeps every stage consistent |
| FilterManager.RepeatedRequestReuses | tests/MailMimeParser/Message/Part/PartStreamFilterManagerTest.php:100-103 | repeating the last request builds nothing and returns the very same stream |
| FilterManager.Run | tests/MailMimeParser/Message/Part/PartStreamFilterManagerTest.php:100-108 | a run of requests returns one stream per request |
| FilterManager.DecoderIffDecodable | tests/MailMimeParser/Message/Part/PartStreamFilterManagerTest.php:29-68 | a decoder is built exactly for quoted-printable, base64 and x-uuencode |
| FilterManager.StepCost | tests/MailMimeParser/Message/Part/PartStreamFilterManagerTest.php:83-151 | one request calls the factory exactly as often as the key comparison says, and moves the keys on |
| FilterManager.RunBuilds | tests/MailMimeParser/Message/Part/PartStreamFilterManagerTest.php:83-179 | over any sequence of requests the factory calls are exactly those counted from the last-key rule |
| FilterManager.NoStreamNoContent | tests/MailMimeParser/Message/Part/PartStreamFilterManagerTest.php:36 | before `setStream` a content request returns null and builds nothing |
| FilterManager.SingleDecoderBuilt | tests/MailMimeParser/Message/Part/PartStreamFilterManagerTest.php:29-68 | each known encoding builds one decoder of its kind over the raw stream and returns it wrapped in a cache |
| FilterManager.SingleCharsetStageBuilt | tests/MailMimeParser/Message/Part/PartStreamFilterManagerTest.php:70-81 | with no encoding, a charset pair builds one charset stage over the raw stream |
| FilterManager.DecoderBuiltThenReused | tests/MailMimeParser/Message/Part/PartStreamFilterManagerTest.php:83-109 | a request without charsets whose decoder is stale builds its decoder next and returns it wrapped; the same request again reuses it |
| FilterManager.ConverterBuiltThenReused | tests/MailMimeParser/Message/Part/PartStreamFilterManagerTest.php:111-132 | a charset request over a pass-through encoding whose charset stage is stale builds one charset stage over the raw stream; the same request again reuses it |
| FilterManager.RunFollows | tests/MailMimeParser/Message/Part/PartStreamFilterManagerTest.php:100-108 | a run is the chain of its steps: it ends in the last step's state and returns each step's stream in order |
| FilterManager.ReattachTransferEncoding | tests/MailMimeParser/Message/Part/PartStreamFilterManagerTest.php:83-109 | for any two distinct known encodings, the first three times, the second twice, the first once builds first, second, first and returns streams 0,0,0,1,1,2 (the test uses UU and QP) |
| FilterManager.ReattachCharsetConversion | tests/MailMimeParser/Message/Part/PartStreamFilterManagerTest.php:111-132 | for any four charset requests each differing from the one before, the pattern a, a, b, c, c, d builds exactly four charset stages over the raw stream, with the pairs in request order |
| FilterManager.CombinedStagesBuiltOnce | tests/MailMimeParser/Message/Part/PartStreamFilterManagerTest.php:134-151 | three identical combined requests build one decoder and one charset stage over it |
| FilterManager.BinaryStreamReattach | tests/MailMimeParser/Message/Part/PartStreamFilterManagerTest.php:153-179 | `getBinaryStream` follows the same reuse and rebuild rule: the same pattern of two distinct known encodings builds first, second, first |
| FilterManager.StreamFactory.constructor | tests/MailMimeParser/Message/Part/PartStreamFilterManagerTest.php:23-24 | a new factory has built nothing |
| FilterManager.StreamFactory.NewQuotedPrintableStream | tests/MailMimeParser/Message/Part/PartStreamFilterManagerTest.php:32-35 | logs one quoted-printable decoder over the source and returns that call's stream |
| FilterManager.StreamFactory.NewBase64Stream | tests/MailMimeParser/Message/Part/PartStreamFilterManagerTest.php:47-50 | logs one base64 decoder over the source and returns that call's stream |
| FilterManager.StreamFactory.NewUUStream | tests/MailMimeParser/Message/Part/PartStreamFilterManagerTest.php:60-63 | logs one UU decoder over the source and returns that call's stream |
| FilterManager.StreamFactory.NewCharsetStream | tests/MailMimeParser/Message/Part/PartStreamFilterManagerTest.php:73-76 | logs one charset converter over the source with the pair and returns that call's stream |
| FilterManager.PartStreamFilterManager.constructor | tests/MailMimeParser/Message/Part/PartStreamFilterManagerTest.php:25 | a new manager has no stream and no stages |
| FilterManager.PartStreamFilterManager.SetStream | tests/MailMimeParser/Message/Part/PartStreamFilterManagerTest.php:38 | binds the raw stream and forgets both stages |
| FilterManager.PartStreamFilterManager.AttachTransferEncodingFilter | tests/MailMimeParser/Message/Part/PartStreamFilterManagerTest.php:83-109 | replaces the decode stage by one for the new encoding and drops the charset stage |
| FilterManager.PartStreamFilterManager.GetBinaryStream | tests/MailMimeParser/Message/Part/PartStreamFilterManagerTest.php:153-179 | its result and new state are the binary reply |
| FilterManager.PartStreamFilterManager.GetContentStream | tests/MailMimeParser/Message/Part/PartStreamFilterManagerTest.php:29-151 | its result and new state are the content reply |
| FilterManager.AttachQuotedPrintableDecoderTest | tests/MailMimeParser/Message/Part/PartStreamFilterManagerTest.php:29-42 | null before a stream is set; afterwards one quoted-printable decoder is built and returned wrapped |
| AddressBaseConsumer.SubConsumers | src/Header/Consumer/AddressBaseConsumer.php:24-29 | the sub-consumers are exactly the address consumer, once |
| AddressBaseConsumer.TokenSeparators | src/Header/Consumer/AddressBaseConsumer.php:36-39 | there are no token separators |
| AddressBaseConsumer.IsEndToken | src/Header/Consumer/AddressBaseConsumer.php:65-68 | no token is an end token |
| AddressBaseConsumer.IsStartToken | src/Header/Consumer/AddressBaseConsumer.php:77-80 | no token is a start token |
| AddressBaseConsumer.PartForToken | src/Header/Consumer/AddressBaseConsumer.php:92-95 | the part made for a token reads back as the token |
| AddressBaseConsumer.PartForTokenIgnoresLiteral | src/Header/Consumer/AddressBaseConsumer.php:92-95 | the literal flag does not change the part made |
| AddressBaseConsumer.Advanced | src/Header/Consumer/AddressBaseConsumer.php:50-56 | on a start token the position stays; otherwise it is the base consumer's advance |
| AddressBaseConsumer.TokenIterator.constructor | src/Header/Consumer/AddressBaseConsumer.php:50 | a new token iterator holds the given tokens and starts at the first |
| AddressBaseConsumer.AdvanceToNextToken | src/Header/Consumer/AddressBaseConsumer.php:50-56 | moves the shared iterator as `Advanced` says, and on a start token the iterator stays on the same token |
| AddressBaseConsumer.Token.ToString | tests/MailMimeParser/Header/Part/TokenTest.php:14-20 | a token's text is its value |
| AddressBaseConsumer.TokenInstanceTest | tests/MailMimeParser/Header/Part/TokenTest.php:14-20 | a token made from `testing` has value and text `testing` |

## Left out

- The codecs (quoted-printable, base64, UU and charset transcoding) and Guzzle's caching stream are not modelled. They are foreign code: a stream is a handle that records how it was made, not its bytes.
- Reading content as a string (`getContent`), `saveContent` and `save` to a file or resource are not modelled: these are file and resource I/O. `save` and `__toString` are modelled by the stream they write.
- The source of `PartStreamFilterManager` and `PartStreamContainer` is not available to this model. Their behaviour is rebuilt from the expectations of their tests (tests/MailMimeParser/Message/Part/PartStreamFilterManagerTest.php:29-179 and tests/MailMimeParser/Message/MessagePartTest.php:81-123), as follows. A stage is kept until the key changes. A change of encoding also drops the charset stage. Any encoding other than the three known ones passes the bytes through. A missing charset selects the binary path.
- FilterManager.Decoder: encoding names are compared exactly as given; any case folding the manager's own source may apply is not modelled.
- FilterManager.PartStreamFilterManager.AttachTransferEncodingFilter: requires a bound stream; the callers in the model only call it then.
- Ascii.StrCaseCmp: returns only the sign of PHP's `strcasecmp` (PHP returns a byte difference or a length difference), because every caller only tests it against 0.
- PartTree.MessagePart.Notify: the only observer class is `HeaderStream`. An arbitrary `SplObserver` cannot be modelled without traits, so the update count the tests' mock observers check is a counter on `HeaderStream`.
- PartTree.PartStreamContainer.GetContentStream: the container records each request as the tests' test double does; the real container's own logic is not shown.
- AddressBaseConsumer.AdvanceToNextToken: the base consumer's advance step belongs to `AbstractConsumer`, which is not part of this model, so it is a parameter.
- `AbstractConsumer`'s parse loop, encoded-word decoding and date parsing are not part of this model.
- `MessagePartDecoratorTrait` forwards every call to the wrapped part through reflection. It is not modelled. Its one rule is that a call that returns the wrapped part returns the decorator in its place (src/Message/MessagePartDecoratorTrait.php:26).
- `Header.php` holds only name constants. Note that `CONTENT_TYPE` is the empty string there (src/Header/Header.php:15).
- The dependency container `SimpleDi` and the part factories only wire objects together and register global stream filters; they are not modelled.
- The header-value lookup of a part is modelled as the first header whose name matches case-insensitively (`PartFilter.HeaderValue`); the part's own lookup code is not available to this model. Parsing of header values is not part of this model.
- PartTree.MessagePart: whether a part is an `IMimePart` and what its `isMime()` answers are fixed when the part is made, because header editing, which can change `isMime()`, is not modelled.
- `setCharsetOverride`'s flag that applies the override only when the part has no charset is not modelled: the tests only use the unconditional form.
- PartTree.MessagePart.GetContentStream: a charset the part does not declare is modelled as absent (`None`), which is how PHP's null arrives at the container.
