/**
 * A message part, the container of its streams, and the header stream
 * that observes it. A part keeps an ordered set of observers; `notify`
 * calls `update` on each and then forwards to the part's parent. The
 * header stream registers itself with its part when it is made, and on
 * `update` always rebuilds the header text it holds.
 */
module PartTree {
  import opened Wrappers
  import opened HeaderBlock
  import opened FilterManager

  /** `s` with every occurrence of `x` removed, the others kept in order. */
  function Without<T(==)>(s: seq<T>, x: T): (r: seq<T>)
    ensures x !in r
    ensures |r| <= |s|
  {
    if s == [] then []
    else
      var rest := Without(s[1..], x);
      assert s == [s[0]] + s[1..];
      if s[0] == x then rest else [s[0]] + rest
  }

  /** Removal keeps the count of every other element. */
  lemma {:induction false} WithoutCounts<T>(s: seq<T>, x: T)
    ensures multiset(Without(s, x)) == multiset(s)[x := 0]
    decreases |s|
  {
    if s != [] {
      assert s == [s[0]] + s[1..];
      WithoutCounts(s[1..], x);
    }
  }

  /** Removing an element that does not occur changes nothing. */
  lemma {:induction false} WithoutAbsent<T>(s: seq<T>, x: T)
    requires x !in s
    ensures Without(s, x) == s
    decreases |s|
  {
    if s != [] {
      assert s == [s[0]] + s[1..];
      WithoutAbsent(s[1..], x);
    }
  }

  lemma WithoutCons<T>(h: T, t: seq<T>, x: T)
    ensures Without([h] + t, x) == (if h == x then [] else [h]) + Without(t, x)
  {
    assert ([h] + t)[0] == h && ([h] + t)[1..] == t;
  }

  /** Removal works piece by piece, so what is left keeps its order. */
  lemma {:induction false} WithoutAppend<T>(a: seq<T>, b: seq<T>, x: T)
    ensures Without(a + b, x) == Without(a, x) + Without(b, x)
    decreases |a|
  {
    if a == [] {
      assert a + b == b;
    } else {
      var h, t := a[0], a[1..];
      assert a == [h] + t;
      assert a + b == [h] + (t + b);
      WithoutCons(h, t + b, x);
      WithoutCons(h, t, x);
      WithoutAppend(t, b, x);
      if h != x {
        assert [h] + (Without(t, x) + Without(b, x)) == ([h] + Without(t, x)) + Without(b, x);
      }
    }
  }

  /** No element occurs twice: the shape of an object storage, where attaching twice is attaching once. */
  predicate Distinct<T(==)>(s: seq<T>) {
    forall i, j :: 0 <= i < j < |s| ==> s[i] != s[j]
  }

  /** In a sequence without repeats every element occurs once. */
  lemma {:induction false} DistinctCount<T>(s: seq<T>, x: T)
    requires Distinct(s)
    ensures multiset(s)[x] == if x in s then 1 else 0
  {
    if s != [] {
      assert s == [s[0]] + s[1..];
      assert Distinct(s[1..]);
      DistinctCount(s[1..], x);
    }
  }

  /** Removing an element keeps a sequence free of repeats. */
  lemma {:induction false} WithoutDistinct<T>(s: seq<T>, x: T)
    requires Distinct(s)
    ensures Distinct(Without(s, x))
  {
    if s != [] {
      assert s == [s[0]] + s[1..];
      assert Distinct(s[1..]);
      WithoutDistinct(s[1..], x);
      var rest := Without(s[1..], x);
      if s[0] != x {
        assert s[0] !in s[1..];
        WithoutCounts(s[1..], x);
        assert multiset(rest)[s[0]] == multiset(s[1..])[s[0]] == 0;
        assert Without(s, x) == [s[0]] + rest;
        forall i, j | 0 <= i < j < |[s[0]] + rest|
          ensures ([s[0]] + rest)[i] != ([s[0]] + rest)[j]
        {
          if i == 0 {
            assert ([s[0]] + rest)[j] == rest[j - 1];
            assert rest[j - 1] in multiset(rest);
          }
        }
      }
    }
  }

  /** The bytes left to read from `data` at `position`. */
  function Remaining(data: string, position: nat): string {
    if position <= |data| then data[position..] else []
  }

  /**
   * The bytes of a stream after writing the byte `c` at `position`: it
   * replaces the byte there, or, at or past the end, extends the stream,
   * with NUL bytes filling any gap.
   */
  function PutByte(data: string, position: nat, c: char): (r: string)
    ensures |r| == if position < |data| then |data| else position + 1
    ensures r[position] == c
    ensures forall i :: 0 <= i < |data| && i != position ==> r[i] == data[i]
    ensures forall i :: |data| <= i < position ==> r[i] == '\0'
  {
    if position < |data| then data[position := c]
    else data + seq(position - |data|, _ => '\0') + [c]
  }

  /** The bytes of a stream after writing `s` at `position`, one byte after the other. */
  function WriteAt(data: string, position: nat, s: string): string
    decreases |s|
  {
    if s == [] then data else WriteAt(PutByte(data, position, s[0]), position + 1, s[1..])
  }

  /**
   * A write puts `s` at the position, keeps every other existing byte, and
   * makes the stream just long enough to hold both.
   */
  lemma {:induction false} WriteAtSpan(data: string, position: nat, s: string)
    ensures var r := WriteAt(data, position, s);
      |r| == (if s == [] || position + |s| <= |data| then |data| else position + |s|)
      && (forall i :: 0 <= i < |s| ==> r[position + i] == s[i])
      && (forall i :: 0 <= i < |data| && !(position <= i < position + |s|) ==> r[i] == data[i])
    decreases |s|
  {
    if s != [] {
      var d1 := PutByte(data, position, s[0]);
      WriteAtSpan(d1, position + 1, s[1..]);
      var r := WriteAt(data, position, s);
      assert r == WriteAt(d1, position + 1, s[1..]);
      forall i | 0 <= i < |s|
        ensures r[position + i] == s[i]
      {
        if i > 0 {
          assert r[position + 1 + (i - 1)] == s[1..][i - 1];
        }
      }
    }
  }

  /** Writing at the end appends. */
  lemma {:induction false} WriteAtEnd(data: string, s: string)
    ensures WriteAt(data, |data|, s) == data + s
    decreases |s|
  {
    if s != [] {
      assert PutByte(data, |data|, s[0]) == data + [s[0]];
      WriteAtEnd(data + [s[0]], s[1..]);
      assert data + [s[0]] + s[1..] == data + s;
    }
  }

  /** Two writes one after the other are one write of both. */
  lemma {:induction false} WriteAtTwice(data: string, position: nat, a: string, b: string)
    ensures WriteAt(WriteAt(data, position, a), position + |a|, b) == WriteAt(data, position, a + b)
    decreases |a|
  {
    if a == [] {
      assert a + b == b;
    } else {
      WriteAtTwice(PutByte(data, position, a[0]), position + 1, a[1..], b);
      assert (a + b)[0] == a[0] && (a + b)[1..] == a[1..] + b;
    }
  }

  /** An in-memory stream (PSR-7's `stream_for()`): its bytes and its read position. */
  class MemoryStream {
    var data: string
    var position: nat

    constructor ()
      ensures data == [] && position == 0
    {
      data, position := [], 0;
    }

    /** Writes at the position, overwriting what is there, and moves past what was written. */
    method Write(s: string)
      modifies this
      ensures data == WriteAt(old(data), old(position), s) && position == old(position) + |s|
    {
      data := WriteAt(data, position, s);
      position := position + |s|;
    }

    method Rewind()
      modifies this
      ensures data == old(data) && position == 0
    {
      position := 0;
    }

    /** Reads everything from the position to the end. */
    method GetContents() returns (s: string)
      modifies this
      ensures s == Remaining(old(data), old(position))
      ensures data == old(data) && position == |data|
    {
      s := Remaining(data, position);
      position := |data|;
    }
  }

  /**
   * `getPartHeadersIterator()`: a MIME part's own raw headers; for a
   * non-MIME part whose parent is MIME, its three content headers; for
   * any other part, none.
   */
  function PartHeaders(p: MessagePart): seq<Header>
    reads p
  {
    if p.isMimePart then p.headers
    else if p.parent != null && p.parent.isMime then
      ContentHeaders(p.contentType, p.contentDisposition, p.contentTransferEncoding)
    else []
  }

  /**
   * A MIME part writes its raw header list, whatever it holds; when every
   * header is readable, the section reads back as exactly that list.
   */
  lemma MimePartHeaderText(p: MessagePart)
    requires p.isMimePart
    ensures PartHeaders(p) == p.headers
    ensures (forall i :: 0 <= i < |p.headers| ==> Readable(p.headers[i])) ==> Parse(Serialize(PartHeaders(p))) == Some(p.headers)
  {
    if forall i :: 0 <= i < |p.headers| ==> Readable(p.headers[i]) {
      ParseSerialize(p.headers);
    }
  }

  /** The header section generated for a non-MIME part: its three content headers and the empty line. */
  function ContentHeaderSection(contentType: string, contentDisposition: string, contentTransferEncoding: string): string {
    "Content-Type: " + contentType + "\r\n"
    + "Content-Disposition: " + contentDisposition + "\r\n"
    + "Content-Transfer-Encoding: " + contentTransferEncoding + "\r\n"
    + "\r\n"
  }

  /** The three content headers a non-MIME part reports, in this order. */
  function ContentHeaders(contentType: string, contentDisposition: string, contentTransferEncoding: string): seq<Header> {
    [Header("Content-Type", contentType),
     Header("Content-Disposition", contentDisposition),
     Header("Content-Transfer-Encoding", contentTransferEncoding)]
  }

  /** The three content headers are written as three lines, in order, and then the empty line. */
  lemma ContentHeaderText(contentType: string, contentDisposition: string, contentTransferEncoding: string)
    ensures Serialize(ContentHeaders(contentType, contentDisposition, contentTransferEncoding))
      == ContentHeaderSection(contentType, contentDisposition, contentTransferEncoding)
  {
    var hs := ContentHeaders(contentType, contentDisposition, contentTransferEncoding);
    var l0, l1, l2 := Line(hs[0]), Line(hs[1]), Line(hs[2]);
    assert Lines(hs) == l0 + (l1 + (l2 + [])) by {
      assert hs[1..][1..][1..] == [];
      assert Lines(hs[1..][1..]) == l2 + [];
      assert Lines(hs[1..]) == l1 + (l2 + []);
    }
    assert l0 == "Content-Type: " + contentType + "\r\n";
    assert l1 == "Content-Disposition: " + contentDisposition + "\r\n";
    assert l2 == "Content-Transfer-Encoding: " + contentTransferEncoding + "\r\n";
    assert l0 + (l1 + (l2 + [])) + CRLF == l0 + l1 + l2 + "\r\n";
  }

  /**
   * A non-MIME part under a MIME parent writes exactly three lines,
   * Content-Type, Content-Disposition and Content-Transfer-Encoding, with
   * the part's own values, and then the empty line.
   */
  lemma NonMimePartHeaderText(p: MessagePart)
    requires !p.isMimePart && p.parent != null && p.parent.isMime
    ensures Serialize(PartHeaders(p)) == ContentHeaderSection(p.contentType, p.contentDisposition, p.contentTransferEncoding)
  {
    ContentHeaderText(p.contentType, p.contentDisposition, p.contentTransferEncoding);
  }

  /** Any other part writes the empty line alone. */
  lemma OrphanPartHeaderText(p: MessagePart)
    requires !p.isMimePart && (p.parent == null || !p.parent.isMime)
    ensures Serialize(PartHeaders(p)) == "\r\n"
  {
  }

  /**
   * HeaderStream: a readable stream over a part's header section, built
   * lazily and rebuilt whenever the part notifies it.
   */
  class HeaderStream {
    const part: MessagePart
    var stream: MemoryStream?
    /** How many times `update` was called (what a test double would count). */
    var updates: nat

    /** The header section of the part as it is now. */
    function Text(): string
      reads part
    {
      Serialize(PartHeaders(part))
    }

    /** The held stream exists, holds the part's current header text, and is rewound. */
    predicate Current()
      reads this, stream, part
    {
      stream != null && stream.data == Text() && stream.position == 0
    }

    /** `__construct`: remembers the part and attaches itself to it. */
    constructor (part: MessagePart)
      modifies part`observers
      ensures this.part == part && stream == null && updates == 0
      ensures part.observers == old(part.observers) + [this]
    {
      this.part := part;
      stream := null;
      updates := 0;
      new;
      part.Attach(this);
    }

    /** `__destruct`: detaches itself from the part. */
    method Dispose()
      modifies part`observers
      ensures part.observers == Without(old(part.observers), this)
    {
      part.Detach(this);
    }

    /**
     * `update`: the header text is rebuilt from the part's current headers.
     * The guard reads the stream through the decorator's lazy getter, which
     * builds one when there is none yet, so the guard always passes and the
     * stream is always replaced.
     */
    method Update()
      modifies this
      ensures updates == old(updates) + 1
      ensures fresh(stream) && Current()
    {
      updates := updates + 1;
      if stream == null {
        stream := CreateStream();
      }
      if stream != null {
        stream := CreateStream();
      }
    }

    /**
     * `writePartHeadersTo`: one line per header, in order, then the empty
     * line, written at the stream's position.
     */
    method WritePartHeadersTo(out: MemoryStream)
      modifies out
      ensures out.data == WriteAt(old(out.data), old(out.position), Text())
      ensures out.position == old(out.position) + |Text()|
    {
      var headers := PartHeaders(part);
      ghost var start, at := out.data, out.position;
      assert Lines(headers[..0]) == [];
      for i := 0 to |headers|
        invariant out.data == WriteAt(start, at, Lines(headers[..i]))
        invariant out.position == at + |Lines(headers[..i])|
      {
        ghost var done := Lines(headers[..i]);
        LinesSnoc(headers, i);
        WriteAtTwice(start, at, done, Line(headers[i]));
        out.Write(Line(headers[i]));
      }
      assert headers[..|headers|] == headers;
      WriteAtTwice(start, at, Lines(headers), CRLF);
      out.Write(CRLF);
    }

    /** `createStream`: a fresh in-memory stream holding the header section, rewound. */
    method CreateStream() returns (s: MemoryStream)
      ensures fresh(s) && s.data == Text() && s.position == 0
    {
      s := new MemoryStream();
      WritePartHeadersTo(s);
      WriteAtEnd([], Text());
      s.Rewind();
    }

    /** Reading the stream: built on first use, then read from its position. */
    method GetContents() returns (text: string)
      modifies this, stream
      ensures old(stream) == null ==> text == Text()
      ensures old(stream) != null ==> stream == old(stream) && text == Remaining(old(stream.data), old(stream.position))
      ensures stream != null && stream.position == |stream.data|
      ensures updates == old(updates)
    {
      if stream == null {
        stream := CreateStream();
      }
      text := stream.GetContents();
    }
  }

  /**
   * The loop of `notify`: `update` on each observer of `snapshot`, in
   * order. Each header stream gets as many updates as it has entries in
   * `snapshot`, and each one in it now holds its current header text.
   */
  method UpdateEach(snapshot: seq<HeaderStream>)
    modifies set o | o in snapshot
    ensures forall o: HeaderStream :: old(allocated(o)) ==> o.updates == old(o.updates) + multiset(snapshot)[o]
    ensures forall o :: o in snapshot ==> o.Current() && fresh(o.stream)
  {
    for i := 0 to |snapshot|
      invariant forall o: HeaderStream :: old(allocated(o)) ==> o.updates == old(o.updates) + multiset(snapshot[..i])[o]
      invariant forall o :: o in snapshot[..i] ==> o.Current() && fresh(o.stream)
    {
      snapshot[i].Update();
      assert snapshot[..i + 1] == snapshot[..i] + [snapshot[i]];
    }
    assert snapshot[..|snapshot|] == snapshot;
  }

  /**
   * PartStreamContainer: the part's whole stream as stored, its content
   * stream, and the filter manager decoding that content. `requests`
   * records each content or binary request, as the tests' test double does.
   */
  class PartStreamContainer {
    const filters: PartStreamFilterManager
    var stream: Stream
    var contentStream: Option<Stream>
    var requests: seq<Request>

    ghost predicate Valid()
      reads this, filters
    {
      contentStream.Some? ==> filters.raw == contentStream
    }

    predicate HasContent()
      reads this
    {
      contentStream.Some?
    }

    constructor (filters: PartStreamFilterManager, stream: Stream, content: Option<Stream>)
      modifies filters
      ensures this.filters == filters && this.stream == stream && contentStream == content && requests == []
      ensures Valid()
      ensures filters.State() == if content.Some? then WithStream(old(filters.State()), content.value) else old(filters.State())
    {
      this.filters := filters;
      this.stream := stream;
      contentStream := content;
      requests := [];
      new;
      if content.Some? {
        filters.SetStream(content.value);
      }
    }

    /** `setContentStream`: replaces the content; a new content stream rebinds the filter manager. */
    method SetContentStream(content: Option<Stream>)
      requires Valid()
      modifies this`contentStream, filters
      ensures Valid() && contentStream == content
      ensures content.Some? ==> filters.State() == WithStream(old(filters.State()), content.value)
      ensures content.None? ==> filters.State() == old(filters.State())
    {
      contentStream := content;
      if content.Some? {
        filters.SetStream(content.value);
      }
    }

    /** `getContentStream($transferEncoding, $fromCharset, $toCharset)`. */
    method GetContentStream(encoding: Option<string>, fromCharset: Option<string>, toCharset: Option<string>) returns (s: Option<Stream>)
      requires Valid()
      modifies this`requests, filters, filters.factory
      ensures Valid()
      ensures requests == old(requests) + [ContentRequest(encoding, fromCharset, toCharset)]
      ensures !HasContent() ==> s == None && filters.State() == old(filters.State())
      ensures HasContent() ==> Reply(filters.State(), s) == ContentReply(old(filters.State()), encoding, fromCharset, toCharset)
    {
      requests := requests + [ContentRequest(encoding, fromCharset, toCharset)];
      if contentStream.None? {
        return None;
      }
      s := filters.GetContentStream(encoding, fromCharset, toCharset);
    }

    /** `getBinaryContentStream($transferEncoding)`. */
    method GetBinaryContentStream(encoding: Option<string>) returns (s: Option<Stream>)
      requires Valid()
      modifies this`requests, filters, filters.factory
      ensures Valid()
      ensures requests == old(requests) + [BinaryRequest(encoding)]
      ensures !HasContent() ==> s == None && filters.State() == old(filters.State())
      ensures HasContent() ==> Reply(filters.State(), s) == BinaryReply(old(filters.State()), encoding)
    {
      requests := requests + [BinaryRequest(encoding)];
      if contentStream.None? {
        return None;
      }
      s := filters.GetBinaryStream(encoding);
    }
  }

  /**
   * MessagePart. The getters the PHP class leaves to its subclasses
   * (content type, disposition, transfer encoding, charset, raw headers)
   * are fields here; `isMimePart` says whether the part is a MimePart and
   * `isMime` what its `isMime()` answers.
   */
  class MessagePart {
    const container: PartStreamContainer
    const parent: MessagePart?
    /** `$part instanceof IMimePart`. */
    const isMimePart: bool
    /** The part's answer to `isMime()`; a MIME-class part may answer false (a message without MIME headers). */
    const isMime: bool
    /** Distance from the root; it only serves to show that the parent chain ends. */
    ghost const depth: nat
    var headers: seq<Header>
    var contentType: string
    var contentDisposition: string
    var contentTransferEncoding: string
    var charset: Option<string>
    var charsetOverride: Option<string>
    var ignoreTransferEncoding: bool
    var observers: seq<HeaderStream>

    /** The parent chain is finite. */
    ghost predicate Linked()
      decreases depth
    {
      parent != null ==> parent.depth < depth && parent.Linked()
    }

    /** This part and its ancestors. */
    ghost function Lineage(): (r: set<MessagePart>)
      requires Linked()
      ensures this in r
      decreases depth
    {
      if parent == null then {this} else {this} + parent.Lineage()
    }

    /** Every part on the chain is an object that exists. */
    lemma {:induction false} LineageAllocated()
      requires Linked()
      ensures forall q :: q in Lineage() ==> allocated(q)
      decreases depth
    {
      if parent != null {
        parent.LineageAllocated();
      }
    }

    /**
     * The `update` calls one `notify` makes, in order: this part's
     * observers in attachment order, then those its parent's `notify` makes.
     */
    ghost function Notified(): seq<HeaderStream>
      requires Linked()
      reads Lineage()`observers
      decreases depth
    {
      observers + (if parent == null then [] else parent.Notified())
    }

    /** Every observer `notify` reaches: those of this part and of its ancestors. */
    ghost function Watchers(): set<HeaderStream>
      requires Linked()
      reads Lineage()`observers
    {
      set o | o in Notified()
    }

    /** How many `update` calls one `notify` delivers to `o`: once per attachment along the chain. */
    ghost function Deliveries(o: HeaderStream): nat
      requires Linked()
      reads Lineage()`observers
    {
      multiset(Notified())[o]
    }

    /** `notify` delivers to an observer exactly when it is attached to this part or to one of its ancestors. */
    lemma {:induction false} DeliveredIffWatching(o: HeaderStream)
      requires Linked()
      ensures Deliveries(o) > 0 <==> exists q :: q in Lineage() && o in q.observers
      decreases depth
    {
      if parent != null {
        parent.DeliveredIffWatching(o);
        assert multiset(Notified())[o] == multiset(observers)[o] + multiset(parent.Notified())[o];
      } else {
        assert Notified() == observers;
      }
    }

    /**
     * On a part without a parent whose observers never repeat, one `notify`
     * gives each attached observer exactly one update and any other none.
     */
    lemma NotifiedOnce(o: HeaderStream)
      requires Linked() && parent == null && Distinct(observers)
      ensures Deliveries(o) == if o in observers then 1 else 0
    {
      assert Notified() == observers;
      DistinctCount(observers, o);
    }

    constructor (container: PartStreamContainer, parent: MessagePart?, isMimePart: bool, isMime: bool, headers: seq<Header>,
                 contentType: string, contentDisposition: string, contentTransferEncoding: string, charset: Option<string>)
      requires parent != null ==> parent.Linked()
      ensures Linked()
      ensures this.container == container && this.parent == parent && this.isMimePart == isMimePart && this.isMime == isMime
      ensures this.headers == headers
      ensures this.contentType == contentType && this.contentDisposition == contentDisposition
      ensures this.contentTransferEncoding == contentTransferEncoding && this.charset == charset
      ensures charsetOverride == None && !ignoreTransferEncoding && observers == []
    {
      this.container := container;
      this.parent := parent;
      this.isMimePart := isMimePart;
      this.isMime := isMime;
      this.depth := if parent == null then 0 else parent.depth + 1;
      this.headers := headers;
      this.contentType := contentType;
      this.contentDisposition := contentDisposition;
      this.contentTransferEncoding := contentTransferEncoding;
      this.charset := charset;
      charsetOverride := None;
      ignoreTransferEncoding := false;
      observers := [];
    }

    /** `attach`: adds `o` at the end, unless it is attached already. */
    method Attach(o: HeaderStream)
      modifies this`observers
      ensures observers == if o in old(observers) then old(observers) else old(observers) + [o]
      ensures Distinct(old(observers)) ==> Distinct(observers)
    {
      if o !in observers {
        observers := observers + [o];
      }
    }

    /** `detach`: removes `o`, keeping the other observers in order. */
    method Detach(o: HeaderStream)
      modifies this`observers
      ensures observers == Without(old(observers), o)
      ensures Distinct(old(observers)) ==> Distinct(observers)
    {
      if Distinct(observers) {
        WithoutDistinct(observers, o);
      }
      observers := Without(observers, o);
    }

    /**
     * `notify`: calls `update` on each attached observer, in attachment
     * order, then forwards to the parent. Every header stream receives one
     * update per attachment along the chain (none if it is attached
     * nowhere on it), and every reached header stream now holds the text
     * of its part's current headers.
     */
    method Notify()
      requires Linked()
      modifies Watchers()
      ensures forall o: HeaderStream :: old(allocated(o)) ==> o.updates == old(o.updates) + old(Deliveries(o))
      ensures forall o :: o in old(Watchers()) ==> o.Current() && fresh(o.stream)
      decreases depth
    {
      LineageAllocated();
      ghost var sent := Notified();
      UpdateEach(observers);
      assert Notified() == sent;
      if parent != null {
        ghost var rest := parent.Notified();
        assert sent == observers + rest;
        assert multiset(sent) == multiset(observers) + multiset(rest);
        parent.Notify();
      }
    }

    predicate HasContent()
      reads this, container
    {
      container.HasContent()
    }

    /** The transfer encoding content is decoded from: none once content was replaced by `setContent`. */
    function ContentEncoding(): Option<string>
      reads this
    {
      if ignoreTransferEncoding then Some("") else Some(contentTransferEncoding)
    }

    /** The charset content is converted from: the override when one is set, else the part's charset. */
    function SourceCharset(): Option<string>
      reads this
    {
      if charsetOverride.Some? then charsetOverride else charset
    }

    /**
     * `getContentStream($charset)`: null for a part without content;
     * otherwise one request to the container for this part's transfer
     * encoding and source charset, converting to `target`.
     */
    method GetContentStream(target: string := "UTF-8") returns (s: Option<Stream>)
      requires container.Valid()
      modifies container`requests, container.filters, container.filters.factory
      ensures container.Valid()
      ensures !old(HasContent()) ==>
        s == None && container.requests == old(container.requests)
        && container.filters.State() == old(container.filters.State())
      ensures old(HasContent()) ==>
        container.requests == old(container.requests) + [ContentRequest(ContentEncoding(), SourceCharset(), Some(target))]
        && Reply(container.filters.State(), s) == ContentReply(old(container.filters.State()), ContentEncoding(), SourceCharset(), Some(target))
    {
      if !container.HasContent() {
        return None;
      }
      s := container.GetContentStream(ContentEncoding(), SourceCharset(), Some(target));
    }

    /**
     * `getBinaryContentStream()`: null for a part without content;
     * otherwise one binary request to the container on every call, never
     * a charset-converting one.
     */
    method GetBinaryContentStream() returns (s: Option<Stream>)
      requires container.Valid()
      modifies container`requests, container.filters, container.filters.factory
      ensures container.Valid()
      ensures !old(HasContent()) ==>
        s == None && container.requests == old(container.requests)
        && container.filters.State() == old(container.filters.State())
      ensures old(HasContent()) ==>
        container.requests == old(container.requests) + [BinaryRequest(ContentEncoding())]
        && Reply(container.filters.State(), s) == BinaryReply(old(container.filters.State()), ContentEncoding())
    {
      if !container.HasContent() {
        return None;
      }
      s := container.GetBinaryContentStream(ContentEncoding());
    }

    /** `setCharsetOverride`. */
    method SetCharsetOverride(charsetOverride: Option<string>)
      modifies this`charsetOverride
      ensures this.charsetOverride == charsetOverride
    {
      this.charsetOverride := charsetOverride;
    }

    /** `getStream()`: the whole part as stored, headers included. */
    function GetStream(): Stream
      reads this, container
    {
      container.stream
    }

    /** `save`: writes the whole part stream, not its decoded content, and touches no decode stage. */
    method Save() returns (written: Stream)
      ensures written == GetStream()
    {
      written := container.stream;
    }

    /** `__toString`: the same stream `save` writes. */
    method ToString() returns (text: Stream)
      ensures text == GetStream()
    {
      text := container.stream;
    }

    /** `detachContentStream`: the part has no content any more; observers are notified once. */
    method DetachContentStream()
      requires Linked() && container.Valid()
      modifies container`contentStream, container.filters, Watchers()
      ensures container.Valid() && container.contentStream == None && !HasContent()
      ensures container.filters.State() == old(container.filters.State())
      ensures forall o: HeaderStream :: old(allocated(o)) ==> o.updates == old(o.updates) + old(Deliveries(o))
    {
      LineageAllocated();
      container.SetContentStream(None);
      Notify();
    }

    /**
     * `setContent($stream, $charset)`: the container's content becomes
     * `content`, which is read as already decoded and in `charset`;
     * observers are notified once.
     */
    method SetContent(content: Stream, charset: string)
      requires Linked() && container.Valid()
      modifies container`contentStream, container.filters, this`charsetOverride, this`ignoreTransferEncoding, Watchers()
      ensures container.Valid() && container.contentStream == Some(content)
      ensures container.filters.State() == WithStream(old(container.filters.State()), content)
      ensures charsetOverride == Some(charset) && ignoreTransferEncoding
      ensures forall o: HeaderStream :: old(allocated(o)) ==> o.updates == old(o.updates) + old(Deliveries(o))
    {
      LineageAllocated();
      container.SetContentStream(Some(content));
      charsetOverride := Some(charset);
      ignoreTransferEncoding := true;
      Notify();
    }
  }

  /** A part over `whole`, with `content` as its content stream when there is one. */
  method NewPart(whole: Stream, content: Option<Stream>, parent: MessagePart?, isMimePart: bool, isMime: bool, headers: seq<Header>,
                 contentType: string, contentTransferEncoding: string, charset: Option<string>) returns (part: MessagePart)
    requires parent != null ==> parent.Linked()
    ensures fresh(part) && fresh(part.container) && fresh(part.container.filters) && fresh(part.container.filters.factory)
    ensures part.Linked() && part.container.Valid()
    ensures part.parent == parent && part.isMimePart == isMimePart && part.isMime == isMime && part.headers == headers
    ensures part.contentType == contentType && part.contentDisposition == "" && part.contentTransferEncoding == contentTransferEncoding
    ensures part.charset == charset && part.charsetOverride == None && !part.ignoreTransferEncoding && part.observers == []
    ensures part.container.stream == whole && part.container.contentStream == content && part.container.requests == []
    ensures part.container.filters.State() == (if content.Some? then WithStream(Initial([]), content.value) else Initial([]))
  {
    var factory := new StreamFactory();
    var filters := new PartStreamFilterManager(factory);
    var container := new PartStreamContainer(filters, whole, content);
    part := new MessagePart(container, parent, isMimePart, isMime, headers, contentType, "", contentTransferEncoding, charset);
  }

  /** A part without content: no content, no content stream, no parent; its stream is the one it was made over. */
  method PartStreamHandleTest(whole: Stream) returns (hasContent: bool, content: Option<Stream>, noParent: bool, stream: Stream)
    ensures !hasContent && content == None && noParent && stream == whole
  {
    var part := NewPart(whole, None, null, false, false, [], "", "", None);
    hasContent := part.HasContent();
    content := part.GetContentStream();
    noParent := part.parent == null;
    stream := part.GetStream();
  }

  /**
   * Two content requests around `setCharsetOverride`: the first converts
   * from the part's charset, the second from the override; both decode
   * with the part's transfer encoding.
   */
  method ContentStreamAndCharsetOverrideTest(whole: Stream, content: Stream) returns (requests: seq<Request>, first: Option<Stream>, second: Option<Stream>)
    ensures requests == [ContentRequest(Some("wubalubadub-duuuuub"), Some("wigidiwamwamwazzle"), Some("oooohweee!")),
                         ContentRequest(Some("wubalubadub-duuuuub"), Some("override"), Some("oooohweee!"))]
    ensures first.Some? && second.Some? && first != second
  {
    var part := NewPart(whole, Some(content), null, false, false, [], "", "wubalubadub-duuuuub", Some("wigidiwamwamwazzle"));
    first := part.GetContentStream("oooohweee!");
    part.SetCharsetOverride(Some("override"));
    second := part.GetContentStream("oooohweee!");
    requests := part.container.requests;
  }

  /** Two binary requests reach the container as two binary requests and no content request. */
  method BinaryContentStreamTest(whole: Stream, content: Stream) returns (requests: seq<Request>, first: Option<Stream>, second: Option<Stream>)
    ensures requests == [BinaryRequest(Some("wubalubadub-duuuuub")), BinaryRequest(Some("wubalubadub-duuuuub"))]
    ensures first == second == Some(content)
  {
    var part := NewPart(whole, Some(content), null, false, false, [], "", "wubalubadub-duuuuub", None);
    first := part.GetBinaryContentStream();
    second := part.GetBinaryContentStream();
    requests := part.container.requests;
  }

  /** `detachContentStream` clears the content and notifies the attached observer once. */
  method DetachContentStreamTest(whole: Stream, content: Stream) returns (hasContent: bool, updates: nat)
    ensures !hasContent && updates == 1
  {
    var part := NewPart(whole, Some(content), null, false, false, [], "", "", None);
    var observer := new HeaderStream(part);
    part.DetachContentStream();
    hasContent := part.HasContent();
    updates := observer.updates;
  }

  /** One `notify` while attached gives one update; after `detach`, a `notify` gives none. */
  method NotifyTest(whole: Stream) returns (afterFirst: nat, afterSecond: nat)
    ensures afterFirst == 1 && afterSecond == 1
  {
    var part := NewPart(whole, None, null, false, false, [], "", "", None);
    var observer := new HeaderStream(part);
    part.Notify();
    afterFirst := observer.updates;
    part.Detach(observer);
    part.Notify();
    afterSecond := observer.updates;
  }

  /**
   * `setContent`: the whole stream is untouched, the content is the new
   * stream, the observer is notified once, and the next content request
   * skips transfer decoding and converts from the given charset.
   */
  method SetContentTest(whole: Stream, original: Stream, updated: Stream) returns (stream: Stream, content: Option<Stream>, updates: nat, request: Request)
    ensures stream == whole && content == Some(updated) && updates == 1
    ensures request == ContentRequest(Some(""), Some("charset"), Some("a-charset"))
  {
    var part := NewPart(whole, Some(original), null, false, false, [], "", "quoted-printable", Some("utf-64"));
    stream := part.GetStream();
    var observer := new HeaderStream(part);
    part.SetContent(updated, "charset");
    content := part.container.contentStream;
    updates := observer.updates;
    var _ := part.GetContentStream("a-charset");
    request := part.container.requests[|part.container.requests| - 1];
  }

  /** A part's `notify` reaches its parent's observers too. */
  method ParentNotifyTest(whole: Stream) returns (parentUpdates: nat, childUpdates: nat)
    ensures parentUpdates == 1 && childUpdates == 1
  {
    var parent := NewPart(whole, None, null, true, true, [], "multipart/mixed", "", None);
    var parentObserver := new HeaderStream(parent);
    var child := new MessagePart(parent.container, parent, false, false, [], "text/plain", "", "7bit", None);
    var childObserver := new HeaderStream(child);
    assert child.Notified() == [childObserver, parentObserver];
    child.Notify();
    parentUpdates := parentObserver.updates;
    childUpdates := childObserver.updates;
  }

  /** A header stream over a non-MIME child of a MIME part reads the three generated headers. */
  method HeaderStreamReadTest(whole: Stream, contentType: string, encoding: string) returns (text: string)
    ensures text == ContentHeaderSection(contentType, "", encoding)
  {
    var parent := NewPart(whole, None, null, true, true, [], "multipart/mixed", "", None);
    var child := NewPart(whole, None, parent, false, false, [], contentType, encoding, None);
    var headerStream := new HeaderStream(child);
    text := headerStream.GetContents();
    ContentHeaderText(contentType, "", encoding);
  }

  /**
   * Under a message that is not MIME (a MimePart whose `isMime()` answers
   * false), a non-MIME child writes the empty line alone, while the message
   * itself still writes its own raw headers.
   */
  method HeaderStreamUnderNonMimeMessageTest(whole: Stream, headers: seq<Header>, contentType: string, encoding: string)
    returns (parentText: string, childText: string)
    ensures parentText == Serialize(headers)
    ensures childText == "\r\n"
  {
    var parent := NewPart(whole, None, null, true, false, headers, "text/plain", "", None);
    var child := NewPart(whole, None, parent, false, false, [], contentType, encoding, None);
    var parentStream := new HeaderStream(parent);
    parentText := parentStream.GetContents();
    var childStream := new HeaderStream(child);
    childText := childStream.GetContents();
    OrphanPartHeaderText(child);
  }

  /** After the part's content type changes and the part notifies, its header stream reads the new value. */
  method HeaderStreamRefreshTest(whole: Stream, before: string, after: string, encoding: string) returns (text: string)
    ensures text == ContentHeaderSection(after, "", encoding)
  {
    var parent := NewPart(whole, None, null, true, true, [], "multipart/mixed", "", None);
    var child := NewPart(whole, None, parent, false, false, [], before, encoding, None);
    var headerStream := new HeaderStream(child);
    child.contentType := after;
    assert parent.Notified() == [] && headerStream in child.Watchers();
    child.Notify();
    ghost var held := headerStream.stream;
    assert held != null && held.data == Serialize(ContentHeaders(after, "", encoding)) && held.position == 0;
    text := headerStream.GetContents();
    ContentHeaderText(after, "", encoding);
  }

  /** `save` and `__toString` give the part's whole stream, not its content stream. */
  method SaveAndToStringTest(whole: Stream, content: Stream) returns (saved: Stream, text: Stream)
    requires whole != content
    ensures saved == whole && text == whole && saved != content
  {
    var part := NewPart(whole, Some(content), null, false, false, [], "", "", None);
    saved := part.Save();
    text := part.ToString();
  }
}
