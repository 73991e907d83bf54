/**
 * The decode pipeline of one part: the raw content stream, a
 * transfer-decoding stage chosen by the Content-Transfer-Encoding value
 * (section 6 of RFC 2045) and a charset-conversion stage, each built by a
 * stream factory and kept until a request asks for a different key.
 *
 * The pipeline's codecs are not modelled: the factory is a recorder that
 * logs every stage it is asked to build and hands back, as the stage, the
 * stream `Built(n)` for its n-th call. Counting the entries of that log is
 * counting the factory calls.
 */
module FilterManager {
  import opened Wrappers

  /** A stream as the pipeline sees it: which bytes it yields is fixed by how it was made. */
  datatype Stream =
    | RawStream(id: nat)      // a stream handed to the manager from outside
    | Built(index: nat)       // the stream the factory returned from its index-th call
    | Cached(inner: Stream)   // a caching (seekable replay) wrapper over `inner`

  /** One call to the stream factory. */
  datatype Build =
    | QuotedPrintableDecoder(source: Stream)
    | Base64Decoder(source: Stream)
    | UUDecoder(source: Stream)
    | CharsetConverter(source: Stream, fromCharset: string, toCharset: string)

  /** The realized transfer-decoding stage and the encoding it was built for. */
  datatype DecodeStage = DecodeStage(encoding: Option<string>, stream: Stream)

  /** The realized charset stage and the pair of charsets it was built for. */
  datatype CharsetStage = CharsetStage(fromCharset: string, toCharset: string, stream: Stream)

  /** The manager's state, together with everything the factory has built so far. */
  datatype Manager = Manager(
    raw: Option<Stream>,
    decoded: Option<DecodeStage>,
    converted: Option<CharsetStage>,
    builds: seq<Build>)

  /** The state after a request, and the stream the request returned (null when there is none). */
  datatype Reply = Reply(next: Manager, stream: Option<Stream>)

  /** The transfer-decoding stage for `encoding` over `source`; any other encoding passes the bytes through. */
  function Decoder(encoding: Option<string>, source: Stream): Option<Build> {
    if encoding == Some("quoted-printable") then Some(QuotedPrintableDecoder(source))
    else if encoding == Some("base64") then Some(Base64Decoder(source))
    else if encoding == Some("x-uuencode") then Some(UUDecoder(source))
    else None
  }

  /** A manager that was never given a stream. */
  function Initial(builds: seq<Build>): Manager {
    Manager(None, None, None, builds)
  }

  /** `setStream`: binds a new raw stream and forgets both stages. */
  function WithStream(m: Manager, raw: Stream): Manager {
    m.(raw := Some(raw), decoded := None, converted := None)
  }

  /** Rebuilds the transfer-decoding stage from the raw stream and drops the charset stage. */
  function Rebuild(m: Manager, encoding: Option<string>): (r: Manager)
    requires m.raw.Some?
  {
    match Decoder(encoding, m.raw.value)
    case Some(b) =>
      m.(decoded := Some(DecodeStage(encoding, Cached(Built(|m.builds|)))), converted := None, builds := m.builds + [b])
    case None =>
      m.(decoded := Some(DecodeStage(encoding, m.raw.value)), converted := None)
  }

  /** True when the realized decoding stage cannot serve `encoding`. */
  predicate DecodeStale(m: Manager, encoding: Option<string>) {
    m.decoded.None? || m.decoded.value.encoding != encoding
  }

  /** `getBinaryStream($transferEncoding)`. */
  function BinaryReply(m: Manager, encoding: Option<string>): Reply {
    if m.raw.None? then Reply(m, None)
    else
      var m1 := if DecodeStale(m, encoding) then Rebuild(m, encoding) else m;
      Reply(m1, Some(m1.decoded.value.stream))
  }

  /** `getContentStream($transferEncoding, $fromCharset, $toCharset)`. */
  function ContentReply(m: Manager, encoding: Option<string>, fromCharset: Option<string>, toCharset: Option<string>): Reply {
    if m.raw.None? then Reply(m, None)
    else if fromCharset.None? || toCharset.None? then BinaryReply(m, encoding)
    else
      var m1 := if DecodeStale(m, encoding) then Rebuild(m, encoding) else m;
      if m1.converted.Some? && m1.converted.value.fromCharset == fromCharset.value && m1.converted.value.toCharset == toCharset.value then
        Reply(m1, Some(m1.converted.value.stream))
      else
        var stage := CharsetStage(fromCharset.value, toCharset.value, Cached(Built(|m1.builds|)));
        var m2 := m1.(converted := Some(stage), builds := m1.builds + [CharsetConverter(m1.decoded.value.stream, fromCharset.value, toCharset.value)]);
        Reply(m2, Some(stage.stream))
  }

  // ---------------------------------------------------------------------
  // What a returned stream is: the pipeline for the requested key.

  /** `s` is the caching wrapper over the factory's answer to `b`. */
  predicate IsStage(builds: seq<Build>, s: Stream, b: Build) {
    s.Cached? && s.inner.Built? && s.inner.index < |builds| && builds[s.inner.index] == b
  }

  /** `s` reads the bytes of `raw` decoded from `encoding`. */
  predicate DecodedBy(builds: seq<Build>, raw: Stream, encoding: Option<string>, s: Stream) {
    match Decoder(encoding, raw)
    case Some(b) => IsStage(builds, s, b)
    case None => s == raw
  }

  /** `s` is the pipeline a content request for this key must return. */
  predicate PipelineFor(builds: seq<Build>, raw: Stream, encoding: Option<string>, fromCharset: Option<string>, toCharset: Option<string>, s: Stream) {
    if fromCharset.None? || toCharset.None? then DecodedBy(builds, raw, encoding, s)
    else
      s.Cached? && s.inner.Built? && s.inner.index < |builds|
      && builds[s.inner.index].CharsetConverter?
      && builds[s.inner.index].fromCharset == fromCharset.value
      && builds[s.inner.index].toCharset == toCharset.value
      && DecodedBy(builds, raw, encoding, builds[s.inner.index].source)
  }

  /** Every realized stage is the pipeline for the key it is tagged with. */
  predicate Consistent(m: Manager) {
    (m.decoded.Some? ==> m.raw.Some? && DecodedBy(m.builds, m.raw.value, m.decoded.value.encoding, m.decoded.value.stream))
    && (m.converted.Some? ==>
          m.decoded.Some?
          && IsStage(m.builds, m.converted.value.stream,
                     CharsetConverter(m.decoded.value.stream, m.converted.value.fromCharset, m.converted.value.toCharset)))
  }

  lemma StagePersists(builds: seq<Build>, more: seq<Build>, raw: Stream, encoding: Option<string>, s: Stream)
    requires DecodedBy(builds, raw, encoding, s)
    ensures DecodedBy(builds + more, raw, encoding, s)
  {
    if Decoder(encoding, raw).Some? {
      assert (builds + more)[s.inner.index] == builds[s.inner.index];
    }
  }

  lemma RebuildConsistent(m: Manager, encoding: Option<string>)
    requires m.raw.Some?
    ensures var r := Rebuild(m, encoding);
      Consistent(r) && r.raw == m.raw && r.decoded.Some? && r.decoded.value.encoding == encoding
      && r.converted.None? && |m.builds| <= |r.builds| && r.builds[..|m.builds|] == m.builds
  {
    var r := Rebuild(m, encoding);
    assert r.builds[..|m.builds|] == m.builds;
  }

  /**
   * A binary request never touches the charset stage: it returns the
   * raw stream decoded from `encoding` (null when no stream was set),
   * keeps every realized stage consistent and only adds to the factory's log.
   */
  lemma BinaryReplyServes(m: Manager, encoding: Option<string>)
    requires Consistent(m)
    ensures var r := BinaryReply(m, encoding);
      Consistent(r.next) && r.next.raw == m.raw
      && |m.builds| <= |r.next.builds| && r.next.builds[..|m.builds|] == m.builds
      && (m.raw.None? <==> r.stream.None?)
      && (m.raw.Some? ==> DecodedBy(r.next.builds, m.raw.value, encoding, r.stream.value))
  {
    if m.raw.Some? && DecodeStale(m, encoding) {
      RebuildConsistent(m, encoding);
    }
  }

  /**
   * A content request returns the pipeline for its key: the raw stream
   * decoded from `encoding`, then converted between the two charsets when
   * both are given. It keeps every realized stage consistent and only adds
   * to the factory's log.
   */
  lemma ContentReplyServes(m: Manager, encoding: Option<string>, fromCharset: Option<string>, toCharset: Option<string>)
    requires Consistent(m)
    ensures var r := ContentReply(m, encoding, fromCharset, toCharset);
      Consistent(r.next) && r.next.raw == m.raw
      && |m.builds| <= |r.next.builds| && r.next.builds[..|m.builds|] == m.builds
      && (m.raw.None? <==> r.stream.None?)
      && (m.raw.Some? ==> PipelineFor(r.next.builds, m.raw.value, encoding, fromCharset, toCharset, r.stream.value))
  {
    if m.raw.Some? {
      if fromCharset.None? || toCharset.None? {
        BinaryReplyServes(m, encoding);
      } else {
        var m1 := if DecodeStale(m, encoding) then Rebuild(m, encoding) else m;
        if DecodeStale(m, encoding) {
          RebuildConsistent(m, encoding);
        }
        assert Consistent(m1) && m1.decoded.Some? && m1.decoded.value.encoding == encoding;
        if !(m1.converted.Some? && m1.converted.value.fromCharset == fromCharset.value && m1.converted.value.toCharset == toCharset.value) {
          var more := [CharsetConverter(m1.decoded.value.stream, fromCharset.value, toCharset.value)];
          StagePersists(m1.builds, more, m.raw.value, encoding, m1.decoded.value.stream);
          var r := ContentReply(m, encoding, fromCharset, toCharset);
          assert r.next.builds == m1.builds + more;
          assert r.next.builds[..|m.builds|] == m1.builds[..|m.builds|];
        }
      }
    }
  }

  /**
   * Asking again for the key just served rebuilds nothing and returns
   * the very stream returned the first time, so every read of it yields
   * the same bytes.
   */
  lemma RepeatedRequestReuses(m: Manager, encoding: Option<string>, fromCharset: Option<string>, toCharset: Option<string>)
    ensures var r1 := ContentReply(m, encoding, fromCharset, toCharset);
      ContentReply(r1.next, encoding, fromCharset, toCharset) == r1
    ensures var r1 := BinaryReply(m, encoding);
      BinaryReply(r1.next, encoding) == r1
  {
  }

  // ---------------------------------------------------------------------
  // Counting the factory calls over a sequence of requests.

  datatype Request =
    | ContentRequest(encoding: Option<string>, fromCharset: Option<string>, toCharset: Option<string>)
    | BinaryRequest(encoding: Option<string>)

  function Step(m: Manager, q: Request): Reply {
    match q
    case ContentRequest(e, f, t) => ContentReply(m, e, f, t)
    case BinaryRequest(e) => BinaryReply(m, e)
  }

  /** The final state and every stream returned, in order, for a sequence of requests. */
  datatype Trace = Trace(final: Manager, streams: seq<Option<Stream>>)

  function Run(m: Manager, qs: seq<Request>): (t: Trace)
    ensures |t.streams| == |qs|
    decreases |qs|
  {
    if qs == [] then Trace(m, [])
    else
      var r := Step(m, qs[0]);
      var t := Run(r.next, qs[1..]);
      Trace(t.final, [r.stream] + t.streams)
  }

  /** The keys of the realized stages: the only memory the manager has. */
  datatype Key = Key(encoding: Option<Option<string>>, charsets: Option<(string, string)>)

  function KeyOf(m: Manager): Key {
    Key(if m.decoded.Some? then Some(m.decoded.value.encoding) else None,
        if m.converted.Some? then Some((m.converted.value.fromCharset, m.converted.value.toCharset)) else None)
  }

  predicate Decodable(encoding: Option<string>) {
    encoding in {Some("quoted-printable"), Some("base64"), Some("x-uuencode")}
  }

  predicate HasCharsets(q: Request) {
    q.ContentRequest? && q.fromCharset.Some? && q.toCharset.Some?
  }

  /**
   * The number of stages a request builds, knowing only the keys of the
   * stages realized before it: a decoder when the encoding differs from the
   * last one and is one of the three known ones; a charset stage when the
   * request names both charsets and either the encoding or the charset
   * pair differs from the last one.
   */
  function Cost(k: Key, q: Request): nat {
    var stale := k.encoding != Some(q.encoding);
    (if stale && Decodable(q.encoding) then 1 else 0)
    + (if HasCharsets(q) && (stale || k.charsets != Some((q.fromCharset.value, q.toCharset.value))) then 1 else 0)
  }

  /** The keys of the realized stages after a request. */
  function NextKey(k: Key, q: Request): Key {
    var stale := k.encoding != Some(q.encoding);
    if HasCharsets(q) then Key(Some(q.encoding), Some((q.fromCharset.value, q.toCharset.value)))
    else if stale then Key(Some(q.encoding), None)
    else k
  }

  /** Total stages built by a sequence of requests, from the keys alone. */
  function Builds(k: Key, qs: seq<Request>): nat
    decreases |qs|
  {
    if qs == [] then 0 else Cost(k, qs[0]) + Builds(NextKey(k, qs[0]), qs[1..])
  }

  lemma DecoderIffDecodable(encoding: Option<string>, raw: Stream)
    ensures Decoder(encoding, raw).Some? <==> Decodable(encoding)
  {
  }

  /** One request builds exactly `Cost` stages and leaves the keys at `NextKey`. */
  lemma StepCost(m: Manager, q: Request)
    requires m.raw.Some?
    ensures var r := Step(m, q);
      |r.next.builds| == |m.builds| + Cost(KeyOf(m), q)
      && KeyOf(r.next) == NextKey(KeyOf(m), q)
      && r.next.raw == m.raw
  {
    DecoderIffDecodable(q.encoding, m.raw.value);
  }

  /**
   * Over any sequence of requests on a bound stream the factory is called
   * exactly `Builds` times: a stage is rebuilt only when its key differs
   * from the key it was last built for, and only the last key is remembered.
   */
  lemma {:induction false} RunBuilds(m: Manager, qs: seq<Request>)
    requires m.raw.Some?
    ensures |Run(m, qs).final.builds| == |m.builds| + Builds(KeyOf(m), qs)
    decreases |qs|
  {
    if qs != [] {
      StepCost(m, qs[0]);
      RunBuilds(Step(m, qs[0]).next, qs[1..]);
    }
  }

  // ---------------------------------------------------------------------
  // The request sequences of PartStreamFilterManagerTest.

  const QP: Option<string> := Some("quoted-printable")
  const UU: Option<string> := Some("x-uuencode")

  /** Before any stream is set a content request returns null and builds nothing. */
  lemma NoStreamNoContent(builds: seq<Build>, encoding: Option<string>, fromCharset: Option<string>, toCharset: Option<string>)
    ensures ContentReply(Initial(builds), encoding, fromCharset, toCharset) == Reply(Initial(builds), None)
  {
  }

  /** Each known encoding builds exactly one decoder of its kind over the raw stream, and returns it wrapped. */
  lemma SingleDecoderBuilt(raw: Stream, encoding: Option<string>)
    requires Decodable(encoding)
    ensures var r := ContentReply(WithStream(Initial([]), raw), encoding, None, None);
      r.next.builds == [Decoder(encoding, raw).value] && r.stream == Some(Cached(Built(0)))
  {
  }

  /** A charset pair with no transfer encoding builds one charset stage over the raw stream. */
  lemma SingleCharsetStageBuilt(raw: Stream)
    ensures var r := ContentReply(WithStream(Initial([]), raw), None, Some("US-ASCII"), Some("UTF-8"));
      r.next.builds == [CharsetConverter(raw, "US-ASCII", "UTF-8")] && r.stream == Some(Cached(Built(0)))
  {
  }

  /**
   * A run is the chain of its steps: when request `i` takes `ms[i]` to
   * `ms[i + 1]` and returns `ss[i]`, the run ends in the last state and
   * returns `ss`.
   */
  lemma {:induction false} RunFollows(ms: seq<Manager>, qs: seq<Request>, ss: seq<Option<Stream>>)
    requires |ms| == |qs| + 1 && |ss| == |qs|
    requires forall i :: 0 <= i < |qs| ==> Step(ms[i], qs[i]) == Reply(ms[i + 1], ss[i])
    ensures Run(ms[0], qs) == Trace(ms[|qs|], ss)
    decreases |qs|
  {
    if qs != [] {
      RunFollows(ms[1..], qs[1..], ss[1..]);
      assert [ss[0]] + ss[1..] == ss;
    }
  }

  /** A request without a charset pair whose decoder is stale builds decoder `b` next and returns it; asking again reuses it. */
  lemma DecoderBuiltThenReused(m: Manager, q: Request, b: Build)
    requires m.raw.Some? && !HasCharsets(q) && DecodeStale(m, q.encoding)
    requires Decoder(q.encoding, m.raw.value) == Some(b)
    ensures Step(m, q).next.raw == m.raw
    ensures Step(m, q).next.builds == m.builds + [b] && Step(m, q).stream == Some(Cached(Built(|m.builds|)))
    ensures Step(Step(m, q).next, q) == Step(m, q)
  {
  }

  /**
   * A charset request over an encoding that passes the bytes through, when
   * the charset stage is stale, builds one charset stage over the raw
   * stream and returns it; asking again reuses it.
   */
  lemma ConverterBuiltThenReused(m: Manager, q: Request)
    requires m.raw.Some? && HasCharsets(q) && Decoder(q.encoding, m.raw.value).None?
    requires m.decoded.None? || m.decoded == Some(DecodeStage(q.encoding, m.raw.value))
    requires m.converted.None? || m.converted.value.fromCharset != q.fromCharset.value || m.converted.value.toCharset != q.toCharset.value
    ensures Step(m, q).next.raw == m.raw && Step(m, q).next.decoded == Some(DecodeStage(q.encoding, m.raw.value))
    ensures Step(m, q).next.builds == m.builds + [CharsetConverter(m.raw.value, q.fromCharset.value, q.toCharset.value)]
    ensures Step(m, q).stream == Some(Cached(Built(|m.builds|)))
    ensures Step(Step(m, q).next, q) == Step(m, q)
  {
  }

  /**
   * The test's shape for any two known encodings: the first three times,
   * the second twice, the first once. The first decoder is built twice and
   * the second once, in that order, and the returned streams follow.
   */
  lemma ReattachTransferEncoding(raw: Stream, first: Option<string>, second: Option<string>)
    requires Decodable(first) && Decodable(second) && first != second
    ensures var u, q := ContentRequest(first, None, None), ContentRequest(second, None, None);
      var t := Run(WithStream(Initial([]), raw), [u, u, u, q, q, u]);
      t.final.builds == [Decoder(first, raw).value, Decoder(second, raw).value, Decoder(first, raw).value]
      && t.streams == [Some(Cached(Built(0))), Some(Cached(Built(0))), Some(Cached(Built(0))),
                       Some(Cached(Built(1))), Some(Cached(Built(1))), Some(Cached(Built(2)))]
  {
    var u, q := ContentRequest(first, None, None), ContentRequest(second, None, None);
    var m0 := WithStream(Initial([]), raw);
    DecoderBuiltThenReused(m0, u, Decoder(first, raw).value);
    var m1 := Step(m0, u).next;
    DecoderBuiltThenReused(m1, q, Decoder(second, raw).value);
    var m2 := Step(m1, q).next;
    DecoderBuiltThenReused(m2, u, Decoder(first, raw).value);
    var m3 := Step(m2, u).next;
    var s0, s1, s2 := Some(Cached(Built(0))), Some(Cached(Built(1))), Some(Cached(Built(2)));
    RunFollows([m0, m1, m1, m1, m2, m2, m3], [u, u, u, q, q, u], [s0, s0, s0, s1, s1, s2]);
  }

  /**
   * The test's six charset requests for any four charset pairs, each
   * differing from the one before: the first pair twice, the second once,
   * the third twice, the fourth once. Exactly four charset stages are built
   * over the raw stream, with the pairs in request order.
   */
  lemma ReattachCharsetConversion(raw: Stream, a: Request, b: Request, c: Request, d: Request)
    requires a.ContentRequest? && b.ContentRequest? && c.ContentRequest? && d.ContentRequest?
    requires a.encoding == b.encoding == c.encoding == d.encoding == None
    requires HasCharsets(a) && HasCharsets(b) && HasCharsets(c) && HasCharsets(d)
    requires a != b && b != c && c != d
    ensures var t := Run(WithStream(Initial([]), raw), [a, a, b, c, c, d]);
      t.final.builds == [CharsetConverter(raw, a.fromCharset.value, a.toCharset.value),
                         CharsetConverter(raw, b.fromCharset.value, b.toCharset.value),
                         CharsetConverter(raw, c.fromCharset.value, c.toCharset.value),
                         CharsetConverter(raw, d.fromCharset.value, d.toCharset.value)]
      && t.streams == [Some(Cached(Built(0))), Some(Cached(Built(0))), Some(Cached(Built(1))),
                       Some(Cached(Built(2))), Some(Cached(Built(2))), Some(Cached(Built(3)))]
  {
    var m0 := WithStream(Initial([]), raw);
    ConverterBuiltThenReused(m0, a);
    var m1 := Step(m0, a).next;
    ConverterBuiltThenReused(m1, b);
    var m2 := Step(m1, b).next;
    ConverterBuiltThenReused(m2, c);
    var m3 := Step(m2, c).next;
    ConverterBuiltThenReused(m3, d);
    var m4 := Step(m3, d).next;
    var s0, s1, s2, s3 := Some(Cached(Built(0))), Some(Cached(Built(1))), Some(Cached(Built(2))), Some(Cached(Built(3)));
    RunFollows([m0, m1, m1, m2, m3, m3, m4], [a, a, b, c, c, d], [s0, s0, s1, s2, s2, s3]);
  }

  /**
   * Three identical requests naming a transfer encoding and a charset pair
   * build one decoder and one charset stage over it, and return the same
   * stream each time.
   */
  lemma CombinedStagesBuiltOnce(raw: Stream)
    ensures var q := ContentRequest(QP, Some("US-ASCII"), Some("UTF-8"));
      var t := Run(WithStream(Initial([]), raw), [q, q, q]);
      t.final.builds == [QuotedPrintableDecoder(raw), CharsetConverter(Cached(Built(0)), "US-ASCII", "UTF-8")]
      && t.streams == [Some(Cached(Built(1))), Some(Cached(Built(1))), Some(Cached(Built(1)))]
  {
    var q := ContentRequest(QP, Some("US-ASCII"), Some("UTF-8"));
    var m0 := WithStream(Initial([]), raw);
    var m1 := Step(m0, q).next;
    assert m1.builds == [QuotedPrintableDecoder(raw), CharsetConverter(Cached(Built(0)), "US-ASCII", "UTF-8")];
    assert Step(m0, q).stream == Some(Cached(Built(1)));
    assert Step(m1, q) == Reply(m1, Some(Cached(Built(1))));
    var s := Some(Cached(Built(1)));
    RunFollows([m0, m1, m1, m1], [q, q, q], [s, s, s]);
  }

  /** `getBinaryStream` reuses and rebuilds its decoder by the same rule as content requests. */
  lemma BinaryStreamReattach(raw: Stream, first: Option<string>, second: Option<string>)
    requires Decodable(first) && Decodable(second) && first != second
    ensures var u, q := BinaryRequest(first), BinaryRequest(second);
      var t := Run(WithStream(Initial([]), raw), [u, u, u, q, q, u]);
      t.final.builds == [Decoder(first, raw).value, Decoder(second, raw).value, Decoder(first, raw).value]
      && t.streams == [Some(Cached(Built(0))), Some(Cached(Built(0))), Some(Cached(Built(0))),
                       Some(Cached(Built(1))), Some(Cached(Built(1))), Some(Cached(Built(2)))]
  {
    var u, q := BinaryRequest(first), BinaryRequest(second);
    var m0 := WithStream(Initial([]), raw);
    DecoderBuiltThenReused(m0, u, Decoder(first, raw).value);
    var m1 := Step(m0, u).next;
    DecoderBuiltThenReused(m1, q, Decoder(second, raw).value);
    var m2 := Step(m1, q).next;
    DecoderBuiltThenReused(m2, u, Decoder(first, raw).value);
    var m3 := Step(m2, u).next;
    var s0, s1, s2 := Some(Cached(Built(0))), Some(Cached(Built(1))), Some(Cached(Built(2)));
    RunFollows([m0, m1, m1, m1, m2, m2, m3], [u, u, u, q, q, u], [s0, s0, s0, s1, s1, s2]);
  }

  // ---------------------------------------------------------------------
  // The objects: the stream factory (a recording test double) and the manager.

  /** The stream factory: records each stage it is asked for and returns the handle of that call. */
  class StreamFactory {
    var builds: seq<Build>

    constructor ()
      ensures builds == []
    {
      builds := [];
    }

    method NewQuotedPrintableStream(source: Stream) returns (s: Stream)
      modifies this
      ensures builds == old(builds) + [QuotedPrintableDecoder(source)] && s == Built(|old(builds)|)
    {
      s := Built(|builds|);
      builds := builds + [QuotedPrintableDecoder(source)];
    }

    method NewBase64Stream(source: Stream) returns (s: Stream)
      modifies this
      ensures builds == old(builds) + [Base64Decoder(source)] && s == Built(|old(builds)|)
    {
      s := Built(|builds|);
      builds := builds + [Base64Decoder(source)];
    }

    method NewUUStream(source: Stream) returns (s: Stream)
      modifies this
      ensures builds == old(builds) + [UUDecoder(source)] && s == Built(|old(builds)|)
    {
      s := Built(|builds|);
      builds := builds + [UUDecoder(source)];
    }

    method NewCharsetStream(source: Stream, fromCharset: string, toCharset: string) returns (s: Stream)
      modifies this
      ensures builds == old(builds) + [CharsetConverter(source, fromCharset, toCharset)] && s == Built(|old(builds)|)
    {
      s := Built(|builds|);
      builds := builds + [CharsetConverter(source, fromCharset, toCharset)];
    }
  }

  /** PartStreamFilterManager: one per part, building decode stages through its factory. */
  class PartStreamFilterManager {
    const factory: StreamFactory
    var raw: Option<Stream>
    var decoded: Option<DecodeStage>
    var converted: Option<CharsetStage>

    /** The manager's state with the factory's log. */
    function State(): Manager
      reads this, factory
    {
      Manager(raw, decoded, converted, factory.builds)
    }

    constructor (factory: StreamFactory)
      ensures this.factory == factory
      ensures State() == Initial(factory.builds)
    {
      this.factory := factory;
      raw, decoded, converted := None, None, None;
    }

    /** `setStream`. */
    method SetStream(stream: Stream)
      modifies this
      ensures State() == WithStream(old(State()), stream)
    {
      raw, decoded, converted := Some(stream), None, None;
    }

    /** Resets both stages and attaches the decoder for `encoding`, if it is a known one. */
    method AttachTransferEncodingFilter(encoding: Option<string>)
      requires raw.Some?
      modifies this, factory
      ensures State() == Rebuild(old(State()), encoding)
    {
      var source := raw.value;
      converted := None;
      decoded := Some(DecodeStage(encoding, source));
      if encoding == Some("quoted-printable") {
        var s := factory.NewQuotedPrintableStream(source);
        decoded := Some(DecodeStage(encoding, Cached(s)));
      } else if encoding == Some("base64") {
        var s := factory.NewBase64Stream(source);
        decoded := Some(DecodeStage(encoding, Cached(s)));
      } else if encoding == Some("x-uuencode") {
        var s := factory.NewUUStream(source);
        decoded := Some(DecodeStage(encoding, Cached(s)));
      }
    }

    /** `getBinaryStream($transferEncoding)`. */
    method GetBinaryStream(encoding: Option<string>) returns (s: Option<Stream>)
      modifies this, factory
      ensures Reply(State(), s) == BinaryReply(old(State()), encoding)
    {
      if raw.None? {
        return None;
      }
      if decoded.None? || decoded.value.encoding != encoding {
        AttachTransferEncodingFilter(encoding);
      }
      s := Some(decoded.value.stream);
    }

    /** `getContentStream($transferEncoding, $fromCharset, $toCharset)`. */
    method GetContentStream(encoding: Option<string>, fromCharset: Option<string>, toCharset: Option<string>) returns (s: Option<Stream>)
      modifies this, factory
      ensures Reply(State(), s) == ContentReply(old(State()), encoding, fromCharset, toCharset)
    {
      if raw.None? {
        return None;
      }
      if fromCharset.None? || toCharset.None? {
        s := GetBinaryStream(encoding);
        return;
      }
      if decoded.None? || decoded.value.encoding != encoding {
        AttachTransferEncodingFilter(encoding);
      }
      if !(converted.Some? && converted.value.fromCharset == fromCharset.value && converted.value.toCharset == toCharset.value) {
        var c := factory.NewCharsetStream(decoded.value.stream, fromCharset.value, toCharset.value);
        converted := Some(CharsetStage(fromCharset.value, toCharset.value, Cached(c)));
      }
      s := Some(converted.value.stream);
    }
  }

  /**
   * The first test as a client of the manager: a request before any stream
   * is set returns null; after `setStream` a quoted-printable request calls
   * the factory once and returns the wrapped decoder.
   */
  method AttachQuotedPrintableDecoderTest(raw: Stream) returns (before: Option<Stream>, after: Option<Stream>, builds: seq<Build>)
    ensures before == None && after == Some(Cached(Built(0)))
    ensures builds == [QuotedPrintableDecoder(raw)]
  {
    var factory := new StreamFactory();
    var manager := new PartStreamFilterManager(factory);
    before := manager.GetContentStream(QP, None, None);
    manager.SetStream(raw);
    after := manager.GetContentStream(QP, None, None);
    builds := factory.builds;
  }
}
