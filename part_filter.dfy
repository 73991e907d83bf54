/**
 * The part filters a message uses to pick out attachments, inline text
 * parts and parts with a given header value or disposition. Each PHP
 * method returns a closure over the part; here each closure is a predicate
 * whose first parameter is the part and whose other parameters are the
 * values the closure captured, with the PHP method's defaults. Dispositions follow RFC 2183, and a part is
 * multipart in the sense of section 5.1 of RFC 2046.
 */
module PartFilter {
  import opened Wrappers
  import opened Ascii
  import opened HeaderBlock

  /**
   * What a filter asks of a part. A getter that returns null is read as
   * the empty string, which is how PHP's `strtolower` and `strcasecmp`
   * treat it. `isMultiPart` and `isSignaturePart` are only consulted for
   * MIME parts (`$part instanceof IMimePart`, which `isMimePart`
   * records), as in the PHP code.
   * `headerValues` pairs each header name with the value
   * `getHeaderValue` reports for it, in the part's header order.
   */
  datatype PartView = PartView(
    contentType: string,
    contentDisposition: string,
    isMimePart: bool,
    isMultiPart: bool,
    isSignaturePart: bool,
    headerValues: seq<Header>)

  /** `getHeaderValue($name)`: the value of the first header whose name matches case-insensitively. */
  function HeaderValue(headers: seq<Header>, name: string): (r: Option<string>)
    ensures r.Some? ==> exists i :: 0 <= i < |headers| && EqualsIgnoreCase(headers[i].name, name) && headers[i].value == r.value
                                    && forall j :: 0 <= j < i ==> !EqualsIgnoreCase(headers[j].name, name)
    ensures r.None? <==> forall i :: 0 <= i < |headers| ==> !EqualsIgnoreCase(headers[i].name, name)
  {
    if headers == [] then None
    else if EqualsIgnoreCase(headers[0].name, name) then Some(headers[0].value)
    else
      var r := HeaderValue(headers[1..], name);
      assert forall i :: 1 <= i < |headers| ==> headers[i] == headers[1..][i - 1];
      if r.Some? then
        var k :| 0 <= k < |headers[1..]| && EqualsIgnoreCase(headers[1..][k].name, name) && headers[1..][k].value == r.value
                 && forall j :: 0 <= j < k ==> !EqualsIgnoreCase(headers[1..][j].name, name);
        assert forall j :: 0 <= j < k + 1 ==> !EqualsIgnoreCase(headers[j].name, name);
        r
      else r
  }

  /** `fromAttachmentFilter()`. */
  predicate FromAttachmentFilter(p: PartView) {
    var t := Lower(p.contentType);
    if (t == "text/plain" || t == "text/html") && EqualsIgnoreCase(p.contentDisposition, "inline") then false
    else !(p.isMimePart && (p.isMultiPart || p.isSignaturePart))
  }

  /** `fromHeaderValue($name, $value, $excludeSignedParts = true)`: signed parts are excluded unless asked otherwise. */
  predicate FromHeaderValue(p: PartView, name: string, value: string, excludeSignedParts: bool := true) {
    if p.isMimePart then
      if excludeSignedParts && p.isSignaturePart then false
      else EqualsIgnoreCase(HeaderValue(p.headerValues, name).GetOr(""), value)
    else false
  }

  /** `fromContentType($mimeType)`. */
  predicate FromContentType(p: PartView, mimeType: string) {
    EqualsIgnoreCase(p.contentType, mimeType)
  }

  /** `fromInlineContentType($mimeType)`. */
  predicate FromInlineContentType(p: PartView, mimeType: string) {
    EqualsIgnoreCase(p.contentType, mimeType) && !EqualsIgnoreCase(p.contentDisposition, "attachment")
  }

  /** `fromDisposition($disposition, $includeMultipart = false, $includeSignedParts = false)`. */
  predicate FromDisposition(p: PartView, disposition: string, includeMultipart: bool := false, includeSignedParts: bool := false) {
    if p.isMimePart && ((!includeMultipart && p.isMultiPart) || (!includeSignedParts && p.isSignaturePart)) then false
    else EqualsIgnoreCase(p.contentDisposition, disposition)
  }

  lemma LowerOfLiterals()
    ensures Lower("inline") == "inline" && Lower("attachment") == "attachment"
  {
  }

  /**
   * The attachment filter rejects exactly the text/plain and text/html
   * parts whose disposition is `inline` (in any case), and the MIME parts
   * that are multipart or signature parts; every other part is kept, in
   * particular every non-MIME part that is not inline text.
   */
  lemma AttachmentFilterAccepts(p: PartView)
    ensures FromAttachmentFilter(p) <==>
      !((Lower(p.contentType) == "text/plain" || Lower(p.contentType) == "text/html") && Lower(p.contentDisposition) == "inline")
      && !(p.isMimePart && (p.isMultiPart || p.isSignaturePart))
  {
    StrCaseCmpZero(p.contentDisposition, "inline");
    LowerOfLiterals();
  }

  /**
   * The filter tests for an `inline` disposition, not for the absence of
   * an `attachment` one: a text/plain part with no disposition at all is
   * kept as an attachment.
   */
  lemma AttachmentFilterKeepsTextWithoutDisposition(p: PartView)
    requires Lower(p.contentType) == "text/plain" && p.contentDisposition == ""
    requires !p.isMimePart
    ensures FromAttachmentFilter(p)
  {
    AttachmentFilterAccepts(p);
  }

  /**
   * The header-value filter never keeps a non-MIME part; with
   * `excludeSignedParts` it never keeps a signature part; otherwise it
   * keeps a part exactly when the header's value equals `value` up to
   * ASCII case, a missing header counting as the empty string.
   */
  lemma HeaderValueFilterAccepts(name: string, value: string, excludeSignedParts: bool, p: PartView)
    ensures FromHeaderValue(p, name, value, excludeSignedParts) <==>
      p.isMimePart && !(excludeSignedParts && p.isSignaturePart)
      && Lower(HeaderValue(p.headerValues, name).GetOr("")) == Lower(value)
  {
    StrCaseCmpZero(HeaderValue(p.headerValues, name).GetOr(""), value);
  }

  /**
   * The content-type filter keeps a part exactly when its content type
   * equals `mimeType` up to ASCII case, so changing the case of either
   * side never changes its answer.
   */
  lemma ContentTypeFilterAccepts(mimeType: string, p: PartView)
    ensures FromContentType(p, mimeType) <==> Lower(p.contentType) == Lower(mimeType)
    ensures FromContentType(p, Upper(mimeType)) == FromContentType(p, mimeType)
    ensures FromContentType(p.(contentType := Upper(p.contentType)), mimeType) == FromContentType(p, mimeType)
  {
    StrCaseCmpZero(p.contentType, mimeType);
    StrCaseCmpZero(p.contentType, Upper(mimeType));
    StrCaseCmpZero(Upper(p.contentType), mimeType);
    LowerForgetsCase(mimeType);
    LowerForgetsCase(p.contentType);
  }

  /**
   * The inline-content-type filter keeps a part exactly when its type
   * matches and its disposition is not `attachment`, both up to ASCII case.
   */
  lemma InlineContentTypeFilterAccepts(mimeType: string, p: PartView)
    ensures FromInlineContentType(p, mimeType) <==>
      Lower(p.contentType) == Lower(mimeType) && Lower(p.contentDisposition) != "attachment"
  {
    StrCaseCmpZero(p.contentType, mimeType);
    StrCaseCmpZero(p.contentDisposition, "attachment");
    LowerOfLiterals();
  }

  /**
   * The disposition filter rejects a multipart MIME part unless
   * `includeMultipart` and a signature MIME part unless
   * `includeSignedParts`; otherwise it keeps the part exactly when the
   * disposition matches up to ASCII case.
   */
  lemma DispositionFilterAccepts(disposition: string, includeMultipart: bool, includeSignedParts: bool, p: PartView)
    ensures FromDisposition(p, disposition, includeMultipart, includeSignedParts) <==>
      !(p.isMimePart && !includeMultipart && p.isMultiPart)
      && !(p.isMimePart && !includeSignedParts && p.isSignaturePart)
      && Lower(p.contentDisposition) == Lower(disposition)
  {
    StrCaseCmpZero(p.contentDisposition, disposition);
  }

  /**
   * Called with its default, the header-value filter excludes signed
   * parts: it keeps exactly the MIME parts that are not signature parts and
   * whose header value matches up to ASCII case.
   */
  lemma HeaderValueFilterDefault(p: PartView, name: string, value: string)
    ensures FromHeaderValue(p, name, value) <==>
      p.isMimePart && !p.isSignaturePart
      && Lower(HeaderValue(p.headerValues, name).GetOr("")) == Lower(value)
  {
    HeaderValueFilterAccepts(name, value, true, p);
  }

  /**
   * Called with its defaults, the disposition filter keeps no multipart
   * and no signature MIME part, and otherwise keeps a part exactly when
   * the disposition matches up to ASCII case.
   */
  lemma DispositionFilterDefault(p: PartView, disposition: string)
    ensures FromDisposition(p, disposition) <==>
      !(p.isMimePart && (p.isMultiPart || p.isSignaturePart))
      && Lower(p.contentDisposition) == Lower(disposition)
  {
    DispositionFilterAccepts(disposition, false, false, p);
  }
}
