/**
 * The header section of a part as the header stream writes it: one
 * `Name: value` line per header, each ended by CR LF, and then an empty
 * line (the layout of sections 2.1 and 2.2 of RFC 5322). A reader of that
 * text is given beside the writer, and the two are proved inverse for
 * every header whose name and value can be written unambiguously.
 */
module HeaderBlock {
  import opened Wrappers

  /** One header as a part reports it: a name and its raw value. */
  datatype Header = Header(name: string, value: string)

  const CRLF: string := "\r\n"

  /** The line written for one header. */
  function Line(h: Header): string {
    h.name + ": " + h.value + CRLF
  }

  /** The lines of `hs`, in order, with nothing after them. */
  function Lines(hs: seq<Header>): string {
    if hs == [] then [] else Line(hs[0]) + Lines(hs[1..])
  }

  /** The whole header section: the lines of `hs`, then one empty line. */
  function Serialize(hs: seq<Header>): string {
    Lines(hs) + CRLF
  }

  /** Writing a longer list writes the shorter list's text first. */
  lemma {:induction false} LinesAppend(a: seq<Header>, b: seq<Header>)
    ensures Lines(a + b) == Lines(a) + Lines(b)
    decreases |a|
  {
    if a == [] {
      assert a + b == b;
    } else {
      assert (a + b)[0] == a[0];
      assert (a + b)[1..] == a[1..] + b;
      LinesAppend(a[1..], b);
    }
  }

  /** The lines of the first `i + 1` headers are those of the first `i`, then the line of header `i`. */
  lemma LinesSnoc(hs: seq<Header>, i: nat)
    requires i < |hs|
    ensures Lines(hs[..i + 1]) == Lines(hs[..i]) + Line(hs[i])
  {
    assert hs[..i + 1] == hs[..i] + [hs[i]];
    LinesAppend(hs[..i], [hs[i]]);
    assert Lines([hs[i]]) == Line(hs[i]) + Lines([]);
  }

  /** The lines of a non-empty header list end with the last line's CR LF. */
  lemma {:induction false} LinesEndWithCRLF(hs: seq<Header>)
    requires hs != []
    ensures |Lines(hs)| >= 2 && Lines(hs)[|Lines(hs)| - 2..] == CRLF
    decreases |hs|
  {
    if hs[1..] == [] {
      assert Lines(hs) == Line(hs[0]);
    } else {
      LinesEndWithCRLF(hs[1..]);
      var l, rest := Line(hs[0]), Lines(hs[1..]);
      assert Lines(hs) == l + rest;
      assert (l + rest)[|l + rest| - 2..] == rest[|rest| - 2..];
    }
  }

  /**
   * With no headers the section is the empty line alone; otherwise the last
   * header line's CR LF is followed by the empty line, so it ends with CR LF
   * twice.
   */
  lemma SerializeShape(hs: seq<Header>)
    ensures hs == [] <==> Serialize(hs) == CRLF
    ensures |Serialize(hs)| >= 2 && Serialize(hs)[|Serialize(hs)| - 2..] == CRLF
    ensures hs != [] ==> |Serialize(hs)| >= 4 && Serialize(hs)[|Serialize(hs)| - 4..] == CRLF + CRLF
  {
    if hs != [] {
      LinesEndWithCRLF(hs);
      var l := Lines(hs);
      assert Serialize(hs)[|Serialize(hs)| - 4..] == l[|l| - 2..] + CRLF;
    }
  }

  /** A header whose line can be read back: no colon in the name, no CR anywhere. */
  predicate Readable(h: Header) {
    ':' !in h.name && '\r' !in h.name && '\r' !in h.value
  }

  /** The position of the first `c` in `s`, if any. */
  function IndexOf(s: string, c: char): (r: Option<nat>)
    ensures r.Some? ==> r.value < |s| && s[r.value] == c && c !in s[..r.value]
    ensures r.None? <==> c !in s
  {
    if s == [] then None
    else if s[0] == c then Some(0)
    else match IndexOf(s[1..], c)
      case None => None
      case Some(k) =>
        assert s[..k + 1] == [s[0]] + s[1..][..k];
        Some(k + 1)
  }

  /** The first `c` of `a + b` is the head of `b` when `a` holds none. */
  lemma {:induction false} IndexOfAfterPrefix(a: string, b: string, c: char)
    requires c !in a && b != [] && b[0] == c
    ensures IndexOf(a + b, c) == Some(|a|)
    decreases |a|
  {
    if a == [] {
      assert a + b == b;
    } else {
      assert (a + b)[0] == a[0];
      assert (a + b)[1..] == a[1..] + b;
      IndexOfAfterPrefix(a[1..], b, c);
    }
  }

  /** Reads one line (without its CR LF) back into a header. */
  function ParseLine(l: string): Option<Header> {
    match IndexOf(l, ':')
    case None => None
    case Some(j) =>
      if j + 1 < |l| && l[j + 1] == ' ' then Some(Header(l[..j], l[j + 2..])) else None
  }

  /** Reads a header section back into its list of headers. */
  function Parse(s: string): Option<seq<Header>>
    decreases |s|
  {
    if s == CRLF then Some([])
    else match IndexOf(s, '\r')
      case None => None
      case Some(k) =>
        if k + 1 < |s| && s[k + 1] == '\n' then
          match ParseLine(s[..k])
          case None => None
          case Some(h) =>
            match Parse(s[k + 2..])
            case None => None
            case Some(rest) => Some([h] + rest)
        else None
  }

  lemma ParseLineOfHeader(h: Header)
    requires Readable(h)
    ensures ParseLine(h.name + ": " + h.value) == Some(h)
  {
    var l := h.name + ": " + h.value;
    IndexOfAfterPrefix(h.name, ": " + h.value, ':');
    assert l == h.name + (": " + h.value);
    assert l[..|h.name|] == h.name;
    assert l[|h.name| + 2..] == h.value;
  }

  /** Reading a readable header's line and then `t` reads the header, then whatever `t` holds. */
  lemma ParseAfterLine(h: Header, t: string)
    requires Readable(h)
    ensures Parse(Line(h) + t) ==
      match Parse(t)
      case None => None
      case Some(rest) => Some([h] + rest)
  {
    var body := h.name + ": " + h.value;
    var s := Line(h) + t;
    assert s == body + (CRLF + t);
    assert '\r' !in body by {
      assert body == h.name + (": " + h.value);
    }
    IndexOfAfterPrefix(body, CRLF + t, '\r');
    assert |s| > 2;
    assert s[..|body|] == body;
    assert s[|body| + 2..] == t;
    ParseLineOfHeader(h);
  }

  /** Reading what was written gives back the headers, in order. */
  lemma {:induction false} ParseSerialize(hs: seq<Header>)
    requires forall i :: 0 <= i < |hs| ==> Readable(hs[i])
    ensures Parse(Serialize(hs)) == Some(hs)
  {
    if hs != [] {
      assert Serialize(hs) == Line(hs[0]) + Serialize(hs[1..]);
      ParseSerialize(hs[1..]);
      ParseAfterLine(hs[0], Serialize(hs[1..]));
      assert [hs[0]] + hs[1..] == hs;
    }
  }
}
