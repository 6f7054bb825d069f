/** The parsing half of `get_listing`: the reply text is split into lines on
    "\r\n", the terminating "." line and empty lines are dropped, and every
    remaining line must be a well-formed menu entry (the line grammar of the
    appendix of RFC 1436) or the whole listing is refused. */
module Listing {
  import opened Wrappers
  import opened Text
  import opened Items

  /** What the server sent back for a request, as far as parsing is concerned:
      bytes that decode as UTF-8 to `text`, bytes that do not, or no reply at
      all because connecting, writing or reading failed. */
  datatype Reply = Received(text: string) | NotUtf8 | Unreachable

  /** Lines the listing filter throws away: the "." terminator and the empty
      lines that splitting leaves (the one after the final "\r\n"). */
  predicate Dropped(line: string)
  {
    line == "." || line == ""
  }

  /** The lines the filter keeps, in order. */
  function Kept(lines: seq<string>): (r: seq<string>)
    ensures |r| <= |lines|
    ensures forall i :: 0 <= i < |r| ==> !Dropped(r[i])
  {
    if lines == [] then []
    else if Dropped(lines[0]) then Kept(lines[1..])
    else [lines[0]] + Kept(lines[1..])
  }

  /** Filtering distributes over concatenation. */
  lemma {:induction false} KeptAppend(a: seq<string>, b: seq<string>)
    ensures Kept(a + b) == Kept(a) + Kept(b)
  {
    if a != [] {
      assert (a + b)[1..] == a[1..] + b;
      KeptAppend(a[1..], b);
    } else {
      assert a + b == b;
    }
  }

  /** A "." or empty line makes no difference wherever it occurs. */
  lemma DroppedAnywhere(before: seq<string>, line: string, after: seq<string>)
    requires Dropped(line)
    ensures Kept(before + [line] + after) == Kept(before + after)
  {
    KeptAppend(before + [line], after);
    KeptAppend(before, [line]);
    KeptAppend(before, after);
    assert Kept([line]) == [];
  }

  /** Lines that are not dropped are all kept. */
  lemma {:induction false} KeptAll(lines: seq<string>)
    requires forall i :: 0 <= i < |lines| ==> !Dropped(lines[i])
    ensures Kept(lines) == lines
  {
    if lines != [] {
      KeptAll(lines[1..]);
      assert [lines[0]] + lines[1..] == lines;
    }
  }

  /** One kept line (`stem`) to an element: at least 8 bytes, a known type
      code first, then exactly four tab-separated fields, the last a `u16`.
      The type code is checked before the rest is sliced, so the slice after
      the first character starts on a character boundary. */
  function ParseLine(stem: string): (r: Result<FsElement, IoError>)
    ensures ByteLen(stem) < 8 ==> r == Err(MalformedElement(stem))
    ensures r.Ok? ==> ByteLen(stem) >= 8 && stem[0] == Code(r.value.eltType)
    ensures r.Ok? ==> TAB !in r.value.content && TAB !in r.value.link && TAB !in r.value.server
  {
    if ByteLen(stem) < 8 then Err(MalformedElement(stem))
    else
      match TryFrom(stem[0])
      case Err(e) => Err(e)
      case Ok(t) =>
        var fields := Split(stem[1..], TAB);
        if |fields| != 4 then Err(MalformedElement(stem[1..]))
        else
          match ParseU16(fields[3])
          case None => Err(InvalidPort(fields[3]))
          case Some(p) => Ok(FsElement(t, fields[0], fields[1], fields[2], p))
  }

  /** A line with the type code `c` and the four tab-free fields `display`,
      `selector`, `host` and `portText`: how each check decides it. */
  lemma ParseLineFields(c: char, display: string, selector: string, host: string, portText: string)
    requires TAB !in display && TAB !in selector && TAB !in host && TAB !in portText
    ensures var stem := [c] + display + [TAB] + selector + [TAB] + host + [TAB] + portText;
      ParseLine(stem) ==
        if ByteLen(stem) < 8 then Err(MalformedElement(stem))
        else if c !in ITEM_CODES then Err(UnknownItemType(c))
        else if ParseU16(portText).None? then Err(InvalidPort(portText))
        else Ok(FsElement(TryFrom(c).value, display, selector, host, ParseU16(portText).value))
  {
    var stem := [c] + display + [TAB] + selector + [TAB] + host + [TAB] + portText;
    var rest := display + [TAB] + selector + [TAB] + host + [TAB] + portText;
    assert stem[1..] == rest;
    var fields := [display, selector, host, portText];
    assert fields[1..] == [selector, host, portText];
    assert fields[1..][1..] == [host, portText];
    assert fields[1..][1..][1..] == [portText];
    assert Join([host, portText], [TAB]) == host + [TAB] + portText;
    assert Join([selector, host, portText], [TAB]) == selector + [TAB] + host + [TAB] + portText;
    assert Join(fields, [TAB]) == rest;
    SplitJoin([display, selector, host, portText], TAB);
  }

  /** A line of 8 bytes or more with a known code but a number of tabs after
      it other than three is malformed; the error quotes the line without its
      code, which is what joining the fields back with tabs gives. */
  lemma ParseLineFieldCount(stem: string)
    requires ByteLen(stem) >= 8 && stem[0] in ITEM_CODES
    requires Count(stem[1..], TAB) != 3
    ensures ParseLine(stem) == Err(MalformedElement(stem[1..]))
  {
    SplitCount(stem[1..], TAB);
  }

  /** `collect::<Result<Vec<_>>>()` over the parsed lines: all or nothing.
      The result is an error exactly when some line is bad, and then it is the
      error of the first bad line; otherwise it holds one element per line,
      in line order. */
  function ParseLines(lines: seq<string>): (r: Result<seq<FsElement>, IoError>)
    ensures r.Ok? <==> forall i :: 0 <= i < |lines| ==> ParseLine(lines[i]).Ok?
    ensures r.Ok? ==> |r.value| == |lines|
    ensures r.Ok? ==> forall i :: 0 <= i < |lines| ==> r.value[i] == ParseLine(lines[i]).value
    ensures r.Err? ==> exists i :: (0 <= i < |lines| && ParseLine(lines[i]) == Err(r.error)
                                   && forall j :: 0 <= j < i ==> ParseLine(lines[j]).Ok?)
  {
    if lines == [] then Ok([])
    else
      match ParseLine(lines[0])
      case Err(e) => Err(e)
      case Ok(x) =>
        var rest := ParseLines(lines[1..]);
        match rest
        case Err(e) =>
          assert forall i :: 0 <= i < |lines| - 1 ==> lines[1..][i] == lines[i + 1];
          Err(e)
        case Ok(xs) =>
          assert forall i :: 1 <= i < |lines| ==> lines[1..][i - 1] == lines[i];
          Ok([x] + xs)
  }

  /** Every kept line parses. */
  predicate AllParse(lines: seq<string>)
  {
    forall i :: 0 <= i < |lines| ==> ParseLine(lines[i]).Ok?
  }

  /** `get_listing` after the request: decode, split, filter, parse. */
  function GetListing(reply: Reply): (r: Result<seq<FsElement>, IoError>)
    ensures reply.Unreachable? ==> r == Err(Transport)
    ensures reply.NotUtf8? ==> r == Err(InvalidUtf8)
    ensures r.Ok? ==> reply.Received?
  {
    match reply
    case Unreachable => Err(Transport)
    case NotUtf8 => Err(InvalidUtf8)
    case Received(text) =>
      ParseLines(Kept(SplitLines(text)))
  }

  /** A received listing loads exactly when every line other than "." and ""
      parses, and then gives one element per such line. */
  lemma LoadsWhenAllParse(text: string)
    ensures GetListing(Received(text)).Ok? <==> AllParse(Kept(SplitLines(text)))
    ensures GetListing(Received(text)).Ok? ==>
      |GetListing(Received(text)).value| == |Kept(SplitLines(text))|
  {
    var lines := Kept(SplitLines(text));
    assert GetListing(Received(text)) == ParseLines(lines);
  }

  // ---------------------------------------------------------------------
  // What a server sends: the reference encoding the parser inverts
  // ---------------------------------------------------------------------

  /** The wire line of an element: code, display, selector, host, port. */
  function RenderLine(e: FsElement): string
  {
    [Code(e.eltType)] + e.content + [TAB] + e.link + [TAB] + e.server + [TAB] + ShowNat(e.port)
  }

  /** A listing as a server sends it: each line ended by "\r\n", then ".\r\n". */
  function Render(items: seq<FsElement>): string
  {
    Join(RenderLines(items) + [".", ""], CRLF)
  }

  function RenderLines(items: seq<FsElement>): (r: seq<string>)
    ensures |r| == |items| && forall i :: 0 <= i < |items| ==> r[i] == RenderLine(items[i])
  {
    if items == [] then [] else [RenderLine(items[0])] + RenderLines(items[1..])
  }

  /** Elements a server can describe in a line this client accepts: no tab or
      "\r\n" inside a field, and a line of at least 8 bytes. */
  predicate Renderable(e: FsElement)
  {
    && TAB !in e.content && TAB !in e.link && TAB !in e.server
    && !HasCrlf(e.content) && !HasCrlf(e.link) && !HasCrlf(e.server)
    && ByteLen(RenderLine(e)) >= 8
  }

  lemma ParseRenderLine(e: FsElement)
    requires Renderable(e)
    ensures ParseLine(RenderLine(e)) == Ok(e)
  {
    var digits := ShowNat(e.port);
    assert TAB !in digits;
    ParseLineFields(Code(e.eltType), e.content, e.link, e.server, digits);
    ParseShow(e.port);
    TryFromCode(e.eltType);
  }

  /** A rendered line has no "\r\n" inside and is never dropped. */
  lemma RenderLinePlain(e: FsElement)
    requires Renderable(e)
    ensures !HasCrlf(RenderLine(e)) && !Dropped(RenderLine(e))
  {
    var c := [Code(e.eltType)];
    var digits := ShowNat(e.port);
    CodeIsPlain(e.eltType);
    assert !HasCrlf(digits) by {
      if HasCrlf(digits) { DigitsNoCrlf(digits); }
    }
    HasCrlfAppend(c, e.content);
    var s1 := c + e.content;
    HasCrlfAppend(s1, [TAB]);
    var s2 := s1 + [TAB];
    HasCrlfAppend(s2, e.link);
    var s3 := s2 + e.link;
    HasCrlfAppend(s3, [TAB]);
    var s4 := s3 + [TAB];
    HasCrlfAppend(s4, e.server);
    var s5 := s4 + e.server;
    HasCrlfAppend(s5, [TAB]);
    var s6 := s5 + [TAB];
    HasCrlfAppend(s6, digits);
    assert RenderLine(e) == s6 + digits;
    assert RenderLine(e)[|s1|] == TAB;
  }

  lemma {:induction false} DigitsNoCrlf(s: string)
    requires AllDigits(s)
    ensures !HasCrlf(s)
  {
    if |s| >= 2 {
      assert IsDigit(s[0]);
      DigitsNoCrlf(s[1..]);
    }
  }

  /** Round trip: the parser turns what a server sends back into the elements
      it described. */
  lemma ListingRoundTrip(items: seq<FsElement>)
    requires forall i :: 0 <= i < |items| ==> Renderable(items[i])
    ensures GetListing(Received(Render(items))) == Ok(items)
  {
    var lines := RenderLines(items);
    var all := lines + [".", ""];
    forall i | 0 <= i < |lines| ensures !HasCrlf(lines[i]) && !Dropped(lines[i]) {
      RenderLinePlain(items[i]);
    }
    assert forall i :: 0 <= i < |all| ==> !HasCrlf(all[i]) by {
      forall i | 0 <= i < |all| ensures !HasCrlf(all[i]) {
        if i < |lines| { assert all[i] == lines[i]; }
      }
    }
    SplitLinesJoin(all);
    KeptAppend(lines, [".", ""]);
    KeptAll(lines);
    assert Kept([".", ""]) == [];
    assert Kept(all) == lines;
    forall i | 0 <= i < |lines| ensures ParseLine(lines[i]) == Ok(items[i]) {
      ParseRenderLine(items[i]);
    }
    assert ParseLines(lines).value == items;
  }

  /** Enough for an element to be renderable: tab- and CR-free fields with at
      least three characters between them. */
  lemma RenderableWhen(e: FsElement)
    requires TAB !in e.content && TAB !in e.link && TAB !in e.server
    requires '\r' !in e.content && '\r' !in e.link && '\r' !in e.server
    requires |e.content| + |e.link| + |e.server| >= 3
    ensures Renderable(e)
  {
    NoCrNoCrlf(e.content);
    NoCrNoCrlf(e.link);
    NoCrNoCrlf(e.server);
    ByteLenAtLeastLength(RenderLine(e));
  }

  /** A well-formed directory line followed by the terminator parses to the
      one directory it describes. */
  lemma ExampleDirectory(text: string, e: FsElement)
    requires text == "1Docs\t/d\tsdf.org\t70\r\n.\r\n"
    requires e == FsElement(Directory, "Docs", "/d", "sdf.org", 70)
    ensures GetListing(Received(text)) == Ok([e])
  {
    ExampleRenderable(e);
    ListingRoundTrip([e]);
    ExampleRender(text, e);
  }

  lemma ExampleRenderable(e: FsElement)
    requires e == FsElement(Directory, "Docs", "/d", "sdf.org", 70)
    ensures Renderable(e)
  {
    RenderableWhen(e);
  }

  lemma ExampleRender(text: string, e: FsElement)
    requires text == "1Docs\t/d\tsdf.org\t70\r\n.\r\n"
    requires e == FsElement(Directory, "Docs", "/d", "sdf.org", 70)
    ensures Render([e]) == text
  {
    ExampleLine(e);
    assert RenderLines([e]) == [RenderLine(e)];
    var all := ["1Docs\t/d\tsdf.org\t70", ".", ""];
    assert RenderLines([e]) + [".", ""] == all;
    assert all[1..] == [".", ""] && all[1..][1..] == [""];
  }

  lemma ExampleLine(e: FsElement)
    requires e == FsElement(Directory, "Docs", "/d", "sdf.org", 70)
    ensures RenderLine(e) == "1Docs\t/d\tsdf.org\t70"
  {
    ShowSeventy();
    assert RenderLine(e) == ['1'] + "Docs" + [TAB] + "/d" + [TAB] + "sdf.org" + [TAB] + "70";
  }

  lemma ShowSeventy()
    ensures ShowNat(70) == "70"
  {
  }

  lemma {:induction false} NoCrNoCrlf(s: string)
    requires '\r' !in s
    ensures !HasCrlf(s)
  {
    if |s| >= 2 {
      assert s[0] in s;
      assert forall c :: c in s[1..] ==> c in s;
      NoCrNoCrlf(s[1..]);
    }
  }

  /** Fail-fast: a good line followed by a line with an unknown type code
      yields the error of the bad line and no element at all. */
  lemma ExampleFailFast(good: string, bad: string)
    requires ParseLine(good).Ok?
    requires |bad| > 0 && bad[0] !in ITEM_CODES && ByteLen(bad) >= 8
    ensures ParseLines([good, bad]) == Err(UnknownItemType(bad[0]))
  {
  }
}
