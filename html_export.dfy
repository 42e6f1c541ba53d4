/**
 * The HTML export of the report text (export_tab.py): each tagged text
 * segment becomes an HTML paragraph with the tags' CSS classes, and the
 * coordinator section lists each coordinator's text under a heading, in
 * sorted key order, with the display name read back from the tab key.
 */
module HtmlExport {
  import opened PyStrings
  import opened Reporting

  /** A run of report text with the display tags applied to it. */
  datatype Segment = Segment(text: string, tags: seq<string>)

  /** The display tags the report uses. */
  const DisplayTags: seq<string> :=
    ["header", "subheader", "bold_metric", "key_value_label", "indented_item", "warning_text"]

  /** The CSS class of a display tag; any other tag has none. */
  function TagToCssClass(tag: string): string {
    if tag == "header" then "report-header"
    else if tag == "subheader" then "report-subheader"
    else if tag == "bold_metric" then "report-bold-metric"
    else if tag == "key_value_label" then "report-key-value-label"
    else if tag == "indented_item" then "report-indented-item"
    else if tag == "warning_text" then "report-warning-text"
    else ""
  }

  /** Exactly the display tags have a class. */
  lemma CssClassOnlyForDisplayTags(tag: string)
    ensures TagToCssClass(tag) != "" <==> tag in DisplayTags
  {
  }

  /** Different display tags never share a class. */
  lemma CssClassesDistinct(a: string, b: string)
    requires a in DisplayTags && b in DisplayTags && a != b
    ensures TagToCssClass(a) != TagToCssClass(b)
  {
  }

  /** The classes of the tags that have one, in tag order. */
  function CssClasses(tags: seq<string>): (classes: seq<string>)
    ensures |classes| <= |tags|
  {
    if tags == [] then []
    else
      var cls := TagToCssClass(tags[0]);
      (if cls != "" then [cls] else []) + CssClasses(tags[1..])
  }

  /** The classes are exactly the non-empty classes of the tags. */
  lemma {:induction false} CssClassesMembers(tags: seq<string>)
    ensures forall c :: c in CssClasses(tags) ==> c != "" && exists t :: t in tags && TagToCssClass(t) == c
    ensures forall t :: t in tags && TagToCssClass(t) != "" ==> TagToCssClass(t) in CssClasses(tags)
    decreases |tags|
  {
    if tags != [] {
      CssClassesMembers(tags[1..]);
      assert tags == [tags[0]] + tags[1..];
    }
  }

  /** The classes keep the order of the tags: those of a run of tags, then those of the next. */
  lemma {:induction false} CssClassesInTagOrder(a: seq<string>, b: seq<string>)
    ensures CssClasses(a + b) == CssClasses(a) + CssClasses(b)
    decreases |a|
  {
    if a == [] {
      assert a + b == b;
    } else {
      var head := if TagToCssClass(a[0]) != "" then [TagToCssClass(a[0])] else [];
      assert CssClasses(a + b) == head + CssClasses(a[1..] + b) by {
        assert (a + b)[0] == a[0] && (a + b)[1..] == a[1..] + b;
      }
      CssClassesInTagOrder(a[1..], b);
      assert head + (CssClasses(a[1..]) + CssClasses(b)) == (head + CssClasses(a[1..])) + CssClasses(b);
    }
  }

  /** ` class="a b"`, or nothing when no tag has a class. */
  function ClassAttribute(tags: seq<string>): string {
    var classes := CssClasses(tags);
    if classes == [] then "" else " class=\"" + Join(" ", classes) + "\""
  }

  lemma NoClassNoAttribute(tags: seq<string>)
    ensures ClassAttribute(tags) == "" <==> forall t :: t in tags ==> t !in DisplayTags
  {
    CssClassesMembers(tags);
    forall t | t in tags ensures TagToCssClass(t) != "" <==> t in DisplayTags {
      CssClassOnlyForDisplayTags(t);
    }
    if CssClasses(tags) != [] {
      assert CssClasses(tags)[0] in CssClasses(tags);
    }
  }

  // ---------------------------------------------------------------------
  // Escaping

  /** `s.replace("&", "&amp;").replace("<", "&lt;").replace(">", "&gt;")`. */
  function Escape(s: string): string {
    ReplaceChar(ReplaceChar(ReplaceChar(s, '&', "&amp;"), '<', "&lt;"), '>', "&gt;")
  }

  function EntityFor(c: char): string {
    if c == '&' then "&amp;" else if c == '<' then "&lt;" else if c == '>' then "&gt;" else [c]
  }

  /** Escaping character by character, each markup character replaced by its entity. */
  function EscapeEach(s: string): string {
    if s == [] then [] else EntityFor(s[0]) + EscapeEach(s[1..])
  }

  /** Reads the three entities back as characters. */
  function Unescape(s: string): string
    decreases |s|
  {
    if s == [] then []
    else if |s| >= 5 && s[..5] == "&amp;" then "&" + Unescape(s[5..])
    else if |s| >= 4 && s[..4] == "&lt;" then "<" + Unescape(s[4..])
    else if |s| >= 4 && s[..4] == "&gt;" then ">" + Unescape(s[4..])
    else [s[0]] + Unescape(s[1..])
  }

  /** A single character escapes to its entity: '<' to "&lt;", never "&amp;lt;". */
  lemma EscapeOne(c: char)
    ensures Escape([c]) == EntityFor(c)
  {
    if c == '&' {
      ReplaceCharSingle(c, "&amp;");
      assert '<' !in "&amp;" && '>' !in "&amp;";
      ReplaceCharRemoves("&amp;", '<', "&lt;");
      ReplaceCharRemoves("&amp;", '>', "&gt;");
    } else if c == '<' {
      ReplaceCharRemoves([c], '&', "&amp;");
      ReplaceCharSingle(c, "&lt;");
      assert '>' !in "&lt;";
      ReplaceCharRemoves("&lt;", '>', "&gt;");
    } else if c == '>' {
      ReplaceCharRemoves([c], '&', "&amp;");
      ReplaceCharRemoves([c], '<', "&lt;");
      ReplaceCharSingle(c, "&gt;");
    } else {
      ReplaceCharRemoves([c], '&', "&amp;");
      ReplaceCharRemoves([c], '<', "&lt;");
      ReplaceCharRemoves([c], '>', "&gt;");
    }
  }

  lemma EscapeConcat(a: string, b: string)
    ensures Escape(a + b) == Escape(a) + Escape(b)
  {
    ReplaceCharConcat(a, b, '&', "&amp;");
    ReplaceCharConcat(ReplaceChar(a, '&', "&amp;"), ReplaceChar(b, '&', "&amp;"), '<', "&lt;");
    ReplaceCharConcat(ReplaceChar(ReplaceChar(a, '&', "&amp;"), '<', "&lt;"),
                      ReplaceChar(ReplaceChar(b, '&', "&amp;"), '<', "&lt;"), '>', "&gt;");
  }

  /**
   * The replace chain escapes each character on its own: '&' goes first, so
   * the entities written for '<' and '>' are not escaped again.
   */
  lemma {:induction false} EscapeIsPerCharacter(s: string)
    ensures Escape(s) == EscapeEach(s)
  {
    if s != [] {
      assert s == [s[0]] + s[1..];
      EscapeConcat([s[0]], s[1..]);
      EscapeOne(s[0]);
      EscapeIsPerCharacter(s[1..]);
    }
  }

  /** The escaped text has no markup characters. */
  lemma EscapeNoMarkup(s: string)
    ensures '<' !in Escape(s) && '>' !in Escape(s)
  {
    var ampersands := ReplaceChar(s, '&', "&amp;");
    ReplaceCharRemoves(ampersands, '<', "&lt;");
    ReplaceCharRemoves(ReplaceChar(ampersands, '<', "&lt;"), '>', "&gt;");
    ReplaceCharMembers(ReplaceChar(ampersands, '<', "&lt;"), '>', "&gt;");
  }

  /** Each entity, and any other character, is read back as the one character it stands for. */
  lemma UnescapeEntity(c: char, rest: string)
    ensures Unescape(EntityFor(c) + rest) == [c] + Unescape(rest)
  {
    if c == '&' {
      UnescapeAmp(rest);
    } else if c == '<' {
      UnescapeLt(rest);
    } else if c == '>' {
      UnescapeGt(rest);
    } else {
      UnescapePlain(c, rest);
    }
  }

  lemma UnescapeAmp(rest: string)
    ensures Unescape("&amp;" + rest) == "&" + Unescape(rest)
  {
    var e := "&amp;" + rest;
    assert e[..5] == "&amp;" && e[5..] == rest;
  }

  lemma UnescapeLt(rest: string)
    ensures Unescape("&lt;" + rest) == "<" + Unescape(rest)
  {
    var e := "&lt;" + rest;
    assert e[..4] == "&lt;" && e[4..] == rest;
    assert e[1] == 'l';
  }

  lemma UnescapeGt(rest: string)
    ensures Unescape("&gt;" + rest) == ">" + Unescape(rest)
  {
    var e := "&gt;" + rest;
    assert e[..4] == "&gt;" && e[4..] == rest;
    assert e[1] == 'g';
  }

  lemma UnescapePlain(c: char, rest: string)
    requires c != '&'
    ensures Unescape([c] + rest) == [c] + Unescape(rest)
  {
    var e := [c] + rest;
    assert e[0] == c && e[1..] == rest;
  }

  lemma {:induction false} UnescapeEscapeEach(s: string)
    ensures Unescape(EscapeEach(s)) == s
  {
    if s != [] {
      UnescapeEscapeEach(s[1..]);
      UnescapeEntity(s[0], EscapeEach(s[1..]));
      assert s == [s[0]] + s[1..];
    }
  }

  /** Unescaping gives back the original text. */
  lemma UnescapeEscape(s: string)
    ensures Unescape(Escape(s)) == s
  {
    EscapeIsPerCharacter(s);
    UnescapeEscapeEach(s);
  }

  // ---------------------------------------------------------------------
  // Line breaks

  /** `s.replace("\n", "<br>\n")`. */
  function BreakLines(s: string): string {
    ReplaceChar(s, '\n', "<br>\n")
  }

  /** Reads every "<br>\n" back as a newline. */
  function JoinBreaks(s: string): string
    decreases |s|
  {
    if s == [] then []
    else if |s| >= 5 && s[..5] == "<br>\n" then "\n" + JoinBreaks(s[5..])
    else [s[0]] + JoinBreaks(s[1..])
  }

  /** In text without '<', the breaks read back as the newlines they replaced. */
  lemma {:induction false} JoinBreaksBreakLines(s: string)
    requires '<' !in s
    ensures JoinBreaks(BreakLines(s)) == s
  {
    if s != [] {
      assert '<' !in s[1..];
      JoinBreaksBreakLines(s[1..]);
      var rest := BreakLines(s[1..]);
      if s[0] == '\n' {
        assert BreakLines(s) == "<br>\n" + rest;
        JoinBreaksOfBreak(rest);
      } else {
        assert BreakLines(s) == [s[0]] + rest;
        JoinBreaksOfPlain(s[0], rest);
      }
      assert s == [s[0]] + s[1..];
    }
  }

  lemma JoinBreaksOfBreak(rest: string)
    ensures JoinBreaks("<br>\n" + rest) == "\n" + JoinBreaks(rest)
  {
    var b := "<br>\n" + rest;
    assert b[..5] == "<br>\n" && b[5..] == rest;
  }

  lemma JoinBreaksOfPlain(c: char, rest: string)
    requires c != '<'
    ensures JoinBreaks([c] + rest) == [c] + JoinBreaks(rest)
  {
    var b := [c] + rest;
    assert b[0] == c && b[1..] == rest;
  }

  // ---------------------------------------------------------------------
  // Stripping commutes with escaping

  lemma {:induction false} EscapeEachConcat(a: string, b: string)
    ensures EscapeEach(a + b) == EscapeEach(a) + EscapeEach(b)
  {
    if a == [] {
      assert a + b == b;
    } else {
      assert (a + b)[0] == a[0] && (a + b)[1..] == a[1..] + b;
      EscapeEachConcat(a[1..], b);
    }
  }

  lemma EntityNewline(c: char)
    ensures EntityFor(c) != [] && (EntityFor(c)[0] == '\n' <==> c == '\n')
    ensures EntityFor(c)[|EntityFor(c)| - 1] == '\n' <==> c == '\n'
    ensures c == '\n' ==> EntityFor(c) == [c]
  {
  }

  lemma {:induction false} TrimLeftCommutes(s: string)
    ensures TrimLeft(EscapeEach(s), Newlines) == EscapeEach(TrimLeft(s, Newlines))
  {
    if s != [] {
      if s[0] == '\n' {
        EscapedNewlineHead(s);
        TrimLeftCommutes(s[1..]);
      } else {
        EscapedVisibleHead(s);
      }
    }
  }

  lemma EscapedNewlineHead(s: string)
    requires s != [] && s[0] == '\n'
    ensures TrimLeft(EscapeEach(s), Newlines) == TrimLeft(EscapeEach(s[1..]), Newlines)
    ensures TrimLeft(s, Newlines) == TrimLeft(s[1..], Newlines)
  {
    var e := EscapeEach(s);
    EntityNewline(s[0]);
    assert e == [s[0]] + EscapeEach(s[1..]);
    assert e[0] == '\n' && e[1..] == EscapeEach(s[1..]);
  }

  lemma EscapedVisibleHead(s: string)
    requires s != [] && s[0] != '\n'
    ensures TrimLeft(EscapeEach(s), Newlines) == EscapeEach(s)
    ensures TrimLeft(s, Newlines) == s
  {
    var e := EscapeEach(s);
    EntityNewline(s[0]);
    assert e == EntityFor(s[0]) + EscapeEach(s[1..]);
    assert e[0] == EntityFor(s[0])[0];
  }

  lemma {:induction false} TrimRightCommutes(s: string)
    ensures TrimRight(EscapeEach(s), Newlines) == EscapeEach(TrimRight(s, Newlines))
    decreases |s|
  {
    if s != [] {
      var front := s[..|s| - 1];
      var c := s[|s| - 1];
      assert s == front + [c];
      EscapeEachConcat(front, [c]);
      var e := EscapeEach(s);
      assert EscapeEach([c]) == EntityFor(c) + EscapeEach([]);
      assert e == EscapeEach(front) + EntityFor(c);
      EntityNewline(c);
      if c == '\n' {
        assert e[..|e| - 1] == EscapeEach(front);
        assert TrimRight(e, Newlines) == TrimRight(EscapeEach(front), Newlines);
        assert TrimRight(s, Newlines) == TrimRight(front, Newlines);
        TrimRightCommutes(front);
      } else {
        assert e[|e| - 1] == EntityFor(c)[|EntityFor(c)| - 1];
        assert TrimRight(e, Newlines) == e;
        assert TrimRight(s, Newlines) == s;
      }
    }
  }

  /** Stripping newlines after escaping is escaping after stripping newlines. */
  lemma StripNewlinesCommutes(s: string)
    ensures StripNewlines(EscapeEach(s)) == EscapeEach(StripNewlines(s))
  {
    TrimLeftCommutes(s);
    TrimRightCommutes(TrimLeft(s, Newlines));
  }

  // ---------------------------------------------------------------------
  // Converting one segment

  /** One segment as HTML: nothing, a line break, or a paragraph with the tags' classes. */
  function ConvertSegment(seg: Segment): string {
    if seg.text == [] && seg.tags == [] then "" else ConvertEscaped(Escape(seg.text), seg.tags)
  }

  /** The escaped text: a lone newline is a line break, blank text nothing, anything else a paragraph. */
  function ConvertEscaped(escaped: string, tags: seq<string>): string {
    if escaped == "\n" then "<br>\n"
    else
      var body := BreakLines(StripNewlines(escaped));
      if Strip(body) == [] then "" else Paragraph(ClassAttribute(tags), body)
  }

  function Paragraph(attribute: string, body: string): string {
    "<p" + attribute + ">" + body + "</p>\n"
  }

  /** What a paragraph holds: the text without outer newlines, escaped, with inner newlines as breaks. */
  function ParagraphBody(text: string): string {
    BreakLines(EscapeEach(StripNewlines(text)))
  }

  predicate AllSpace(s: string) {
    forall i :: 0 <= i < |s| ==> IsSpace(s[i])
  }

  lemma AllSpaceConcat(a: string, b: string)
    ensures AllSpace(a + b) <==> AllSpace(a) && AllSpace(b)
  {
    if AllSpace(a + b) {
      forall i | 0 <= i < |a| ensures IsSpace(a[i]) {
        assert a[i] == (a + b)[i];
      }
      forall i | 0 <= i < |b| ensures IsSpace(b[i]) {
        assert b[i] == (a + b)[|a| + i];
      }
    }
    if AllSpace(a) && AllSpace(b) {
      forall i | 0 <= i < |a + b| ensures IsSpace((a + b)[i]) {
        if i < |a| {
          assert (a + b)[i] == a[i];
        } else {
          assert (a + b)[i] == b[i - |a|];
        }
      }
    }
  }

  lemma BlankEntity(c: char)
    ensures AllSpace(BreakLines(EntityFor(c))) <==> IsSpace(c) && c != '\n'
  {
    var head := BreakLines(EntityFor(c));
    if c == '\n' {
      ReplaceCharSingle(c, "<br>\n");
      assert head[0] == '<';
    } else if c == '&' || c == '<' || c == '>' {
      ReplaceCharRemoves(EntityFor(c), '\n', "<br>\n");
      assert head[0] == '&';
    } else {
      ReplaceCharRemoves([c], '\n', "<br>\n");
    }
  }

  /** A paragraph body is blank exactly when the text is made of spaces other than newlines. */
  lemma {:induction false} BlankBody(s: string)
    ensures AllSpace(BreakLines(EscapeEach(s))) <==> forall i :: 0 <= i < |s| ==> IsSpace(s[i]) && s[i] != '\n'
  {
    if s != [] {
      var head := BreakLines(EntityFor(s[0]));
      var rest := BreakLines(EscapeEach(s[1..]));
      ReplaceCharConcat(EntityFor(s[0]), EscapeEach(s[1..]), '\n', "<br>\n");
      assert BreakLines(EscapeEach(s)) == head + rest;
      AllSpaceConcat(head, rest);
      BlankEntity(s[0]);
      BlankBody(s[1..]);
      assert forall i :: 1 <= i < |s| ==> s[i] == s[1..][i - 1];
    }
  }

  lemma EscapeOfNewline(text: string)
    ensures Escape(text) == "\n" <==> text == "\n"
  {
    EscapeIsPerCharacter(text);
    if text != [] && text != "\n" {
      var e := EscapeEach(text);
      assert e == EntityFor(text[0]) + EscapeEach(text[1..]);
      if |text| >= 2 {
        EscapeEachLonger(text[1..]);
      }
    }
  }

  lemma {:induction false} EscapeEachLonger(s: string)
    ensures |EscapeEach(s)| >= |s|
  {
    if s != [] {
      EscapeEachLonger(s[1..]);
    }
  }

  /** A lone newline becomes a line break, whatever its tags. */
  lemma LineBreakSegment(seg: Segment)
    ensures seg.text == "\n" ==> ConvertSegment(seg) == "<br>\n"
    ensures ConvertSegment(seg) == "<br>\n" ==> seg.text == "\n"
  {
    EscapeOfNewline(seg.text);
  }

  /** The body built from the escaped text is the paragraph body of the text. */
  lemma BodyOfEscaped(text: string)
    ensures BreakLines(StripNewlines(Escape(text))) == ParagraphBody(text)
  {
    EscapeIsPerCharacter(text);
    StripNewlinesCommutes(text);
  }

  /** A paragraph body is blank exactly when the stripped text holds only spaces other than newlines. */
  lemma BlankParagraphBody(text: string)
    ensures Strip(ParagraphBody(text)) == [] <==>
      forall i :: 0 <= i < |StripNewlines(text)| ==> IsSpace(StripNewlines(text)[i]) && StripNewlines(text)[i] != '\n'
  {
    BlankBody(StripNewlines(text));
    StripEmptyIff(ParagraphBody(text));
  }

  /** Apart from the empty untagged segment and the lone newline, a segment is converted from its paragraph body. */
  lemma ConvertOther(seg: Segment)
    requires !(seg.text == [] && seg.tags == []) && seg.text != "\n"
    ensures ConvertSegment(seg)
      == if Strip(ParagraphBody(seg.text)) == [] then "" else Paragraph(ClassAttribute(seg.tags), ParagraphBody(seg.text))
  {
    EscapeOfNewline(seg.text);
    BodyOfEscaped(seg.text);
  }

  /**
   * A segment vanishes exactly when it is not a lone newline and, once its
   * outer newlines are stripped, it is made of spaces other than newlines;
   * in particular an empty segment vanishes whatever its tags.
   */
  lemma BlankSegment(seg: Segment)
    ensures ConvertSegment(seg) == "" <==>
      seg.text != "\n" && forall i :: 0 <= i < |StripNewlines(seg.text)| ==>
        IsSpace(StripNewlines(seg.text)[i]) && StripNewlines(seg.text)[i] != '\n'
  {
    if seg.text == "\n" {
      LineBreakSegment(seg);
    } else if seg.text == [] && seg.tags == [] {
      assert StripNewlines(seg.text) == [];
    } else {
      ConvertOther(seg);
      BlankParagraphBody(seg.text);
      ParagraphIsNoHeading(ClassAttribute(seg.tags), ParagraphBody(seg.text));
    }
  }

  /** Any other segment becomes a paragraph holding its paragraph body, with the tags' classes. */
  lemma ParagraphSegment(seg: Segment)
    requires ConvertSegment(seg) != "" && seg.text != "\n"
    ensures ConvertSegment(seg) == Paragraph(ClassAttribute(seg.tags), ParagraphBody(seg.text))
  {
    ConvertOther(seg);
  }

  /**
   * The paragraph body holds the text without its outer newlines, escaped,
   * with breaks for its inner newlines: reading the breaks and the
   * entities back gives that text.
   */
  lemma ParagraphBodyReadsBack(text: string)
    ensures Unescape(JoinBreaks(ParagraphBody(text))) == StripNewlines(text)
  {
    var stripped := StripNewlines(text);
    EscapeNoMarkup(stripped);
    EscapeIsPerCharacter(stripped);
    JoinBreaksBreakLines(EscapeEach(stripped));
    UnescapeEscapeEach(stripped);
  }

  // ---------------------------------------------------------------------
  // The coordinator section

  const SectionOpen: string := "<div class=\"coordinator-section\">\n"
  const SectionTitle: string := "<h2>Project Coordinator Details</h2>\n"
  const NoSpecificData: string := Emphasised("No specific coordinator data available for export.")
  const NoCoordinatorData: string := Emphasised("No project coordinator data available in the report.")
  const SectionClose: string := "</div>\n"

  /** An emphasised notice paragraph. */
  function Emphasised(notice: string): string {
    "<p><em>" + notice + "</em></p>\n"
  }

  function Heading(name: string): string {
    "<h3>Coordinator: " + name + "</h3>\n"
  }

  /** The report text of a tab; a tab without text has none. */
  function TabText(content: map<string, seq<Segment>>, key: string): seq<Segment> {
    if key in content then content[key] else []
  }

  /** The HTML of each segment, in order. */
  function SegmentsHtml(segs: seq<Segment>): seq<string> {
    if segs == [] then [] else SegmentsHtml(segs[..|segs| - 1]) + [ConvertSegment(segs[|segs| - 1])]
  }

  /** The parts written for one coordinator: a heading and the converted text, or nothing without text. */
  function CoordinatorParts(key: string, content: map<string, seq<Segment>>): seq<string> {
    var segs := TabText(content, key);
    if segs == [] then [] else [Heading(DisplayName(key))] + SegmentsHtml(segs)
  }

  function AllCoordinatorParts(keys: seq<string>, content: map<string, seq<Segment>>): seq<string> {
    if keys == [] then []
    else AllCoordinatorParts(keys[..|keys| - 1], content) + CoordinatorParts(keys[|keys| - 1], content)
  }

  predicate AnyText(keys: seq<string>, content: map<string, seq<Segment>>) {
    exists k :: k in keys && TabText(content, k) != []
  }

  /** The HTML parts of the coordinator section, for the given tab keys. */
  function CoordinatorSection(keys: seq<string>, content: map<string, seq<Segment>>): seq<string> {
    [SectionOpen, SectionTitle] + CoordinatorDetails(keys, content) + [SectionClose]
  }

  /** Between the section title and its end: the coordinators' parts, or a notice. */
  function CoordinatorDetails(keys: seq<string>, content: map<string, seq<Segment>>): seq<string> {
    if keys == [] then [NoCoordinatorData]
    else AllCoordinatorParts(SortStrings(keys), content) + (if AnyText(keys, content) then [] else [NoSpecificData])
  }

  lemma AllPartsStep(keys: seq<string>, i: nat, content: map<string, seq<Segment>>)
    requires i < |keys|
    ensures AllCoordinatorParts(keys[..i + 1], content)
      == AllCoordinatorParts(keys[..i], content) + CoordinatorParts(keys[i], content)
  {
    var prefix := keys[..i + 1];
    assert prefix[..|prefix| - 1] == keys[..i];
    assert prefix[|prefix| - 1] == keys[i];
  }

  lemma AnyTextStep(keys: seq<string>, i: nat, content: map<string, seq<Segment>>)
    requires i < |keys|
    ensures AnyText(keys[..i + 1], content) <==> AnyText(keys[..i], content) || TabText(content, keys[i]) != []
  {
    assert keys[..i + 1] == keys[..i] + [keys[i]];
  }

  /** Appends the HTML of each segment, in order. */
  method AppendSegments(parts: seq<string>, segs: seq<Segment>) returns (out: seq<string>)
    ensures out == parts + SegmentsHtml(segs)
  {
    out := parts;
    for j := 0 to |segs|
      invariant out == parts + SegmentsHtml(segs[..j])
    {
      assert segs[..j + 1][..j] == segs[..j];
      out := out + [ConvertSegment(segs[j])];
    }
    assert segs[..|segs|] == segs;
  }

  /** Appends one coordinator's heading and text, if its tab has text, and says whether it had. */
  method ExportCoordinator(parts: seq<string>, key: string, content: map<string, seq<Segment>>)
    returns (out: seq<string>, hasText: bool)
    ensures out == parts + CoordinatorParts(key, content)
    ensures hasText <==> TabText(content, key) != []
  {
    var displayName := DisplayName(key);
    var segs := TabText(content, key);
    hasText := segs != [];
    if hasText {
      out := parts + [Heading(displayName)];
      out := AppendSegments(out, segs);
    } else {
      out := parts;
    }
  }

  /** Appends the parts of each coordinator in `keys`, in that order, and says whether any had text. */
  method ExportCoordinators(parts: seq<string>, keys: seq<string>, content: map<string, seq<Segment>>)
    returns (out: seq<string>, found: bool)
    ensures out == parts + AllCoordinatorParts(keys, content)
    ensures found <==> AnyText(keys, content)
  {
    out := parts;
    found := false;
    for i := 0 to |keys|
      invariant out == parts + AllCoordinatorParts(keys[..i], content)
      invariant found <==> AnyText(keys[..i], content)
    {
      AnyTextStep(keys, i, content);
      AllPartsStep(keys, i, content);
      var hasText;
      out, hasText := ExportCoordinator(out, keys[i], content);
      found := found || hasText;
    }
    assert keys[..|keys|] == keys;
  }

  /** Writes the coordinator section: one heading and paragraphs per coordinator with text, in sorted key order. */
  method ExportCoordinatorSection(tab: ReportingTab, content: map<string, seq<Segment>>) returns (parts: seq<string>)
    ensures parts == CoordinatorSection(tab.coordinatorTabs, content)
  {
    var opening := [SectionOpen, SectionTitle];
    var keys := tab.coordinatorTabs;
    var details;
    if keys == [] {
      details := [NoCoordinatorData];
    } else {
      var sorted := SortStrings(keys);
      var found;
      details, found := ExportCoordinators([], sorted, content);
      assert details == AllCoordinatorParts(sorted, content);
      SortedKeysSameText(keys, content);
      if !found {
        details := details + [NoSpecificData];
      }
    }
    assert details == CoordinatorDetails(keys, content);
    parts := opening + details + [SectionClose];
  }

  lemma SortedKeysSameText(keys: seq<string>, content: map<string, seq<Segment>>)
    ensures AnyText(SortStrings(keys), content) <==> AnyText(keys, content)
  {
    var sorted := SortStrings(keys);
    assert forall k :: k in sorted <==> k in keys by {
      forall k ensures k in sorted <==> k in keys {
        assert k in sorted <==> k in multiset(sorted);
        assert k in keys <==> k in multiset(keys);
      }
    }
  }

  // ---------------------------------------------------------------------
  // What the section shows

  /** A part that starts with `<h3>`. */
  predicate IsHeading(part: string) {
    |part| >= 4 && part[0] == '<' && part[1] == 'h' && part[2] == '3' && part[3] == '>'
  }

  /** The headings among the parts, in order. */
  function Headings(parts: seq<string>): seq<string> {
    if parts == [] then []
    else Headings(parts[..|parts| - 1]) + (if IsHeading(parts[|parts| - 1]) then [parts[|parts| - 1]] else [])
  }

  /** The headings of the coordinators with text, in the order of `keys`. */
  function HeadingsFor(keys: seq<string>, content: map<string, seq<Segment>>): seq<string> {
    if keys == [] then []
    else
      var k := keys[|keys| - 1];
      HeadingsFor(keys[..|keys| - 1], content) + (if TabText(content, k) != [] then [Heading(DisplayName(k))] else [])
  }

  lemma {:induction false} HeadingsConcat(a: seq<string>, b: seq<string>)
    ensures Headings(a + b) == Headings(a) + Headings(b)
    decreases |b|
  {
    if b == [] {
      assert a + b == a;
    } else {
      var front := b[..|b| - 1];
      assert (a + b)[..|a + b| - 1] == a + front;
      assert (a + b)[|a + b| - 1] == b[|b| - 1];
      HeadingsConcat(a, front);
    }
  }

  lemma ConvertedIsNoHeading(seg: Segment)
    ensures !IsHeading(ConvertSegment(seg))
  {
    if !(seg.text == [] && seg.tags == []) {
      EscapedIsNoHeading(Escape(seg.text), seg.tags);
    }
  }

  lemma EscapedIsNoHeading(escaped: string, tags: seq<string>)
    ensures !IsHeading(ConvertEscaped(escaped, tags))
  {
    if escaped == "\n" {
      assert ConvertEscaped(escaped, tags)[1] == 'b';
    } else {
      ParagraphIsNoHeading(ClassAttribute(tags), BreakLines(StripNewlines(escaped)));
    }
  }

  lemma ParagraphIsNoHeading(attribute: string, body: string)
    ensures !IsHeading(Paragraph(attribute, body))
  {
    assert Paragraph(attribute, body)[1] == 'p';
  }

  lemma {:induction false} SegmentsHaveNoHeadings(segs: seq<Segment>)
    ensures Headings(SegmentsHtml(segs)) == []
    decreases |segs|
  {
    if segs != [] {
      var front := segs[..|segs| - 1];
      var last := ConvertSegment(segs[|segs| - 1]);
      ConvertedIsNoHeading(segs[|segs| - 1]);
      SegmentsHaveNoHeadings(front);
      HeadingsConcat(SegmentsHtml(front), [last]);
      var single: seq<string> := [last];
      assert single[..0] == [];
    }
  }

  lemma HeadingSingleton(name: string)
    ensures Headings([Heading(name)]) == [Heading(name)]
  {
    var h := Heading(name);
    assert h[..4] == "<h3>";
    var single: seq<string> := [h];
    assert single[..0] == [];
  }

  lemma CoordinatorPartsHeadings(k: string, content: map<string, seq<Segment>>)
    ensures Headings(CoordinatorParts(k, content))
      == if TabText(content, k) != [] then [Heading(DisplayName(k))] else []
  {
    if TabText(content, k) != [] {
      var h := Heading(DisplayName(k));
      HeadingsConcat([h], SegmentsHtml(TabText(content, k)));
      SegmentsHaveNoHeadings(TabText(content, k));
      HeadingSingleton(DisplayName(k));
    }
  }

  lemma {:induction false} PartsHeadings(keys: seq<string>, content: map<string, seq<Segment>>)
    ensures Headings(AllCoordinatorParts(keys, content)) == HeadingsFor(keys, content)
    decreases |keys|
  {
    if keys != [] {
      var k := keys[|keys| - 1];
      var front := keys[..|keys| - 1];
      PartsHeadings(front, content);
      HeadingsConcat(AllCoordinatorParts(front, content), CoordinatorParts(k, content));
      CoordinatorPartsHeadings(k, content);
    }
  }

  lemma NoHeadingSingleton(part: string)
    requires !IsHeading(part)
    ensures Headings([part]) == []
  {
    assert [part][..0] == [];
  }

  lemma DetailsHeadings(keys: seq<string>, content: map<string, seq<Segment>>)
    ensures Headings(CoordinatorDetails(keys, content)) == HeadingsFor(SortStrings(keys), content)
  {
    if keys == [] {
      assert NoCoordinatorData[1] == 'p';
      NoHeadingSingleton(NoCoordinatorData);
      assert SortStrings(keys) == [];
    } else {
      var tail := if AnyText(keys, content) then [] else [NoSpecificData];
      assert Headings(tail) == [] by {
        if tail != [] {
          assert NoSpecificData[1] == 'p';
          NoHeadingSingleton(NoSpecificData);
        }
      }
      PartsHeadings(SortStrings(keys), content);
      HeadingsConcat(AllCoordinatorParts(SortStrings(keys), content), tail);
    }
  }

  lemma FramesAreNoHeadings()
    ensures Headings([SectionOpen, SectionTitle]) == [] && Headings([SectionClose]) == []
  {
    assert SectionOpen[1] == 'd' && SectionTitle[2] == '2' && SectionClose[1] == '/';
    NoHeadingSingleton(SectionOpen);
    NoHeadingSingleton(SectionTitle);
    NoHeadingSingleton(SectionClose);
    HeadingsConcat([SectionOpen], [SectionTitle]);
    assert [SectionOpen, SectionTitle] == [SectionOpen] + [SectionTitle];
  }

  /**
   * The section's headings name exactly the coordinators whose tabs have
   * text, in sorted key order, each under the name read back from its key.
   */
  lemma SectionHeadingsInKeyOrder(keys: seq<string>, content: map<string, seq<Segment>>)
    ensures Headings(CoordinatorSection(keys, content)) == HeadingsFor(SortStrings(keys), content)
  {
    var opening := [SectionOpen, SectionTitle];
    FramesAreNoHeadings();
    var details := CoordinatorDetails(keys, content);
    DetailsHeadings(keys, content);
    HeadingsConcat(opening, details);
    HeadingsConcat(opening + details, [SectionClose]);
  }
}
