/** Multi-line and bulleted expansion: a placeholder in an anchor paragraph
    is replaced by the first line or bullet, and each further line or bullet
    becomes a new paragraph inserted after the previous one, so that they end
    up directly below the anchor in input order. A cell's paragraphs are a
    sequence and the anchor is addressed by its index in it. */
module Expansion {
  import opened Wrappers
  import opened Strings
  import opened Docx
  import opened Formatting
  import opened Substitution

  const LineBreak := "\n"
  const BulletGlyph := "• "

  /** A paragraph added to a cell with `add_paragraph(text)`: nothing is set,
      and it holds one default-font run with `text`, or no run at all when
      `text` is empty. */
  function NewParagraph(text: string): (p: Paragraph)
    ensures ParagraphText(p) == text
    ensures p.format == DefaultFormat
    ensures p.runs == [] <==> text == []
    ensures |p.runs| <= 1
    ensures forall r | r in p.runs :: r.font == DefaultFont
  {
    if text == [] then Paragraph(DefaultFormat, [])
    else
      var runs := [Run(text, DefaultFont)];
      assert RunsText(runs) == text + RunsText(runs[1..]);
      assert runs[1..] == [];
      Paragraph(DefaultFormat, runs)
  }

  /** The paragraph inserted for one further line: created holding the line,
      then given the anchor's paragraph formatting. */
  function LineParagraph(anchor: Paragraph, line: string): (q: Paragraph) {
    CopyParagraphFormatting(anchor, NewParagraph(line))
  }

  /** The paragraph inserted for one further bullet: created empty, given the
      anchor's paragraph formatting, then one run holding the bullet, given
      the template run's font. */
  function BulletParagraph(anchor: Paragraph, templateRun: Run, item: string): (q: Paragraph) {
    var p := CopyParagraphFormatting(anchor, NewParagraph([]));
    var run := CopyRunFormatting(Some(templateRun), Some(Run(BulletGlyph + item, DefaultFont))).value;
    p.(runs := p.runs + [run])
  }

  /** The paragraphs inserted for further lines, in order. */
  function LineParagraphs(anchor: Paragraph, lines: seq<string>): (b: seq<Paragraph>)
    ensures |b| == |lines|
    decreases |lines|
  {
    if lines == [] then []
    else LineParagraphs(anchor, lines[..|lines| - 1]) + [LineParagraph(anchor, lines[|lines| - 1])]
  }

  /** The `i`th paragraph inserted for further lines is the one for line `i`. */
  lemma {:induction false} LineParagraphsAt(anchor: Paragraph, lines: seq<string>, i: nat)
    requires i < |lines|
    ensures LineParagraphs(anchor, lines)[i] == LineParagraph(anchor, lines[i])
    decreases |lines|
  {
    if i < |lines| - 1 {
      LineParagraphsAt(anchor, lines[..|lines| - 1], i);
    }
  }

  /** The paragraphs inserted for further bullets, in order. */
  function BulletParagraphs(anchor: Paragraph, templateRun: Run, items: seq<string>): (b: seq<Paragraph>)
    ensures |b| == |items|
    decreases |items|
  {
    if items == [] then []
    else BulletParagraphs(anchor, templateRun, items[..|items| - 1])
           + [BulletParagraph(anchor, templateRun, items[|items| - 1])]
  }

  /** The `i`th paragraph inserted for further bullets is the one for item `i`. */
  lemma {:induction false} BulletParagraphsAt(anchor: Paragraph, templateRun: Run, items: seq<string>, i: nat)
    requires i < |items|
    ensures BulletParagraphs(anchor, templateRun, items)[i] == BulletParagraph(anchor, templateRun, items[i])
    decreases |items|
  {
    if i < |items| - 1 {
      BulletParagraphsAt(anchor, templateRun, items[..|items| - 1], i);
    }
  }

  /** Inserting `x` right after the paragraphs inserted so far extends
      them and leaves the rest in place. */
  lemma InsertAfterInserted<T>(before: seq<T>, inserted: seq<T>, after: seq<T>, x: T)
    ensures var qs := before + inserted + after;
            var n := |before| + |inserted|;
            qs[..n] + [x] + qs[n..] == before + (inserted + [x]) + after
  {
    var qs := before + inserted + after;
    var n := |before| + |inserted|;
    assert qs[..n] == before + inserted;
    assert qs[n..] == after;
  }

  /** The index of the first run whose text holds `key`, if any. */
  function FirstRunHolding(runs: seq<Run>, key: string): (t: Option<nat>)
    ensures t.None? <==> forall i :: 0 <= i < |runs| ==> !Contains(runs[i].text, key)
    ensures t.Some? ==>
      && t.value < |runs|
      && Contains(runs[t.value].text, key)
      && forall i :: 0 <= i < t.value ==> !Contains(runs[i].text, key)
  {
    if runs == [] then None
    else if Contains(runs[0].text, key) then Some(0)
    else
      match FirstRunHolding(runs[1..], key)
      case None => None
      case Some(t) => Some(t + 1)
  }

  /** What `replace_with_multiline_text(p, key, text)` leaves where `p`
      stood: the anchor followed by the paragraphs it inserted. */
  function MultilineBlock(p: Paragraph, key: string, text: string): (b: seq<Paragraph>)
    requires key != []
    ensures |b| >= 1
  {
    if !Contains(ParagraphText(p), key) then [p]
    else
      var lines := Split(text, LineBreak);
      [Substitute(p, key, lines[0])] + LineParagraphs(p, lines[1..])
  }

  /** What `replace_with_bullet_points(p, key, items)` leaves where `p`
      stood: the anchor followed by the paragraphs it inserted. */
  function BulletBlock(p: Paragraph, key: string, items: seq<string>): (b: seq<Paragraph>)
    requires key != []
    ensures |b| >= 1
  {
    if !Contains(ParagraphText(p), key) then [p]
    else if items == [] then [Substitute(p, key, [])]
    else
      match FirstRunHolding(p.runs, key)
      case None => [p]
      case Some(t) =>
        [Substitute(p, key, BulletGlyph + items[0])] + BulletParagraphs(p, p.runs[t], items[1..])
  }

  /** Replacing the element at `a` by `x` and inserting `inserted` after it
      puts the block `[x] + inserted` where the element stood. */
  lemma ReplaceAndInsert<T>(ps: seq<T>, a: nat, x: T, inserted: seq<T>)
    requires a < |ps|
    ensures ps[a := x][..a + 1] + inserted + ps[a := x][a + 1..] == ps[..a] + ([x] + inserted) + ps[a + 1..]
  {
    assert ps[a := x][..a + 1] == ps[..a] + [x];
    assert ps[a := x][a + 1..] == ps[a + 1..];
  }

  /** The insertion loop of `replace_with_multiline_text`: for each further
      line in order, a paragraph holding it is created, given the anchor's
      paragraph formatting, and inserted right after the current paragraph,
      which it then becomes; the current paragraph starts as the anchor at
      index `a`. */
  method InsertLineParagraphs(ps: seq<Paragraph>, a: nat, anchor: Paragraph, lines: seq<string>)
    returns (qs: seq<Paragraph>)
    requires a < |ps|
    ensures qs == ps[..a + 1] + LineParagraphs(anchor, lines) + ps[a + 1..]
  {
    qs := ps;
    assert qs == ps[..a + 1] + LineParagraphs(anchor, lines[..0]) + ps[a + 1..];
    var current := a;
    var k := 0;
    while k < |lines|
      invariant 0 <= k <= |lines| && current == a + k
      invariant qs == ps[..a + 1] + LineParagraphs(anchor, lines[..k]) + ps[a + 1..]
    {
      var newParagraph := NewParagraph(lines[k]);
      newParagraph := CopyParagraphFormatting(anchor, newParagraph);
      InsertAfterInserted(ps[..a + 1], LineParagraphs(anchor, lines[..k]), ps[a + 1..], newParagraph);
      qs := qs[..current + 1] + [newParagraph] + qs[current + 1..];
      assert lines[..k + 1][..k] == lines[..k];
      current := current + 1;
      k := k + 1;
    }
    assert lines[..k] == lines;
  }

  /** The insertion loop of `replace_with_bullet_points`: for each further
      item in order, an empty paragraph is created, given the anchor's
      paragraph formatting and one run holding the bullet glyph and the item
      in the template run's font, and inserted right after the current
      paragraph, which it then becomes; the current paragraph starts as the
      anchor at index `a`. */
  method InsertBulletParagraphs(ps: seq<Paragraph>, a: nat, anchor: Paragraph, templateRun: Run, items: seq<string>)
    returns (qs: seq<Paragraph>)
    requires a < |ps|
    ensures qs == ps[..a + 1] + BulletParagraphs(anchor, templateRun, items) + ps[a + 1..]
  {
    qs := ps;
    assert qs == ps[..a + 1] + BulletParagraphs(anchor, templateRun, items[..0]) + ps[a + 1..];
    var current := a;
    var k := 0;
    while k < |items|
      invariant 0 <= k <= |items| && current == a + k
      invariant qs == ps[..a + 1] + BulletParagraphs(anchor, templateRun, items[..k]) + ps[a + 1..]
    {
      var newParagraph := NewParagraph([]);
      newParagraph := CopyParagraphFormatting(anchor, newParagraph);
      var newRun := Run(BulletGlyph + items[k], DefaultFont);
      newRun := CopyRunFormatting(Some(templateRun), Some(newRun)).value;
      newParagraph := newParagraph.(runs := newParagraph.runs + [newRun]);
      InsertAfterInserted(ps[..a + 1], BulletParagraphs(anchor, templateRun, items[..k]), ps[a + 1..], newParagraph);
      qs := qs[..current + 1] + [newParagraph] + qs[current + 1..];
      assert items[..k + 1][..k] == items[..k];
      current := current + 1;
      k := k + 1;
    }
    assert items[..k] == items;
  }

  /** `replace_with_multiline_text`, on the anchor at index `a` of its cell's
      paragraphs: nothing happens when the anchor's text lacks `key`;
      otherwise the first line replaces `key` in the anchor and the further
      lines are inserted after it. */
  method ReplaceWithMultilineText(ps: seq<Paragraph>, a: nat, key: string, text: string)
    returns (qs: seq<Paragraph>)
    requires a < |ps| && key != []
    ensures qs == ps[..a] + MultilineBlock(ps[a], key, text) + ps[a + 1..]
  {
    var paragraph := ps[a];
    if !Contains(ParagraphText(paragraph), key) {
      assert ps == ps[..a] + [ps[a]] + ps[a + 1..];
      return ps;
    }
    var lines := Split(text, LineBreak);
    var anchor := ReplaceTextInParagraph(paragraph, key, lines[0]);
    qs := InsertLineParagraphs(ps[a := anchor], a, paragraph, lines[1..]);
    ReplaceAndInsert(ps, a, anchor, LineParagraphs(paragraph, lines[1..]));
    assert MultilineBlock(paragraph, key, text) == [anchor] + LineParagraphs(paragraph, lines[1..]);
  }

  /** The template-run search of `replace_with_bullet_points`: the runs are
      visited in order and the first whose text holds `key` is taken. */
  method FindTemplateRun(runs: seq<Run>, key: string) returns (t: Option<nat>)
    ensures t == FirstRunHolding(runs, key)
  {
    var i := 0;
    while i < |runs|
      invariant 0 <= i <= |runs|
      invariant forall j :: 0 <= j < i ==> !Contains(runs[j].text, key)
    {
      if Contains(runs[i].text, key) {
        return Some(i);
      }
      i := i + 1;
    }
    return None;
  }

  /** `replace_with_bullet_points`, on the anchor at index `a` of its cell's
      paragraphs: nothing happens when the anchor's text lacks `key`; an
      empty list removes `key`; otherwise, when some run holds `key` whole,
      the first bullet replaces it and the further bullets are inserted after
      it in the font of the first run that held `key`; when no run holds it,
      nothing happens. */
  method ReplaceWithBulletPoints(ps: seq<Paragraph>, a: nat, key: string, items: seq<string>)
    returns (qs: seq<Paragraph>)
    requires a < |ps| && key != []
    ensures qs == ps[..a] + BulletBlock(ps[a], key, items) + ps[a + 1..]
  {
    var paragraph := ps[a];
    assert ps == ps[..a] + [ps[a]] + ps[a + 1..];
    if !Contains(ParagraphText(paragraph), key) {
      return ps;
    }
    if items == [] {
      var emptied := ReplaceTextInParagraph(paragraph, key, []);
      assert ps[a := emptied] == ps[..a] + [emptied] + ps[a + 1..];
      return ps[a := emptied];
    }
    var found := FindTemplateRun(paragraph.runs, key);
    if found.None? {
      return ps;
    }
    var templateRun := paragraph.runs[found.value];
    var anchor := ReplaceTextInParagraph(paragraph, key, BulletGlyph + items[0]);
    qs := InsertBulletParagraphs(ps[a := anchor], a, paragraph, templateRun, items[1..]);
    ReplaceAndInsert(ps, a, anchor, BulletParagraphs(paragraph, templateRun, items[1..]));
    assert BulletBlock(paragraph, key, items) == [anchor] + BulletParagraphs(paragraph, templateRun, items[1..]);
  }

  /** Multi-line expansion changes nothing when the paragraph's text lacks
      the key. Otherwise it yields exactly one paragraph per line: the anchor
      with the first line in place of the key, then one new paragraph per
      further line, in order, each holding just that line (no line break
      left) in the anchor's paragraph formatting; the first line and the new
      paragraphs' texts rejoin to the whole text. */
  lemma MultilineExpansion(p: Paragraph, key: string, text: string)
    requires key != []
    ensures !Contains(ParagraphText(p), key) ==> MultilineBlock(p, key, text) == [p]
    ensures Contains(ParagraphText(p), key) ==>
      var lines := Split(text, LineBreak);
      var b := MultilineBlock(p, key, text);
      && |b| == |lines|
      && b[0] == Substitute(p, key, lines[0])
      && ParagraphTexts(b[1..]) == lines[1..]
      && (forall k :: 1 <= k < |b| ==>
            && !Contains(ParagraphText(b[k]), LineBreak)
            && ShowsParagraphFormatting(b[k].format, p.format))
      && Join([lines[0]] + ParagraphTexts(b[1..]), LineBreak) == text
  {
    if Contains(ParagraphText(p), key) {
      var lines := Split(text, LineBreak);
      var b := MultilineBlock(p, key, text);
      var rest := LineParagraphs(p, lines[1..]);
      assert b[1..] == rest;
      SplitPiecesAvoidSep(text, LineBreak);
      SplitJoinRoundTrip(text, LineBreak);
      LineParagraphsShape(p, lines[1..]);
      assert [lines[0]] + lines[1..] == lines;
      forall k | 1 <= k < |b|
        ensures !Contains(ParagraphText(b[k]), LineBreak) && ShowsParagraphFormatting(b[k].format, p.format)
      {
        assert b[k] == rest[k - 1];
        assert ParagraphText(rest[k - 1]) == lines[k];
      }
    }
  }

  /** The paragraphs inserted for further lines hold those lines as their
      texts, in order, each in the anchor's paragraph formatting. */
  lemma LineParagraphsShape(anchor: Paragraph, lines: seq<string>)
    ensures ParagraphTexts(LineParagraphs(anchor, lines)) == lines
    ensures forall k :: 0 <= k < |lines| ==>
      ShowsParagraphFormatting(LineParagraphs(anchor, lines)[k].format, anchor.format)
  {
    var b := LineParagraphs(anchor, lines);
    forall k | 0 <= k < |lines|
      ensures ParagraphText(b[k]) == lines[k] && ShowsParagraphFormatting(b[k].format, anchor.format)
    {
      LineParagraphsAt(anchor, lines, k);
    }
  }

  /** Bullet expansion changes nothing when the paragraph's text lacks the
      key, and nothing when the list is non-empty but no single run holds the
      key; with an empty list it removes the key and inserts nothing. */
  lemma BulletExpansionNoOp(p: Paragraph, key: string, items: seq<string>)
    requires key != []
    ensures !Contains(ParagraphText(p), key) ==> BulletBlock(p, key, items) == [p]
    ensures items != [] && (forall i :: 0 <= i < |p.runs| ==> !Contains(p.runs[i].text, key))
            ==> BulletBlock(p, key, items) == [p]
    ensures Contains(ParagraphText(p), key) && items == []
            ==> BulletBlock(p, key, items) == [Substitute(p, key, [])]
  {
  }

  /** Bullet expansion with a non-empty list, when run `t` is the first run
      holding the key whole: exactly one paragraph per item, the anchor with
      the bullet glyph and the first item in place of the key, then one new
      paragraph per further item, in order, each with a single run holding
      the glyph and the item, in the template run's font and the anchor's
      paragraph formatting. */
  lemma BulletExpansion(p: Paragraph, key: string, items: seq<string>, t: nat)
    requires key != [] && items != []
    requires t < |p.runs| && Contains(p.runs[t].text, key)
    requires forall i :: 0 <= i < t ==> !Contains(p.runs[i].text, key)
    ensures var b := BulletBlock(p, key, items);
      && |b| == |items|
      && b[0] == Substitute(p, key, BulletGlyph + items[0])
      && forall k :: 1 <= k < |b| ==>
           && |b[k].runs| == 1
           && b[k].runs[0].text == BulletGlyph + items[k]
           && ShowsRunFormatting(b[k].runs[0].font, p.runs[t].font)
           && ShowsParagraphFormatting(b[k].format, p.format)
  {
    RunKeyInText(p.runs, t, key);
    assert FirstRunHolding(p.runs, key) == Some(t);
    var b := BulletBlock(p, key, items);
    forall k | 1 <= k < |b|
      ensures b[k] == BulletParagraph(p, p.runs[t], items[k])
    {
      BulletParagraphsAt(p, p.runs[t], items[1..], k - 1);
    }
  }

  /** The outcome of a Python call that may raise. */
  datatype Raised = AttributeError

  /** A finished call and its result, or a raised error and the state the
      call had reached when it raised. */
  datatype Outcome<T> = Completed(result: T) | Failed(error: Raised, partial: T)

  /** `replace_with_multiline_text` as written: the first line replaces the
      key, then the insertion of the first further line asks the anchor's
      parent XML element for `add_paragraph` (Placeholder_Insertion.py:58),
      a method of python-docx's cell wrapper that the table-cell element does
      not have, so the call raises with the anchor already rewritten. */
  function MultilineAsWritten(ps: seq<Paragraph>, a: nat, key: string, text: string): (o: Outcome<seq<Paragraph>>)
    requires a < |ps| && key != []
  {
    if !Contains(ParagraphText(ps[a]), key) then Completed(ps)
    else
      var lines := Split(text, LineBreak);
      var anchored := ps[a := Substitute(ps[a], key, lines[0])];
      if |lines| > 1 then Failed(AttributeError, anchored) else Completed(anchored)
  }

  /** A text without a line break expands to the anchor alone, rewritten
      when it holds the key. */
  lemma MultilineBlockSingleLine(p: Paragraph, key: string, text: string)
    requires key != [] && !Contains(text, LineBreak)
    ensures MultilineBlock(p, key, text)
         == if Contains(ParagraphText(p), key) then [Substitute(p, key, text)] else [p]
  {
    SplitAbsent(text, LineBreak);
    assert Split(text, LineBreak)[1..] == [];
  }

  /** The code as written and the intended expansion agree exactly on texts
      without a line break; on a text with one, the code raises while the
      intended expansion inserts at least one paragraph. */
  lemma MultilineAsWrittenDiffers(ps: seq<Paragraph>, a: nat, key: string, text: string)
    requires a < |ps| && key != []
    ensures !Contains(text, LineBreak) ==>
      MultilineAsWritten(ps, a, key, text) == Completed(ps[..a] + MultilineBlock(ps[a], key, text) + ps[a + 1..])
    ensures Contains(ParagraphText(ps[a]), key) && Contains(text, LineBreak) ==>
      && MultilineAsWritten(ps, a, key, text).Failed?
      && |MultilineBlock(ps[a], key, text)| >= 2
  {
    if !Contains(text, LineBreak) {
      MultilineBlockSingleLine(ps[a], key, text);
      assert ps == ps[..a] + [ps[a]] + ps[a + 1..];
      if Contains(ParagraphText(ps[a]), key) {
        SplitAbsent(text, LineBreak);
        assert ps[a := Substitute(ps[a], key, text)]
            == ps[..a] + [Substitute(ps[a], key, text)] + ps[a + 1..];
      }
    } else if Contains(ParagraphText(ps[a]), key) {
      SplitAtSep(text, LineBreak);
    }
  }
}
