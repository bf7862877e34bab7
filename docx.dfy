/** The word-processor document tree the engine edits: tables of rows of
    cells of paragraphs of formatted runs. Formatting values (lengths in EMU,
    colours, style ids) are carried as opaque optional values; `None` is an
    attribute the document leaves unset. */
module Docx {
  import opened Wrappers
  import opened Strings

  /** A colour given by its red, green and blue channels. */
  datatype Rgb = Rgb(red: nat, green: nat, blue: nat)

  datatype Alignment = Left | Center | Right | Justify

  /** Character formatting of a run. The first six attributes are the ones
      run formatting is copied by; `strike` and `highlight` stand for the
      attributes it leaves alone. */
  datatype Font = Font(
    name: Option<string>,
    size: Option<int>,
    bold: Option<bool>,
    italic: Option<bool>,
    underline: Option<bool>,
    color: Option<Rgb>,
    strike: Option<bool>,
    highlight: Option<nat>)

  /** Paragraph formatting. The first six attributes are the ones paragraph
      formatting is copied by; `firstLineIndent` and `lineSpacing` stand for
      the attributes it leaves alone. */
  datatype ParagraphFormat = ParagraphFormat(
    style: Option<string>,
    alignment: Option<Alignment>,
    spaceBefore: Option<int>,
    spaceAfter: Option<int>,
    leftIndent: Option<int>,
    rightIndent: Option<int>,
    firstLineIndent: Option<int>,
    lineSpacing: Option<int>)

  datatype Run = Run(text: string, font: Font)

  datatype Paragraph = Paragraph(format: ParagraphFormat, runs: seq<Run>)

  datatype Cell = Cell(paragraphs: seq<Paragraph>)

  datatype Row = Row(cells: seq<Cell>)

  datatype Table = Table(rows: seq<Row>)

  /** The font of a freshly added run: nothing set. */
  const DefaultFont := Font(None, None, None, None, None, None, None, None)

  /** The format of a freshly added paragraph: nothing set. */
  const DefaultFormat := ParagraphFormat(None, None, None, None, None, None, None, None)

  /** The concatenated text of a list of runs. */
  function RunsText(runs: seq<Run>): (text: string) {
    if runs == [] then [] else runs[0].text + RunsText(runs[1..])
  }

  /** `paragraph.text`: its runs' texts concatenated. */
  function ParagraphText(p: Paragraph): (text: string) {
    RunsText(p.runs)
  }

  /** The texts of a list of paragraphs, in order. */
  function ParagraphTexts(ps: seq<Paragraph>): (ts: seq<string>)
    ensures |ts| == |ps|
    ensures forall i :: 0 <= i < |ps| ==> ts[i] == ParagraphText(ps[i])
  {
    seq(|ps|, i requires 0 <= i < |ps| => ParagraphText(ps[i]))
  }

  /** `cell.text`: its paragraphs' texts joined by line breaks. */
  function CellText(c: Cell): (text: string) {
    Join(ParagraphTexts(c.paragraphs), "\n")
  }

  /** The concatenated text of a list of cells. */
  function CellsText(cells: seq<Cell>): (text: string) {
    if cells == [] then [] else CellText(cells[0]) + CellsText(cells[1..])
  }

  /** The text of a row: its cells' texts concatenated with no separator. */
  function RowText(r: Row): (text: string) {
    CellsText(r.cells)
  }

  /** A placeholder held whole by one run is in the paragraph's text. */
  lemma {:induction false} RunKeyInText(runs: seq<Run>, i: nat, key: string)
    requires i < |runs| && Contains(runs[i].text, key)
    ensures Contains(RunsText(runs), key)
  {
    if i == 0 {
      ContainsInPrefix(runs[0].text, RunsText(runs[1..]), key);
    } else {
      RunKeyInText(runs[1..], i - 1, key);
      ContainsInSuffix(runs[0].text, RunsText(runs[1..]), key);
    }
  }

  /** A paragraph of one run has that run's text. */
  lemma OneRunText(format: ParagraphFormat, r: Run)
    ensures ParagraphText(Paragraph(format, [r])) == r.text
  {
    assert RunsText([r]) == r.text + RunsText([r][1..]);
    assert [r][1..] == [];
  }
}
