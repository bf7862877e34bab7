/** Formatting propagation: copying run-level and paragraph-level
    attributes from a source node onto a target node. */
module Formatting {
  import opened Wrappers
  import opened Docx

  /** `target` shows the run formatting of `source`: the same font name, size,
      bold, italic and underline, and the same colour whenever `source` has
      one. */
  predicate ShowsRunFormatting(target: Font, source: Font) {
    && target.name == source.name
    && target.size == source.size
    && target.bold == source.bold
    && target.italic == source.italic
    && target.underline == source.underline
    && (source.color.Some? ==> target.color == source.color)
  }

  /** `target` shows the paragraph formatting of `source`: the same style,
      alignment, spacing before and after, and left and right indent. */
  predicate ShowsParagraphFormatting(target: ParagraphFormat, source: ParagraphFormat) {
    && target.style == source.style
    && target.alignment == source.alignment
    && target.spaceBefore == source.spaceBefore
    && target.spaceAfter == source.spaceAfter
    && target.leftIndent == source.leftIndent
    && target.rightIndent == source.rightIndent
  }

  /** `copy_run_formatting`: a missing run on either side makes it a no-op;
      otherwise the target run takes the source's font attributes (its colour
      only when the source has one) and keeps its text and its other
      attributes. */
  function CopyRunFormatting(source: Option<Run>, target: Option<Run>): (r: Option<Run>)
    ensures source.None? || target.None? ==> r == target
    ensures source.Some? && target.Some? ==>
      && r.Some?
      && r.value.text == target.value.text
      && ShowsRunFormatting(r.value.font, source.value.font)
      && (source.value.font.color.None? ==> r.value.font.color == target.value.font.color)
      && r.value.font.strike == target.value.font.strike
      && r.value.font.highlight == target.value.font.highlight
  {
    if source.None? || target.None? then target
    else
      var s, t := source.value.font, target.value.font;
      var color := if s.color.Some? then s.color else t.color;
      Some(target.value.(font := t.(name := s.name, size := s.size, bold := s.bold,
                                    italic := s.italic, underline := s.underline,
                                    color := color)))
  }

  /** `copy_paragraph_formatting`: the target paragraph takes the source's
      style, alignment, spacing and indents, and keeps its runs and its other
      attributes. */
  function CopyParagraphFormatting(source: Paragraph, target: Paragraph): (r: Paragraph)
    ensures r.runs == target.runs
    ensures ShowsParagraphFormatting(r.format, source.format)
    ensures r.format.firstLineIndent == target.format.firstLineIndent
    ensures r.format.lineSpacing == target.format.lineSpacing
  {
    var s := source.format;
    target.(format := target.format.(style := s.style, alignment := s.alignment,
                                     spaceBefore := s.spaceBefore, spaceAfter := s.spaceAfter,
                                     leftIndent := s.leftIndent, rightIndent := s.rightIndent))
  }

  /** Copying run formatting changes a run exactly when it does not already
      show the source's formatting, so a second copy changes nothing. */
  lemma CopyRunFormattingFixedPoints(source: Run, target: Run)
    ensures CopyRunFormatting(Some(source), Some(target)) == Some(target)
            <==> ShowsRunFormatting(target.font, source.font)
    ensures var once := CopyRunFormatting(Some(source), Some(target));
            CopyRunFormatting(Some(source), once) == once
  {
  }

  /** Copying paragraph formatting changes a paragraph exactly when it does
      not already show the source's formatting, so a second copy changes
      nothing. */
  lemma CopyParagraphFormattingFixedPoints(source: Paragraph, target: Paragraph)
    ensures CopyParagraphFormatting(source, target) == target
            <==> ShowsParagraphFormatting(target.format, source.format)
    ensures var once := CopyParagraphFormatting(source, target);
            CopyParagraphFormatting(source, once) == once
  {
  }
}
