# Resume template filling, modelled in Dafny

This project models the template-substitution engine of the resume
generator in `Placeholder_Insertion.py`. It takes a loaded word-processor
template (tables of rows of cells of paragraphs of formatted runs) and a
structured resume, and fills the template in three passes over every
table, row, cell and paragraph:

1. **Simple replacements.** `{NAME}`, `{CONTACT}` and `{EMAIL}` are replaced
   run by run, in that order.
2. **Sections.** `{EDUCATION}` becomes the rendered education text, expanded
   over one paragraph per line. `{SKILLS}` and `{LANGUAGES}` become bulleted
   paragraphs. Each step acts on the paragraph the previous step left.
3. **Work experience.** In the first table that has a template row (a row
   whose text names `{COMPANYNAME}`, `{DURATION}`, `{JOBTITLE}`,
   `{JOBDESCRIPTION}` or `{ACHIEVEMENTS}`), the first template row is
   replaced by one filled copy per work-experience record, in the records'
   order.

Two lines of the source raise as written; both are listed under "Findings"
below. Line 58 raises on an education text of more than one line. Line 161
raises as soon as there is one work-experience record. Passes 2 and 3 are
modelled with those two lines corrected to what they evidently intend, and
the code as written is modelled beside them.

The document tree is made of values (`Docx`). The document itself is a
class, `Generate.Document`, whose `tables` field the three passes update
in place. The paragraph-level operations are methods with the source's
loops. Each takes a cell's paragraph list and the index of the anchor
paragraph, and returns the new list. Each method is proved against a
specification function: `MultilineBlock`, `BulletBlock`, `Block`, `Expand`,
`FilledTables`, `ExpandTemplate` or `WorkExperienceFilled`. The properties
the generator promises are proved about those functions as lemmas.

A pass iterates over a snapshot of a cell's paragraphs (`list(cell.paragraphs)`).
The paragraphs it inserts are therefore never visited. Each visited
paragraph becomes a *block*: itself rewritten, followed by the paragraphs
inserted after it. The cell becomes the blocks of its paragraphs in order.

Python's `key in s`, `s.replace`, `s.split` and `sep.join` are modelled
in `Strings`. Their round trips are proved there.

Behaviours the model keeps, in the corrected reading of lines 58 and 161:
- A paragraph added for an empty line has no run at all, because
  `add_paragraph("")` adds none.
- Run formatting copies the colour only when the source run has one
  (`Placeholder_Insertion.py:28`).
- When a table has several template rows, the first one is used
  (`Placeholder_Insertion.py:154`).
- Each copy of the template row is inserted right after the template row,
  from the last record to the first, and then filled in place
  (`Placeholder_Insertion.py:157-171`). The model proves that the records
  end up in order.

## Model

| member | source | states |
|---|---|---|
| Strings.ReplaceAllAbsent | Placeholder_Insertion.py:16-17 | replacing a key that does not occur leaves the text unchanged, so the `key in run.text` guard changes nothing observable |
| Strings.ReplaceAllIsJoinOfSplit | Placeholder_Insertion.py:17 | `s.replace(key, value)` equals `value.join(s.split(key))` for every string |
| Strings.SplitJoinRoundTrip | Placeholder_Insertion.py:50 | joining the pieces of `split` with the separator gives back the text |
| Strings.SplitAbsent | Placeholder_Insertion.py:50 | a text without the separator splits into exactly itself |
| Strings.SplitAtSep | Placeholder_Insertion.py:50 | a text holding the separator splits into at least two pieces |
| Strings.SplitPiecesAvoidSep | Placeholder_Insertion.py:50 | no piece of a split contains the separator |
| Strings.JoinSplitRoundTrip | Placeholder_Insertion.py:129-130 | pieces free of a one-character separator are recovered exactly by splitting their join |
| Strings.JoinAppend | Placeholder_Insertion.py:130 | joining two non-empty lists of pieces puts one separator between their joins |
| Strings.JoinHasSep | Placeholder_Insertion.py:130 | joining two or more pieces puts the separator into the result |
| Docx.RunKeyInText | Placeholder_Insertion.py:15-16 | a key held whole by one run is in the paragraph's text |
| Formatting.CopyRunFormatting | Placeholder_Insertion.py:20-29 | a missing run on either side is a no-op; otherwise the target keeps its text and other attributes and shows the source's name, size, bold, italic and underline, and its colour when the source has one |
| Formatting.CopyRunFormattingFixedPoints | Placeholder_Insertion.py:20-29 | copying changes a run exactly when it does not already show the source's formatting; a second copy changes nothing |
| Formatting.CopyParagraphFormatting | Placeholder_Insertion.py:31-39 | the target keeps its runs and other attributes and shows the source's style, alignment, spacing and indents |
| Formatting.CopyParagraphFormattingFixedPoints | Placeholder_Insertion.py:31-39 | copying changes a paragraph exactly when it does not already show the source's formatting; a second copy changes nothing |
| Substitution.SubstituteRunsAt | Placeholder_Insertion.py:15-17 | the `i`th run after substitution is the `i`th run with its text replaced |
| Substitution.ReplaceTextInParagraph | Placeholder_Insertion.py:14-17 | the run loop yields the paragraph with every run's text replaced |
| Substitution.SubstituteWholeRun | Placeholder_Insertion.py:14-17 | a one-run paragraph whose run is exactly the key ends up holding exactly the value in the same font |
| Substitution.SubstituteKeepsFormatting | Placeholder_Insertion.py:14-17 | substitution keeps the paragraph format, the run count, the order and every font; each run's text is its replaced text, and a run lacking the key is unchanged |
| Substitution.SubstituteSingleRun | Placeholder_Insertion.py:14-17 | in a one-run paragraph, substitution rewrites exactly that run |
| Substitution.SubstituteAbsent | Placeholder_Insertion.py:14-17 | a paragraph none of whose runs holds the key is unchanged |
| Substitution.NoRunHoldsAbsentKey | Placeholder_Insertion.py:15-16 | when the paragraph's text lacks the key, no run holds it |
| Substitution.SplitPlaceholderIsNotReplaced | Placeholder_Insertion.py:12-17 | a placeholder split across two runs is in the paragraph's text, yet substitution leaves the paragraph unchanged |
| Expansion.NewParagraph | Placeholder_Insertion.py:58 | a paragraph added with a text holds exactly that text, in one default-font run, or in no run at all when the text is empty, and has no paragraph formatting set |
| Expansion.LineParagraphsAt | Placeholder_Insertion.py:57-59 | the `i`th inserted paragraph is the one made for line `i` |
| Expansion.LineParagraphsShape | Placeholder_Insertion.py:57-59 | the inserted paragraphs hold the further lines as their texts, in order, in the anchor's paragraph formatting |
| Expansion.BulletParagraphsAt | Placeholder_Insertion.py:88-92 | the `i`th inserted paragraph is the one made for item `i` |
| Expansion.FirstRunHolding | Placeholder_Insertion.py:73-77 | the result is the first run holding the key; there is none exactly when no run holds it |
| Expansion.FindTemplateRun | Placeholder_Insertion.py:73-77 | the run search returns the first run holding the key, or none |
| Expansion.InsertLineParagraphs | Placeholder_Insertion.py:56-62 | the insertion loop puts the line paragraphs, in order, directly after the anchor and moves nothing else |
| Expansion.InsertBulletParagraphs | Placeholder_Insertion.py:87-94 | the insertion loop puts the bullet paragraphs, in order, directly after the anchor and moves nothing else |
| Expansion.ReplaceWithMultilineText | Placeholder_Insertion.py:43-62 | the paragraph list becomes the anchor's multi-line block in place of the anchor, with the paragraphs before and after unchanged |
| Expansion.ReplaceWithBulletPoints | Placeholder_Insertion.py:65-94 | the paragraph list becomes the anchor's bullet block in place of the anchor, with the paragraphs before and after unchanged |
| Expansion.MultilineExpansion | Placeholder_Insertion.py:43-62 | a paragraph without the key stays as it was. Otherwise there is one paragraph per line: the anchor holds line 0 in place of the key, and the new paragraphs hold the further lines in order, with no line break and in the anchor's formatting. Together they rejoin to the text |
| Expansion.BulletExpansionNoOp | Placeholder_Insertion.py:65-79 | a paragraph without the key is unchanged; an empty list only removes the key; a key that no single run holds leaves the paragraph unchanged |
| Expansion.BulletExpansion | Placeholder_Insertion.py:81-94 | there is one paragraph per item. The anchor holds the glyph and the first item in place of the key. Each further item gets a one-run paragraph with the glyph and the item, in the template run's font and the anchor's formatting |
| Expansion.MultilineBlockSingleLine | Placeholder_Insertion.py:47-53 | a text without a line break leaves the anchor alone, with the key replaced when the paragraph names it |
| Expansion.MultilineAsWrittenDiffers | Placeholder_Insertion.py:53-58 | the code as written agrees with the intended expansion on texts without a line break; on texts with one it raises, where the intended expansion inserts paragraphs |
| ResumeData.EntryFields | Placeholder_Insertion.py:129 | there is one non-empty line per present, non-empty field, so none exactly when every field is missing or empty. The degree comes first, the institution after the degree, the year after those two, and `CGPA: <cgpa>` last |
| ResumeData.EntryBlocks | Placeholder_Insertion.py:129 | there is one block per education entry |
| ResumeData.EntryBlocksAt | Placeholder_Insertion.py:129 | block `i` is entry `i`'s fields joined by line breaks |
| ResumeData.EntryLinesHaveNoBreak | Placeholder_Insertion.py:129 | an entry whose values are on one line contributes lines without a line break |
| ResumeData.FormatEducationIsJoinOfLines | Placeholder_Insertion.py:129-130 | the education text is the entries' lines joined by line breaks, with an empty line between entries |
| ResumeData.EducationLinesHaveNoBreak | Placeholder_Insertion.py:129-130 | with one-line values, no line of the education text holds a break |
| ResumeData.EducationLinesRoundTrip | Placeholder_Insertion.py:129-131 | splitting the education text at line breaks gives the entries' lines exactly, with an empty line between entries |
| Fill.SimpleReplacements | Placeholder_Insertion.py:108-112 | every key of the simple replacements is non-empty, so each substitution in turn is defined |
| Fill.SubstituteAllKeepsFormatting | Placeholder_Insertion.py:117-118 | the replacements in turn keep the paragraph format, the run count and every font |
| Fill.SubstituteAllAbsent | Placeholder_Insertion.py:117-118 | a paragraph none of whose runs holds any key is unchanged |
| Fill.SubstituteAllPrefix | Placeholder_Insertion.py:117-118 | substituting one more pair substitutes it in the result of the earlier pairs |
| Fill.SubstituteThree | Placeholder_Insertion.py:117-118 | three pairs are three substitutions, in order |
| Fill.SubstitutionCascades | Placeholder_Insertion.py:108-118 | later keys are looked for in earlier output: a name equal to `{EMAIL}` ends up as the e-mail address |
| Fill.EducationExpansion | Placeholder_Insertion.py:126-133 | a paragraph without the key is unchanged, and an empty or missing list removes the key. With one-line values, there is one paragraph per line of the education text: the anchor holds the first line, and the rest hold the further lines in the anchor's formatting |
| Fill.SectionsUntouched | Placeholder_Insertion.py:124-139 | a paragraph naming none of `{EDUCATION}`, `{SKILLS}`, `{LANGUAGES}` is unchanged by the second pass |
| Fill.RecordUntouched | Placeholder_Insertion.py:163-171 | filling a copied row leaves a paragraph naming none of the five work-experience placeholders as it was |
| Fill.RecordJobDescription | Placeholder_Insertion.py:163-171 | a paragraph holding just `{JOBDESCRIPTION}` in one run becomes one paragraph per job-description item: the anchor holds the glyph and the first item in the run's font, and each further item gets a one-run paragraph in that font and the anchor's formatting. An empty or missing list leaves one empty run |
| Fill.ExpandAppend | Placeholder_Insertion.py:124 | over a snapshot each paragraph is expanded on its own: the expansion of a concatenation is the concatenation of expansions |
| Fill.ExpandUntouched | Placeholder_Insertion.py:121-139 | a pass whose block for every paragraph is the paragraph alone leaves the list unchanged |
| Fill.ContactPassIsPointwise | Placeholder_Insertion.py:113-118 | the first pass keeps a cell's paragraphs one for one, each with the simple replacements made |
| Fill.FillContactAt | Placeholder_Insertion.py:117-118 | the replacement loop puts the paragraph's first-pass block in its place |
| Fill.FillEducationAt | Placeholder_Insertion.py:126-133 | the education step puts the paragraph's education block in its place |
| Fill.FillBulletsAt | Placeholder_Insertion.py:136-139 | a guarded bullet step puts the paragraph's bullet block in its place |
| Fill.FillSectionsAt | Placeholder_Insertion.py:125-139 | education, then skills, then languages put the paragraph's second-pass block in its place. Languages come first, then skills, then further education lines |
| Fill.FillRecordAt | Placeholder_Insertion.py:163-171 | the three scalar fields, then job-description bullets, then achievement bullets, put the paragraph's record block in its place |
| Fill.FillParagraphAt | Placeholder_Insertion.py:116-171 | one visit of a pass puts the paragraph's block in its place |
| Fill.ExpandSnapshotStep | Placeholder_Insertion.py:124 | visiting the next paragraph of the snapshot appends its block; the next paragraph to visit moves down past the inserted ones |
| Fill.FillCell | Placeholder_Insertion.py:123-124 | the walk over a snapshot of a cell's paragraphs yields the blocks of the snapshot's paragraphs, in order |
| Fill.FillRow | Placeholder_Insertion.py:122-123 | a row pass fills each cell in order |
| Fill.FillTable | Placeholder_Insertion.py:121-122 | a table pass fills each row in order |
| Fill.EducationAsWrittenRaises | Placeholder_Insertion.py:126-131 | as written, an education text of two or more lines raises on a paragraph naming `{EDUCATION}` |
| WorkExperience.PositionsExact | Placeholder_Insertion.py:145-149 | the recorded indices are exactly the flagged rows, each once, in increasing order |
| WorkExperience.FirstPosition | Placeholder_Insertion.py:149-154 | the first recorded index is the first flagged row; there is none exactly when no row is flagged |
| WorkExperience.FindTemplateRows | Placeholder_Insertion.py:145-149 | the row scan records the indices of the template rows, in order |
| WorkExperience.TemplateRowIsFirst | Placeholder_Insertion.py:151-154 | the row copied is the first template row; there is none exactly when no row names a placeholder |
| WorkExperience.ExperienceRowsAt | Placeholder_Insertion.py:157-171 | the `k`th copy is the template row filled with the `k`th record |
| WorkExperience.InsertExperienceRows | Placeholder_Insertion.py:154-175 | reversed insertion right after the template row, filling each copy, then removing the template row, leaves the filled copies in record order in its place |
| WorkExperience.ExperienceRowsAsWrittenDiffers | Placeholder_Insertion.py:157-175 | as written, the row step agrees with the intended one when there are no records. With at least one record it raises after the first copy is inserted, leaving the template row twice and unfilled, where the intended step puts the first record's filled copy in its place |
| WorkExperience.ExpandTemplateShape | Placeholder_Insertion.py:154-175 | rows before the template are kept and rows after it move by one less than the record count. Copy `k` sits at the template's index plus `k` |
| WorkExperience.FirstTemplateTable | Placeholder_Insertion.py:144-152 | the chosen table exists and holds a template row |
| WorkExperience.FirstTemplateTableIsFirst | Placeholder_Insertion.py:144-152 | the chosen table is the first one holding a template row; there is none exactly when no table holds one |
| WorkExperience.FirstTemplateTableAt | Placeholder_Insertion.py:144-152 | a table holding a template row after tables holding none is the chosen one |
| WorkExperience.WorkExperienceChangesOneTable | Placeholder_Insertion.py:142-176 | only the first template table changes. In it the first template row gives way to one filled copy per record, in order; the other rows keep their order. Without a template row nothing changes |
| Generate.GeneratedShape | Placeholder_Insertion.py:107-176 | generation keeps the number of tables and changes nothing after the second pass except the first template table |
| Generate.Document.constructor | Placeholder_Insertion.py:102 | the document holds the template's tables |
| Generate.Document.FillPass | Placeholder_Insertion.py:113-139 | a pass over every table, row, cell and paragraph leaves the tables as the pass's specification says |
| Generate.Document.FillWorkExperience | Placeholder_Insertion.py:142-176 | the table loop leaves the tables as the work-experience pass's specification says, stopping at the first template table |
| Generate.Document.Generate | Placeholder_Insertion.py:107-176 | the three passes, in order, leave the tables as the generated tables |

## Left out

- Opening the template and saving the result (`Placeholder_Insertion.py:101-105`, `178-186`) and the error reporting through the web UI: these are I/O. The model starts from the loaded tables and ends with the filled tables.
- `app.py`, `Text_Conversion.py` and `Text_Extraction.py` are not part of this model.
- Values are strings: `str(value)` at line 17 is the identity, and a JSON value that is not a string is not modelled. A `null` value is modelled as a missing key. For the lists this is what the code does: a `null` education is falsy (line 128), so the key is removed at line 133, and a `null` skills, languages, job description or achievements list is caught by `if not bullet_points` (lines 69-71). A `null` scalar would be rendered as the text `None` by `str`, and a `null` work-experience list raises at `reversed(None)` (line 157); neither is modelled.
- Runs inside hyperlinks are not represented. In python-docx 1.0 and later, `paragraph.text` includes their text but `paragraph.runs` does not list them, so a key held in such a run passes the guards at lines 47 and 66 and is never replaced.
- python-docx proxies and lxml elements are modelled as values. A paragraph is addressed by its index in its cell, and a deep copy of a row is the row value itself. Aliasing between proxies and elements is not captured.
- Merged cells (a cell repeated in `row.cells`) and tables nested in cells are not modelled. Paragraphs outside tables are not visited by the generator and are not represented.
- Formatting values (lengths, colours, style ids) are opaque optional values. Only their copying is modelled, not their meaning.
- Substitution requires a non-empty key. Every key the generator uses is a non-empty constant.
- Fill.SimpleReplacements: its contract states only that the keys are non-empty. The pairs themselves are its definition.
- ResumeData.EntryLinesHaveNoBreak: requires the entry's values to be on one line. A value holding a line break would put a break inside one of the entry's lines.
- ResumeData.EducationLinesHaveNoBreak: requires every value to be on one line, for the same reason.
- ResumeData.EducationLinesRoundTrip: requires every value to be on one line. Otherwise splitting the education text yields more lines than the entries have fields, and the round trip does not hold.
- Fill.EducationExpansion: its one-paragraph-per-line statement requires every value to be on one line. For other values, Expansion.MultilineExpansion still describes the result line by line.

## Findings

| source | as written | input that shows it | evidently intended | confidence | as-written member | corrected member |
|---|---|---|---|---|---|---|
| Placeholder_Insertion.py:58 | `current_paragraph_element.getparent().add_paragraph(line)` asks the cell's XML element for `add_paragraph`, which only python-docx's cell wrapper has, so the call raises `AttributeError` after the anchor was rewritten | a template cell paragraph holding `{EDUCATION}` and a resume with two education entries, or one entry with both a degree and an institution | add each further line as a new paragraph of the cell, formatted like the anchor and placed after the previous one, as the bullet code does at line 89 | medium, not executed | Fill.EducationAsWrittenRaises | Expansion.MultilineExpansion |
| Placeholder_Insertion.py:161 | `table.rows[template_row_to_copy.idx + 1]` reads `idx` from python-docx's row wrapper, whose index attribute is `_index`, so the lookup raises `AttributeError` right after the first copy of the template row was inserted | a template table with a row naming `{COMPANYNAME}` and a resume with one work-experience record | look up the row just inserted after the template row (index `_index + 1`) and fill it, so that the filled copies replace the template row in record order | medium, not executed | WorkExperience.ExperienceRowsAsWrittenDiffers | WorkExperience.InsertExperienceRows |

