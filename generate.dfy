/** Resume generation: a loaded template's tables are filled in three
    passes over every table, row, cell and paragraph: the simple
    replacements, then education, skills and languages, then the
    work-experience rows. */
module Generate {
  import opened Wrappers
  import opened Docx
  import opened ResumeData
  import opened Fill
  import opened WorkExperience

  /** The tables once a resume has been generated from them. */
  function Generated(tables: seq<Table>, data: Resume): (generated: seq<Table>) {
    var contacted := FilledTables(tables, Contact(data));
    var sectioned := FilledTables(contacted, Sections(data));
    WorkExperienceFilled(sectioned, data.workExperience.GetOr([]))
  }

  /** Two earlier passes keep the number of tables, and the work-experience
      pass changes at most the first table holding a template row. */
  lemma GeneratedShape(tables: seq<Table>, data: Resume)
    ensures |Generated(tables, data)| == |tables|
    ensures var sectioned := FilledTables(FilledTables(tables, Contact(data)), Sections(data));
      forall j :: 0 <= j < |tables| && Some(j) != FirstTemplateTable(sectioned) ==>
        Generated(tables, data)[j] == sectioned[j]
  {
    var sectioned := FilledTables(FilledTables(tables, Contact(data)), Sections(data));
    WorkExperienceChangesOneTable(sectioned, data.workExperience.GetOr([]));
  }

  /** The document being filled: its tables, in order. */
  class Document {
    var tables: seq<Table>

    constructor(tables: seq<Table>)
      ensures this.tables == tables
    {
      this.tables := tables;
    }

    /** One pass over every table, in order. */
    method FillPass(f: Filler)
      modifies this
      ensures tables == FilledTables(old(tables), f)
    {
      var input := tables;
      var i := 0;
      while i < |tables|
        invariant 0 <= i <= |tables| == |input|
        invariant tables == FilledTables(input[..i], f) + input[i..]
      {
        var u := FillTable(input[i], f);
        FilledTablesStep(input, i, f, tables, u);
        tables := tables[i := u];
        i := i + 1;
      }
      assert input[..i] == input;
    }

    /** The work-experience pass: the tables are visited in order; the first
        that holds a template row has it replaced by one filled copy per
        record, and the visit stops there. */
    method FillWorkExperience(records: seq<Experience>)
      modifies this
      ensures tables == WorkExperienceFilled(old(tables), records)
    {
      var input := tables;
      var t := 0;
      while t < |input|
        invariant 0 <= t <= |input|
        invariant tables == input
        invariant forall j :: 0 <= j < t ==> TemplateRow(input[j].rows).None?
      {
        var ix := FindTemplateRows(input[t].rows);
        if ix != [] {
          FirstTemplateTableAt(input, t);
          var rows := InsertExperienceRows(input[t].rows, ix[0], records);
          tables := input[t := Table(rows)];
          return;
        }
        t := t + 1;
      }
      FirstTemplateTableIsFirst(input);
    }

    /** `generate_resume` on a loaded template: the simple replacements,
        then education, skills and languages, then the work-experience
        rows. */
    method Generate(data: Resume)
      modifies this
      ensures tables == Generated(old(tables), data)
    {
      FillPass(Contact(data));
      FillPass(Sections(data));
      FillWorkExperience(data.workExperience.GetOr([]));
    }
  }
}
