/** The work-experience pass: in the first table holding a template row (a
    row whose text names one of the work-experience placeholders), the
    first template row is replaced by one filled copy per record, in the
    records' order; every other table and row is left as it was. */
module WorkExperience {
  import opened Wrappers
  import opened Strings
  import opened Docx
  import opened ResumeData
  import opened Expansion
  import opened Fill

  /** The row's text names at least one work-experience placeholder. */
  predicate IsTemplateRow(r: Row) {
    || Contains(RowText(r), CompanyKey)
    || Contains(RowText(r), DurationKey)
    || Contains(RowText(r), JobTitleKey)
    || Contains(RowText(r), JobDescriptionKey)
    || Contains(RowText(r), AchievementsKey)
  }

  /** For each row, in order, whether it is a template row. */
  function TemplateFlags(rows: seq<Row>): (flags: seq<bool>)
    ensures |flags| == |rows|
    ensures forall i :: 0 <= i < |rows| ==> flags[i] == IsTemplateRow(rows[i])
  {
    seq(|rows|, i requires 0 <= i < |rows| => IsTemplateRow(rows[i]))
  }

  /** The positions of the set flags, in order. */
  function Positions(flags: seq<bool>): (ix: seq<nat>)
    ensures forall k :: 0 <= k < |ix| ==> ix[k] < |flags|
    decreases |flags|
  {
    if flags == [] then []
    else
      var n := |flags| - 1;
      Positions(flags[..n]) + (if flags[n] then [n] else [])
  }

  /** The positions are exactly those of the set flags, each once, in
      increasing order. */
  lemma {:induction false} PositionsExact(flags: seq<bool>)
    ensures forall k :: 0 <= k < |Positions(flags)| ==> flags[Positions(flags)[k]]
    ensures forall k, l :: 0 <= k < l < |Positions(flags)| ==> Positions(flags)[k] < Positions(flags)[l]
    ensures forall i :: 0 <= i < |flags| && flags[i] ==> i in Positions(flags)
    decreases |flags|
  {
    if flags != [] {
      var n := |flags| - 1;
      var init := Positions(flags[..n]);
      PositionsExact(flags[..n]);
      var tail: seq<nat> := if flags[n] then [n] else [];
      var ix := Positions(flags);
      assert ix == init + tail;
      forall k | 0 <= k < |init|
        ensures ix[k] == init[k] && flags[init[k]]
      {
        assert flags[..n][init[k]] == flags[init[k]];
      }
      forall i | 0 <= i < n && flags[i]
        ensures i in init
      {
        assert flags[..n][i] == flags[i];
      }
    }
  }

  /** The first position is the first set flag; there is none exactly when
      no flag is set. */
  lemma FirstPosition(flags: seq<bool>)
    ensures Positions(flags) == [] <==> forall i :: 0 <= i < |flags| ==> !flags[i]
    ensures Positions(flags) != [] ==>
      var t := Positions(flags)[0];
      && flags[t]
      && forall i :: 0 <= i < t ==> !flags[i]
  {
    PositionsExact(flags);
    var ix := Positions(flags);
    if ix != [] {
      var t := ix[0];
      forall k | 0 < k < |ix|
        ensures t < ix[k]
      {
      }
      assert forall i :: 0 <= i < t ==> i !in ix;
    }
  }

  /** Looking at one more flag. */
  lemma PositionsStep(flags: seq<bool>, i: nat)
    requires i < |flags|
    ensures Positions(flags[..i + 1]) == Positions(flags[..i]) + (if flags[i] then [i] else [])
  {
    assert flags[..i + 1][..i] == flags[..i];
  }

  /** The indices of the template rows, in the order the rows are visited. */
  function TemplateRowIndices(rows: seq<Row>): (ix: seq<nat>)
    ensures forall k :: 0 <= k < |ix| ==> ix[k] < |rows|
  {
    Positions(TemplateFlags(rows))
  }

  /** The first pass of the work-experience step over a table: the rows are
      visited in order and the index of each template row is recorded. */
  method FindTemplateRows(rows: seq<Row>) returns (ix: seq<nat>)
    ensures ix == TemplateRowIndices(rows)
  {
    ghost var flags := TemplateFlags(rows);
    ix := [];
    var i := 0;
    while i < |rows|
      invariant 0 <= i <= |rows|
      invariant ix == Positions(flags[..i])
    {
      var rowText := RowText(rows[i]);
      var matched := Contains(rowText, CompanyKey) || Contains(rowText, DurationKey) || Contains(rowText, JobTitleKey)
         || Contains(rowText, JobDescriptionKey) || Contains(rowText, AchievementsKey);
      assert matched == flags[i];
      PositionsStep(flags, i);
      if matched {
        ix := ix + [i];
      }
      i := i + 1;
    }
    assert flags[..i] == flags;
  }

  /** The row the work-experience records are copied from: the first
      template row, if any. */
  function TemplateRow(rows: seq<Row>): (r: Option<nat>)
    ensures r.Some? ==> r.value < |rows|
  {
    var ix := TemplateRowIndices(rows);
    if ix == [] then None else Some(ix[0])
  }

  /** The template row chosen is the first row whose text names a
      work-experience placeholder; there is none exactly when no row names
      one. */
  lemma TemplateRowIsFirst(rows: seq<Row>)
    ensures TemplateRow(rows).None? <==> forall i :: 0 <= i < |rows| ==> !IsTemplateRow(rows[i])
    ensures TemplateRow(rows).Some? ==>
      var t := TemplateRow(rows).value;
      && t < |rows| && IsTemplateRow(rows[t])
      && forall i :: 0 <= i < t ==> !IsTemplateRow(rows[i])
  {
    FirstPosition(TemplateFlags(rows));
  }

  /** The filled copies of a template row, one per record, in the records'
      order. */
  function ExperienceRows(template: Row, records: seq<Experience>): (rs: seq<Row>)
    ensures |rs| == |records|
    decreases |records|
  {
    if records == [] then []
    else [FilledRow(template, Record(records[0]))] + ExperienceRows(template, records[1..])
  }

  /** The `k`th copy is the template filled with the `k`th record. */
  lemma {:induction false} ExperienceRowsAt(template: Row, records: seq<Experience>, k: nat)
    requires k < |records|
    ensures ExperienceRows(template, records)[k] == FilledRow(template, Record(records[k]))
    decreases |records|
  {
    if k > 0 {
      ExperienceRowsAt(template, records[1..], k - 1);
    }
  }

  /** Adding a copy in front of the copies for the later records. */
  lemma ExperienceRowsCons(template: Row, records: seq<Experience>, k: nat)
    requires k < |records|
    ensures ExperienceRows(template, records[k..])
         == [FilledRow(template, Record(records[k]))] + ExperienceRows(template, records[k + 1..])
  {
    assert records[k..][1..] == records[k + 1..];
  }

  /** A table's rows once the row at `t` is replaced by one filled copy per
      record. */
  function ExpandTemplate(rows: seq<Row>, t: nat, records: seq<Experience>): (expanded: seq<Row>)
    requires t < |rows|
  {
    rows[..t] + ExperienceRows(rows[t], records) + rows[t + 1..]
  }

  /** Inserting a copy of the template row right after it, then filling
      that copy, puts the filled copy in front of the copies already
      inserted. */
  lemma InsertThenFill<T>(before: seq<T>, template: T, copies: seq<T>, after: seq<T>, copy: T)
    ensures var rows := before + [template] + copies + after;
      var n := |before| + 1;
      var inserted := rows[..n] + [template] + rows[n..];
      && n < |inserted| && inserted[n] == template
      && inserted[n := copy] == before + [template] + ([copy] + copies) + after
  {
    var rows := before + [template] + copies + after;
    var n := |before| + 1;
    assert rows[..n] == before + [template];
    assert rows[n..] == copies + after;
  }

  /** Removing the template row from in front of its copies. */
  lemma RemoveTemplate<T>(before: seq<T>, template: T, copies: seq<T>, after: seq<T>)
    ensures var rows := before + [template] + copies + after;
      var n := |before|;
      rows[..n] + rows[n + 1..] == before + copies + after
  {
    var rows := before + [template] + copies + after;
    var n := |before|;
    assert rows[..n] == before;
    assert rows[n + 1..] == copies + after;
  }

  /** The row step of the work-experience pass: for each record, from the
      last to the first, a copy of the template row is inserted right after
      it and filled with that record, so the copies end up in the records'
      order; then the template row is removed. */
  method InsertExperienceRows(rows: seq<Row>, t: nat, records: seq<Experience>) returns (result: seq<Row>)
    requires t < |rows|
    ensures result == ExpandTemplate(rows, t, records)
  {
    var template := rows[t];
    result := rows;
    assert rows == rows[..t] + [template] + [] + rows[t + 1..];
    var k := |records|;
    while k > 0
      invariant 0 <= k <= |records|
      invariant result == rows[..t] + [template] + ExperienceRows(template, records[k..]) + rows[t + 1..]
    {
      k := k - 1;
      ExperienceRowsCons(template, records, k);
      InsertThenFill(rows[..t], template, ExperienceRows(template, records[k + 1..]), rows[t + 1..],
                     FilledRow(template, Record(records[k])));
      result := result[..t + 1] + [template] + result[t + 1..];
      var copy := FillRow(result[t + 1], Record(records[k]));
      result := result[t + 1 := copy];
    }
    RemoveTemplate(rows[..t], template, ExperienceRows(template, records), rows[t + 1..]);
    result := result[..t] + result[t + 1..];
  }

  /** The row step as written: the newly inserted row is looked up through
      `template_row_to_copy.idx` (Placeholder_Insertion.py:161), an attribute
      python-docx's row wrapper does not have (its index is `_index`). With
      at least one record the step raises right after the first copy of the
      template row has been inserted, unfilled, below it; with none the loop
      body never runs and the template row is only removed. */
  function InsertExperienceRowsAsWritten(rows: seq<Row>, t: nat, records: seq<Experience>): (o: Outcome<seq<Row>>)
    requires t < |rows|
  {
    if records == [] then Completed(rows[..t] + rows[t + 1..])
    else Failed(AttributeError, rows[..t + 1] + [rows[t]] + rows[t + 1..])
  }

  /** The row step as written agrees with the intended one when there are no
      records. With at least one record it raises, leaving the template row
      twice and unfilled, where the intended step puts the first record's
      filled copy in the template row's place. */
  lemma ExperienceRowsAsWrittenDiffers(rows: seq<Row>, t: nat, records: seq<Experience>)
    requires t < |rows|
    ensures records == [] ==>
      InsertExperienceRowsAsWritten(rows, t, records) == Completed(ExpandTemplate(rows, t, records))
    ensures records != [] ==>
      var o := InsertExperienceRowsAsWritten(rows, t, records);
      && o.Failed?
      && |o.partial| == |rows| + 1
      && o.partial[t] == rows[t] && o.partial[t + 1] == rows[t]
      && ExpandTemplate(rows, t, records)[t] == FilledRow(rows[t], Record(records[0]))
  {
    if records == [] {
      assert ExpandTemplate(rows, t, records) == rows[..t] + rows[t + 1..];
    } else {
      ExperienceRowsAt(rows[t], records, 0);
      SpliceShape(rows, t, ExperienceRows(rows[t], records));
    }
  }

  /** The index of the first table holding a template row, if any. */
  function FirstTemplateTable(tables: seq<Table>): (r: Option<nat>)
    ensures r.Some? ==> r.value < |tables| && TemplateRow(tables[r.value].rows).Some?
    decreases |tables|
  {
    if tables == [] then None
    else if TemplateRow(tables[0].rows).Some? then Some(0)
    else
      match FirstTemplateTable(tables[1..])
      case None => None
      case Some(t) =>
        assert tables[1..][t] == tables[t + 1];
        Some(t + 1)
  }

  /** The tables after the work-experience pass. */
  function WorkExperienceFilled(tables: seq<Table>, records: seq<Experience>): (filled: seq<Table>) {
    match FirstTemplateTable(tables)
    case None => tables
    case Some(t) =>
      var rows := tables[t].rows;
      tables[t := Table(ExpandTemplate(rows, TemplateRow(rows).value, records))]
  }

  /** The first table holding a template row is the one chosen: no earlier
      table holds one, and there is none exactly when no table holds one. */
  lemma {:induction false} FirstTemplateTableIsFirst(tables: seq<Table>)
    ensures FirstTemplateTable(tables).None? <==> forall j :: 0 <= j < |tables| ==> TemplateRow(tables[j].rows).None?
    ensures FirstTemplateTable(tables).Some? ==>
      var t := FirstTemplateTable(tables).value;
      && TemplateRow(tables[t].rows).Some?
      && forall j :: 0 <= j < t ==> TemplateRow(tables[j].rows).None?
    decreases |tables|
  {
    if tables != [] && TemplateRow(tables[0].rows).None? {
      FirstTemplateTableIsFirst(tables[1..]);
      assert forall j :: 1 <= j < |tables| ==> tables[1..][j - 1] == tables[j];
    }
  }

  /** A table holding a template row after tables holding none is the first
      template table. */
  lemma {:induction false} FirstTemplateTableAt(tables: seq<Table>, t: nat)
    requires t < |tables| && TemplateRow(tables[t].rows).Some?
    requires forall j :: 0 <= j < t ==> TemplateRow(tables[j].rows).None?
    ensures FirstTemplateTable(tables) == Some(t)
    decreases t
  {
    if t > 0 {
      var rest := tables[1..];
      assert TemplateRow(tables[0].rows).None?;
      assert rest[t - 1] == tables[t];
      forall j | 0 <= j < t - 1
        ensures TemplateRow(rest[j].rows).None?
      {
        assert rest[j] == tables[j + 1];
      }
      FirstTemplateTableAt(rest, t - 1);
    }
  }

  /** The work-experience pass changes at most one table: the first that has
      a template row. In it the first template row gives way to one filled
      copy per record, in order, so the table gains one row fewer than there
      are records; the rows before and after it keep their order. Every
      other table is unchanged. Without a template row anywhere nothing
      changes. */
  lemma WorkExperienceChangesOneTable(tables: seq<Table>, records: seq<Experience>)
    ensures var result := WorkExperienceFilled(tables, records);
      && |result| == |tables|
      && (FirstTemplateTable(tables).None? ==> result == tables)
      && (FirstTemplateTable(tables).Some? ==>
            var t := FirstTemplateTable(tables).value;
            var rows := tables[t].rows;
            var r := TemplateRow(rows).value;
            && (forall j :: 0 <= j < |tables| && j != t ==> result[j] == tables[j])
            && |result[t].rows| == |rows| - 1 + |records|
            && result[t].rows[..r] == rows[..r]
            && result[t].rows[r + |records|..] == rows[r + 1..]
            && forall k :: 0 <= k < |records| ==>
                 result[t].rows[r + k] == FilledRow(rows[r], Record(records[k])))
  {
    if FirstTemplateTable(tables).Some? {
      var t := FirstTemplateTable(tables).value;
      var rows := tables[t].rows;
      var r := TemplateRow(rows).value;
      var expanded := ExpandTemplate(rows, r, records);
      ExpandTemplateShape(rows, r, records);
      var result := WorkExperienceFilled(tables, records);
      assert result == tables[t := Table(expanded)];
      assert result[t].rows == expanded;
    }
  }

  /** Expanding the row at `r` keeps the rows before it, shifts the rows
      after it by one less than the number of records, and puts the `k`th
      filled copy at `r + k`. */
  lemma ExpandTemplateShape(rows: seq<Row>, r: nat, records: seq<Experience>)
    requires r < |rows|
    ensures var expanded := ExpandTemplate(rows, r, records);
      && |expanded| == |rows| - 1 + |records|
      && expanded[..r] == rows[..r]
      && expanded[r + |records|..] == rows[r + 1..]
      && forall k :: 0 <= k < |records| ==> expanded[r + k] == FilledRow(rows[r], Record(records[k]))
  {
    var copies := ExperienceRows(rows[r], records);
    SpliceShape(rows, r, copies);
    forall k | 0 <= k < |records|
      ensures copies[k] == FilledRow(rows[r], Record(records[k]))
    {
      ExperienceRowsAt(rows[r], records, k);
    }
  }

  /** Putting `copies` in place of the element at `r`. */
  lemma SpliceShape<T>(rows: seq<T>, r: nat, copies: seq<T>)
    requires r < |rows|
    ensures var spliced := rows[..r] + copies + rows[r + 1..];
      && |spliced| == |rows| - 1 + |copies|
      && spliced[..r] == rows[..r]
      && spliced[r + |copies|..] == rows[r + 1..]
      && forall k :: 0 <= k < |copies| ==> spliced[r + k] == copies[k]
  {
    var spliced := rows[..r] + copies + rows[r + 1..];
    assert spliced[..r] == rows[..r];
    assert spliced[r + |copies|..] == rows[r + 1..];
  }
}
