/** The resume record the generator fills a template from, and the text it
    renders the education list to. A JSON key that is absent is `None`;
    `data.get(key, default)` is `GetOr(default)`. */
module ResumeData {
  import opened Wrappers
  import opened Strings

  /** One entry of the `education` list. */
  datatype Education = Education(
    degree: Option<string>,
    institution: Option<string>,
    year: Option<string>,
    cgpa: Option<string>)

  /** One entry of the `work_experience` list. */
  datatype Experience = Experience(
    companyName: Option<string>,
    duration: Option<string>,
    jobTitle: Option<string>,
    jobDescription: Option<seq<string>>,
    achievements: Option<seq<string>>)

  /** The structured resume. */
  datatype Resume = Resume(
    name: Option<string>,
    contactNumber: Option<string>,
    email: Option<string>,
    education: Option<seq<Education>>,
    skills: Option<seq<string>>,
    languages: Option<seq<string>>,
    workExperience: Option<seq<Experience>>)

  const CgpaLabel := "CGPA: "

  /** `filter(None, [v])`: a present, non-empty value, or nothing. */
  function Present(v: Option<string>): (r: seq<string>)
    ensures r == [] <==> v.None? || v.value == []
    ensures r != [] ==> r == [v.value]
  {
    if v.Some? && v.value != [] then [v.value] else []
  }

  /** The lines of one education entry: degree, institution and year when
      present and non-empty, then `CGPA: <cgpa>` when the CGPA is present
      and non-empty; the order is fixed and no line is empty. */
  function EntryFields(e: Education): (fields: seq<string>)
    ensures |fields| <= 4
    ensures forall i :: 0 <= i < |fields| ==> fields[i] != []
    ensures fields == [] <==> Present(e.degree) == Present(e.institution) == Present(e.year) == Present(e.cgpa) == []
    ensures |fields| == |Present(e.degree)| + |Present(e.institution)| + |Present(e.year)| + |Present(e.cgpa)|
    ensures e.degree.Some? && e.degree.value != [] ==> fields[0] == e.degree.value
    ensures e.institution.Some? && e.institution.value != [] ==>
      fields[|Present(e.degree)|] == e.institution.value
    ensures e.year.Some? && e.year.value != [] ==>
      fields[|Present(e.degree)| + |Present(e.institution)|] == e.year.value
    ensures e.cgpa.Some? && e.cgpa.value != [] ==> fields[|fields| - 1] == CgpaLabel + e.cgpa.value
  {
    Present(e.degree) + Present(e.institution) + Present(e.year)
      + (if e.cgpa.Some? && e.cgpa.value != [] then [CgpaLabel + e.cgpa.value] else [])
  }

  /** One education block: its lines joined by single line breaks. */
  function EntryBlock(e: Education): (block: string) {
    Join(EntryFields(e), "\n")
  }

  /** The blocks of the entries, in order. */
  function EntryBlocks(es: seq<Education>): (blocks: seq<string>)
    ensures |blocks| == |es|
  {
    Map(EntryBlock, es)
  }

  /** Block `i` renders entry `i`. */
  lemma EntryBlocksAt(es: seq<Education>, i: nat)
    requires i < |es|
    ensures EntryBlocks(es)[i] == EntryBlock(es[i])
  {
    MapAt(EntryBlock, es, i);
  }

  /** `f` applied to each element, in order. */
  function Map<A, B>(f: A -> B, xs: seq<A>): (ys: seq<B>)
    ensures |ys| == |xs|
  {
    if xs == [] then [] else [f(xs[0])] + Map(f, xs[1..])
  }

  /** Element `i` of a map is `f` of element `i`. */
  lemma {:induction false} MapAt<A, B>(f: A -> B, xs: seq<A>, i: nat)
    requires i < |xs|
    ensures Map(f, xs)[i] == f(xs[i])
    decreases |xs|
  {
    if i > 0 {
      MapAt(f, xs[1..], i - 1);
    }
  }

  /** The education text: the entries' blocks separated by a blank line. */
  function FormatEducation(es: seq<Education>): (text: string) {
    Join(EntryBlocks(es), "\n\n")
  }

  /** `s` holds no line break. */
  predicate OneLine(s: string) {
    forall i :: 0 <= i < |s| ==> s[i] != '\n'
  }

  /** Every value of the entry that can reach its block is on one line. */
  predicate OneLineEntry(e: Education) {
    && (e.degree.Some? ==> OneLine(e.degree.value))
    && (e.institution.Some? ==> OneLine(e.institution.value))
    && (e.year.Some? ==> OneLine(e.year.value))
    && (e.cgpa.Some? ==> OneLine(e.cgpa.value))
  }

  /** The lines one entry contributes to the education text: its fields, or
      one empty line for an entry with none. */
  function EntryLines(e: Education): (lines: seq<string>)
    ensures |lines| >= 1
  {
    if EntryFields(e) == [] then [[]] else EntryFields(e)
  }

  /** The lines of the education text, entry by entry, with an empty line
      between consecutive entries. */
  function EducationLines(es: seq<Education>): (lines: seq<string>)
    requires es != []
    ensures |lines| >= 1
  {
    if |es| == 1 then EntryLines(es[0])
    else EntryLines(es[0]) + [[]] + EducationLines(es[1..])
  }

  /** A string whose characters are not line breaks does not contain one. */
  lemma {:induction false} OneLineHasNoBreak(s: string)
    requires OneLine(s)
    ensures !Contains(s, "\n")
    decreases |s|
  {
    if s != [] {
      assert s[..1] != "\n" by { assert s[..1][0] == s[0]; }
      assert OneLine(s[1..]) by {
        forall i | 0 <= i < |s[1..]| ensures s[1..][i] != '\n' {
          assert s[1..][i] == s[i + 1];
        }
      }
      OneLineHasNoBreak(s[1..]);
    }
  }

  /** A present value on one line gives lines without a line break. */
  lemma PresentHasNoBreak(v: Option<string>)
    requires v.Some? ==> OneLine(v.value)
    ensures NoBreaks(Present(v))
  {
    if v.Some? { OneLineHasNoBreak(v.value); }
  }

  /** The CGPA line of a value on one line holds no line break. */
  lemma CgpaLineHasNoBreak(v: string)
    requires OneLine(v)
    ensures !Contains(CgpaLabel + v, "\n")
  {
    var line := CgpaLabel + v;
    forall i | 0 <= i < |line| ensures line[i] != '\n' {
      if i >= |CgpaLabel| {
        assert line[i] == v[i - |CgpaLabel|];
      }
    }
    OneLineHasNoBreak(line);
  }

  /** The lines of an entry whose values are on one line hold no line break. */
  lemma EntryLinesHaveNoBreak(e: Education)
    requires OneLineEntry(e)
    ensures NoBreaks(EntryLines(e))
  {
    var cgpa := if e.cgpa.Some? && e.cgpa.value != [] then [CgpaLabel + e.cgpa.value] else [];
    if e.cgpa.Some? && e.cgpa.value != [] {
      CgpaLineHasNoBreak(e.cgpa.value);
    }
    assert NoBreaks(cgpa);
    PresentHasNoBreak(e.degree);
    PresentHasNoBreak(e.institution);
    PresentHasNoBreak(e.year);
    NoBreaksAppend(Present(e.degree), Present(e.institution));
    NoBreaksAppend(Present(e.degree) + Present(e.institution), Present(e.year));
    NoBreaksAppend(Present(e.degree) + Present(e.institution) + Present(e.year), cgpa);
    assert !Contains([], "\n");
    assert NoBreaks([[]]);
  }

  /** An entry's block is its lines joined by line breaks. */
  lemma EntryBlockIsJoinOfLines(e: Education)
    ensures EntryBlock(e) == Join(EntryLines(e), "\n")
  {
  }

  /** The education text is its lines joined by single line breaks. */
  lemma {:induction false} FormatEducationIsJoinOfLines(es: seq<Education>)
    requires es != []
    ensures FormatEducation(es) == Join(EducationLines(es), "\n")
    decreases |es|
  {
    EntryBlockIsJoinOfLines(es[0]);
    if |es| > 1 {
      FormatEducationIsJoinOfLines(es[1..]);
      var head, rest := EntryLines(es[0]), EducationLines(es[1..]);
      var first, others := Join(head, "\n"), Join(rest, "\n");
      assert EntryBlocks(es)[1..] == EntryBlocks(es[1..]);
      assert FormatEducation(es) == first + "\n\n" + others;
      JoinAppend(head, [[]], "\n");
      JoinAppend(head + [[]], rest, "\n");
      assert EducationLines(es) == head + [[]] + rest;
      BlankLineGlue(first, others);
    }
  }

  lemma BlankLineGlue(first: string, others: string)
    ensures first + "\n\n" + others == first + "\n" + Join([[]], "\n") + "\n" + others
  {
    assert Join([[]], "\n") == [];
  }

  /** Splitting the education text at line breaks gives back its lines
      exactly, one entry's lines after another with an empty line between
      entries, when every value is on one line. */
  lemma {:induction false} EducationLinesRoundTrip(es: seq<Education>)
    requires es != []
    requires forall i :: 0 <= i < |es| ==> OneLineEntry(es[i])
    ensures Split(FormatEducation(es), "\n") == EducationLines(es)
  {
    FormatEducationIsJoinOfLines(es);
    EducationLinesHaveNoBreak(es);
    JoinSplitRoundTrip(EducationLines(es), "\n");
  }

  /** No line of `lines` holds a line break. */
  predicate NoBreaks(lines: seq<string>) {
    forall i :: 0 <= i < |lines| ==> !Contains(lines[i], "\n")
  }

  lemma NoBreaksAppend(a: seq<string>, b: seq<string>)
    requires NoBreaks(a) && NoBreaks(b)
    ensures NoBreaks(a + b)
  {
    forall i | 0 <= i < |a + b| ensures !Contains((a + b)[i], "\n") {
      if i >= |a| { assert (a + b)[i] == b[i - |a|]; }
    }
  }

  /** No line of the education text holds a line break when every value is
      on one line. */
  lemma {:induction false} EducationLinesHaveNoBreak(es: seq<Education>)
    requires es != []
    requires forall i :: 0 <= i < |es| ==> OneLineEntry(es[i])
    ensures NoBreaks(EducationLines(es))
    decreases |es|
  {
    EntryLinesHaveNoBreak(es[0]);
    if |es| > 1 {
      EducationLinesHaveNoBreak(es[1..]);
      var head, rest := EntryLines(es[0]), EducationLines(es[1..]);
      assert !Contains([], "\n");
      assert NoBreaks([[]]);
      NoBreaksAppend(head, [[]]);
      NoBreaksAppend(head + [[]], rest);
    }
  }
}
