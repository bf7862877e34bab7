/** Filling the template's placeholders: what each paragraph becomes in each
    pass of the generator, and the walk of a pass over a cell's paragraphs.
    A pass visits a snapshot of a cell's paragraphs, so the paragraphs it
    inserts are never visited themselves; every visited paragraph becomes a
    block (itself, rewritten, followed by the paragraphs inserted after it),
    and the cell becomes the blocks of its paragraphs in order. */
module Fill {
  import opened Wrappers
  import opened Strings
  import opened Docx
  import opened Formatting
  import opened Substitution
  import opened Expansion
  import opened ResumeData

  const NameKey := "{NAME}"
  const ContactKey := "{CONTACT}"
  const EmailKey := "{EMAIL}"
  const EducationKey := "{EDUCATION}"
  const SkillsKey := "{SKILLS}"
  const LanguagesKey := "{LANGUAGES}"
  const CompanyKey := "{COMPANYNAME}"
  const DurationKey := "{DURATION}"
  const JobTitleKey := "{JOBTITLE}"
  const JobDescriptionKey := "{JOBDESCRIPTION}"
  const AchievementsKey := "{ACHIEVEMENTS}"

  /** What a pass fills paragraphs with: the resume's contact details, its
      education, skills and languages, or one work-experience record. */
  datatype Filler =
    | Contact(data: Resume)
    | Sections(data: Resume)
    | Record(experience: Experience)

  /** Key and value pairs, applied in order; every key is non-empty. */
  predicate ValidPairs(pairs: seq<(string, string)>) {
    forall i :: 0 <= i < |pairs| ==> pairs[i].0 != []
  }

  /** The simple replacements, in their fixed order; a missing value is the
      empty string. */
  function SimpleReplacements(data: Resume): (pairs: seq<(string, string)>)
    ensures ValidPairs(pairs)
  {
    [(NameKey, data.name.GetOr([])), (ContactKey, data.contactNumber.GetOr([])), (EmailKey, data.email.GetOr([]))]
  }

  /** The scalar replacements of a work-experience record, in order. */
  function RecordReplacements(e: Experience): (pairs: seq<(string, string)>)
    ensures ValidPairs(pairs)
  {
    [(CompanyKey, e.companyName.GetOr([])), (DurationKey, e.duration.GetOr([])), (JobTitleKey, e.jobTitle.GetOr([]))]
  }

  /** The paragraph after substituting each pair in turn; a later key is
      looked for in the text the earlier substitutions produced. */
  function SubstituteAll(p: Paragraph, pairs: seq<(string, string)>): (q: Paragraph)
    requires ValidPairs(pairs)
    decreases |pairs|
  {
    if pairs == [] then p
    else
      var last := pairs[|pairs| - 1];
      Substitute(SubstituteAll(p, pairs[..|pairs| - 1]), last.0, last.1)
  }

  /** Substituting a list of pairs keeps the paragraph format, the number
      of runs and every run's font. */
  lemma {:induction false} SubstituteAllKeepsFormatting(p: Paragraph, pairs: seq<(string, string)>)
    requires ValidPairs(pairs)
    ensures var q := SubstituteAll(p, pairs);
      && q.format == p.format
      && |q.runs| == |p.runs|
      && forall i :: 0 <= i < |p.runs| ==> q.runs[i].font == p.runs[i].font
    decreases |pairs|
  {
    if pairs != [] {
      var init := pairs[..|pairs| - 1];
      SubstituteAllKeepsFormatting(p, init);
      var last := pairs[|pairs| - 1];
      SubstituteKeepsFormatting(SubstituteAll(p, init), last.0, last.1);
    }
  }

  /** A paragraph none of whose runs holds any of the keys is left as it
      was. */
  lemma {:induction false} SubstituteAllAbsent(p: Paragraph, pairs: seq<(string, string)>)
    requires ValidPairs(pairs)
    requires forall i, k :: 0 <= i < |p.runs| && 0 <= k < |pairs| ==> !Contains(p.runs[i].text, pairs[k].0)
    ensures SubstituteAll(p, pairs) == p
    decreases |pairs|
  {
    if pairs != [] {
      SubstituteAllAbsent(p, pairs[..|pairs| - 1]);
      var last := pairs[|pairs| - 1];
      SubstituteAbsent(p, last.0, last.1);
    }
  }

  /** Substitutions are applied in order and see each other's output: a
      name that is itself the e-mail placeholder is replaced in turn by the
      e-mail address. */
  lemma SubstitutionCascades(f: Font, contact: Option<string>, email: string)
    requires !Contains(email, EmailKey)
    ensures var p := Paragraph(DefaultFormat, [Run(NameKey, f)]);
            var data := Resume(Some(EmailKey), contact, Some(email), None, None, None, None);
            SubstituteAll(p, SimpleReplacements(data)) == Paragraph(DefaultFormat, [Run(email, f)])
  {
    var p := Paragraph(DefaultFormat, [Run(NameKey, f)]);
    var data := Resume(Some(EmailKey), contact, Some(email), None, None, None, None);
    SubstituteThree(p, SimpleReplacements(data));
    ReplaceAllWhole(NameKey, EmailKey);
    OneRunStep(f, NameKey, NameKey, EmailKey, EmailKey);
    ContainsNeedsRoom(EmailKey, ContactKey);
    ReplaceAllAbsent(EmailKey, ContactKey, contact.GetOr([]));
    OneRunStep(f, EmailKey, ContactKey, contact.GetOr([]), EmailKey);
    ReplaceAllWhole(EmailKey, email);
    OneRunStep(f, EmailKey, EmailKey, email, email);
  }

  /** Substituting three pairs is three substitutions in turn. */
  lemma SubstituteThree(p: Paragraph, pairs: seq<(string, string)>)
    requires ValidPairs(pairs) && |pairs| == 3
    ensures SubstituteAll(p, pairs)
      == Substitute(Substitute(Substitute(p, pairs[0].0, pairs[0].1), pairs[1].0, pairs[1].1), pairs[2].0, pairs[2].1)
  {
    SubstituteAllPrefix(p, pairs, 0);
    SubstituteAllPrefix(p, pairs, 1);
    SubstituteAllPrefix(p, pairs, 2);
    assert pairs[..0] == [];
    assert pairs[..3] == pairs;
  }

  /** Substituting in a paragraph of one run rewrites that run's text. */
  lemma OneRunStep(f: Font, text: string, key: string, value: string, after: string)
    requires key != [] && ReplaceAll(text, key, value) == after
    ensures Substitute(Paragraph(DefaultFormat, [Run(text, f)]), key, value) == Paragraph(DefaultFormat, [Run(after, f)])
  {
    SubstituteSingleRun(DefaultFormat, Run(text, f), key, value);
  }

  /** Substituting one more pair of a list extends the substitutions. */
  lemma SubstituteAllPrefix(p: Paragraph, pairs: seq<(string, string)>, n: nat)
    requires ValidPairs(pairs) && n < |pairs|
    ensures ValidPairs(pairs[..n]) && ValidPairs(pairs[..n + 1])
    ensures SubstituteAll(p, pairs[..n + 1]) == Substitute(SubstituteAll(p, pairs[..n]), pairs[n].0, pairs[n].1)
  {
    assert pairs[..n + 1][..n] == pairs[..n];
  }

  /** The education step of the second pass: nothing unless the paragraph
      holds the education key; an empty or missing list removes the key;
      otherwise the formatted education text is expanded over lines. */
  function EducationBlock(p: Paragraph, es: seq<Education>): (b: seq<Paragraph>)
    ensures |b| >= 1
  {
    if !Contains(ParagraphText(p), EducationKey) then [p]
    else if es == [] then [Substitute(p, EducationKey, [])]
    else MultilineBlock(p, EducationKey, FormatEducation(es))
  }

  /** The education step leaves a paragraph without the education key as
      it was and removes the key when the list is empty or missing. With a
      non-empty list whose values are on one line, it yields exactly one
      paragraph per line of the education text: the anchor with the first
      line in place of the key, then one new paragraph per further line,
      holding that line in the anchor's paragraph formatting; an entry's
      lines are consecutive and entries are separated by an empty line. */
  lemma EducationExpansion(p: Paragraph, es: seq<Education>)
    ensures !Contains(ParagraphText(p), EducationKey) ==> EducationBlock(p, es) == [p]
    ensures Contains(ParagraphText(p), EducationKey) && es == [] ==>
      EducationBlock(p, es) == [Substitute(p, EducationKey, [])]
    ensures (forall i :: 0 <= i < |es| ==> OneLineEntry(es[i])) && Contains(ParagraphText(p), EducationKey) && es != [] ==>
      var lines := EducationLines(es);
      var b := EducationBlock(p, es);
      && |b| == |lines|
      && b[0] == Substitute(p, EducationKey, lines[0])
      && forall k :: 1 <= k < |b| ==>
           && ParagraphText(b[k]) == lines[k]
           && ShowsParagraphFormatting(b[k].format, p.format)
  {
    if (forall i :: 0 <= i < |es| ==> OneLineEntry(es[i])) && Contains(ParagraphText(p), EducationKey) && es != [] {
      var text := FormatEducation(es);
      var lines := EducationLines(es);
      var b := EducationBlock(p, es);
      assert b == MultilineBlock(p, EducationKey, text);
      EducationLinesRoundTrip(es);
      MultilineExpansion(p, EducationKey, text);
      forall k | 1 <= k < |b|
        ensures ParagraphText(b[k]) == lines[k]
      {
        assert ParagraphTexts(b[1..])[k - 1] == ParagraphText(b[k]);
        assert lines[1..][k - 1] == lines[k];
      }
    }
  }

  /** What the second pass makes of a paragraph: the education step, then
      the skills bullets and then the languages bullets, each on the anchor
      the previous step left. Each step inserts directly below the anchor,
      so the languages bullets come first, then the skills bullets, then
      the further education lines. */
  function SectionsBlock(p: Paragraph, data: Resume): (b: seq<Paragraph>)
    ensures |b| >= 1
  {
    var b1 := EducationBlock(p, data.education.GetOr([]));
    var b2 := BulletBlock(b1[0], SkillsKey, data.skills.GetOr([]));
    var b3 := BulletBlock(b2[0], LanguagesKey, data.languages.GetOr([]));
    b3 + b2[1..] + b1[1..]
  }

  /** What filling a copied template row with one record makes of one of its
      paragraphs: the three scalar fields, then the job-description bullets
      and then the achievement bullets, each on the anchor the previous step
      left. */
  function RecordBlock(p: Paragraph, e: Experience): (b: seq<Paragraph>)
    ensures |b| >= 1
  {
    var q := SubstituteAll(p, RecordReplacements(e));
    var b1 := BulletBlock(q, JobDescriptionKey, e.jobDescription.GetOr([]));
    var b2 := BulletBlock(b1[0], AchievementsKey, e.achievements.GetOr([]));
    b2 + b1[1..]
  }

  /** What a pass makes of one paragraph it visits. */
  function Block(p: Paragraph, f: Filler): (b: seq<Paragraph>)
    ensures |b| >= 1
  {
    match f
    case Contact(data) => [SubstituteAll(p, SimpleReplacements(data))]
    case Sections(data) => SectionsBlock(p, data)
    case Record(e) => RecordBlock(p, e)
  }

  /** The second pass leaves a paragraph that names none of its three
      placeholders as it was. */
  lemma SectionsUntouched(p: Paragraph, data: Resume)
    requires !Contains(ParagraphText(p), EducationKey)
    requires !Contains(ParagraphText(p), SkillsKey)
    requires !Contains(ParagraphText(p), LanguagesKey)
    ensures SectionsBlock(p, data) == [p]
  {
    BulletExpansionNoOp(p, SkillsKey, data.skills.GetOr([]));
    BulletExpansionNoOp(p, LanguagesKey, data.languages.GetOr([]));
  }

  /** Filling a copied template row leaves a paragraph that names none of
      the five work-experience placeholders as it was. */
  lemma RecordUntouched(p: Paragraph, e: Experience)
    requires !Contains(ParagraphText(p), CompanyKey)
    requires !Contains(ParagraphText(p), DurationKey)
    requires !Contains(ParagraphText(p), JobTitleKey)
    requires !Contains(ParagraphText(p), JobDescriptionKey)
    requires !Contains(ParagraphText(p), AchievementsKey)
    ensures RecordBlock(p, e) == [p]
  {
    RecordUntouchedScalars(p, e);
    BulletExpansionNoOp(p, JobDescriptionKey, e.jobDescription.GetOr([]));
    BulletExpansionNoOp(p, AchievementsKey, e.achievements.GetOr([]));
  }

  /** `{JOBDESCRIPTION}` holds an opening brace only at its start. */
  lemma JobDescriptionKeyOpensOnce()
    ensures forall i :: 1 <= i < |JobDescriptionKey| ==> JobDescriptionKey[i] != '{'
  {
  }

  /** `{JOBDESCRIPTION}` holds none of the other work-experience
      placeholders. */
  lemma JobDescriptionKeyIsAlone()
    ensures !Contains(JobDescriptionKey, CompanyKey)
    ensures !Contains(JobDescriptionKey, DurationKey)
    ensures !Contains(JobDescriptionKey, JobTitleKey)
    ensures !Contains(JobDescriptionKey, AchievementsKey)
  {
    JobDescriptionKeyOpensOnce();
    assert JobDescriptionKey[1] == 'J' && JobDescriptionKey[4] == 'D';
    assert CompanyKey[0] == '{' && CompanyKey[1] == 'C';
    assert DurationKey[0] == '{' && DurationKey[1] == 'D';
    assert JobTitleKey[0] == '{' && JobTitleKey[4] == 'T';
    assert AchievementsKey[0] == '{' && AchievementsKey[1] == 'A';
    NotContainsPastFirst(JobDescriptionKey, CompanyKey, 1);
    NotContainsPastFirst(JobDescriptionKey, DurationKey, 1);
    NotContainsPastFirst(JobDescriptionKey, JobTitleKey, 4);
    NotContainsPastFirst(JobDescriptionKey, AchievementsKey, 1);
  }

  /** A template paragraph holding just `{JOBDESCRIPTION}` in one run becomes
      one paragraph per job-description item when a record fills it: the
      anchor holds the bullet glyph and the first item in the run's font, and
      each further item gets a one-run paragraph with the glyph and the item,
      in that font and the anchor's paragraph formatting. An empty or missing
      list leaves the anchor with an empty run. The first item must not itself
      name `{ACHIEVEMENTS}`, which the achievements step would expand next. */
  lemma RecordJobDescription(format: ParagraphFormat, f: Font, e: Experience)
    requires var items := e.jobDescription.GetOr([]);
      items != [] ==> !Contains(items[0], AchievementsKey)
    ensures var p := Paragraph(format, [Run(JobDescriptionKey, f)]);
      var items := e.jobDescription.GetOr([]);
      var b := RecordBlock(p, e);
      && (items == [] ==> b == [Paragraph(format, [Run([], f)])])
      && (items != [] ==>
        && |b| == |items|
        && b[0] == Paragraph(format, [Run(BulletGlyph + items[0], f)])
        && forall k :: 1 <= k < |b| ==>
             && |b[k].runs| == 1
             && b[k].runs[0].text == BulletGlyph + items[k]
             && ShowsRunFormatting(b[k].runs[0].font, f)
             && ShowsParagraphFormatting(b[k].format, format))
  {
    var p := Paragraph(format, [Run(JobDescriptionKey, f)]);
    var items := e.jobDescription.GetOr([]);
    var value := if items == [] then [] else BulletGlyph + items[0];
    var anchor := Paragraph(format, [Run(value, f)]);
    var b1 := BulletBlock(p, JobDescriptionKey, items);
    JobDescriptionStep(format, f, items);
    AchievementsStepSkipped(anchor, value, e.achievements.GetOr([]));
    JobDescriptionKeyIsAlone();
    OneRunText(format, Run(JobDescriptionKey, f));
    RecordUntouchedScalars(p, e);
    RecordBlockOfBullets(p, e);
    if items != [] {
      BulletExpansion(p, JobDescriptionKey, items, 0);
    } else {
      assert b1 == [anchor];
    }
  }

  /** When the scalar replacements leave a paragraph alone and the
      achievements step leaves the rewritten anchor alone, a record's block
      is the job-description step's block. */
  lemma RecordBlockOfBullets(p: Paragraph, e: Experience)
    requires SubstituteAll(p, RecordReplacements(e)) == p
    requires var b1 := BulletBlock(p, JobDescriptionKey, e.jobDescription.GetOr([]));
      BulletBlock(b1[0], AchievementsKey, e.achievements.GetOr([])) == [b1[0]]
    ensures RecordBlock(p, e) == BulletBlock(p, JobDescriptionKey, e.jobDescription.GetOr([]))
  {
    var b1 := BulletBlock(p, JobDescriptionKey, e.jobDescription.GetOr([]));
    assert [b1[0]] + b1[1..] == b1;
  }

  /** The job-description step on a paragraph holding just its key in one
      run puts the bullet glyph and the first item, or nothing for an empty
      list, in place of the key. */
  lemma JobDescriptionStep(format: ParagraphFormat, f: Font, items: seq<string>)
    ensures var value := if items == [] then [] else BulletGlyph + items[0];
      BulletBlock(Paragraph(format, [Run(JobDescriptionKey, f)]), JobDescriptionKey, items)[0]
        == Paragraph(format, [Run(value, f)])
  {
    var p := Paragraph(format, [Run(JobDescriptionKey, f)]);
    var value := if items == [] then [] else BulletGlyph + items[0];
    OneRunText(format, Run(JobDescriptionKey, f));
    assert StartsWith(JobDescriptionKey, JobDescriptionKey);
    SubstituteWholeRun(format, f, JobDescriptionKey, value);
    if items != [] {
      assert Contains(p.runs[0].text, JobDescriptionKey);
      assert FirstRunHolding(p.runs, JobDescriptionKey) == Some(0);
    }
  }

  /** The achievements step leaves a one-run anchor alone when its text is
      empty or the bullet glyph followed by a text without the key. */
  lemma AchievementsStepSkipped(anchor: Paragraph, value: string, items: seq<string>)
    requires |anchor.runs| == 1 && anchor.runs[0].text == value
    requires value == [] || (exists item :: value == BulletGlyph + item && !Contains(item, AchievementsKey))
    ensures BulletBlock(anchor, AchievementsKey, items) == [anchor]
  {
    assert anchor == Paragraph(anchor.format, [anchor.runs[0]]);
    OneRunText(anchor.format, anchor.runs[0]);
    if value != [] {
      var item :| value == BulletGlyph + item && !Contains(item, AchievementsKey);
      ContainsAfterPrefix(BulletGlyph, item, AchievementsKey);
    }
    BulletExpansionNoOp(anchor, AchievementsKey, items);
  }

  /** The three scalar replacements leave a paragraph whose text names none
      of their keys as it was. */
  lemma RecordUntouchedScalars(p: Paragraph, e: Experience)
    requires !Contains(ParagraphText(p), CompanyKey)
    requires !Contains(ParagraphText(p), DurationKey)
    requires !Contains(ParagraphText(p), JobTitleKey)
    ensures SubstituteAll(p, RecordReplacements(e)) == p
  {
    var pairs := RecordReplacements(e);
    NoRunHoldsAbsentKey(p, CompanyKey);
    NoRunHoldsAbsentKey(p, DurationKey);
    NoRunHoldsAbsentKey(p, JobTitleKey);
    forall i, k | 0 <= i < |p.runs| && 0 <= k < |pairs|
      ensures !Contains(p.runs[i].text, pairs[k].0)
    {
      assert pairs[k].0 in {CompanyKey, DurationKey, JobTitleKey};
    }
    SubstituteAllAbsent(p, pairs);
  }

  /** What a pass makes of a list of paragraphs: their blocks, in order. */
  function Expand(ps: seq<Paragraph>, f: Filler): (qs: seq<Paragraph>)
    ensures |qs| >= |ps|
    decreases |ps|
  {
    if ps == [] then []
    else Expand(ps[..|ps| - 1], f) + Block(ps[|ps| - 1], f)
  }

  /** Each paragraph of a snapshot is expanded on its own: the expansion of
      two lists one after the other is the two expansions one after the
      other. */
  lemma {:induction false} ExpandAppend(xs: seq<Paragraph>, ys: seq<Paragraph>, f: Filler)
    ensures Expand(xs + ys, f) == Expand(xs, f) + Expand(ys, f)
    decreases |ys|
  {
    if ys == [] {
      AppendEmpty(xs);
    } else {
      var n := |ys| - 1;
      var last := Block(ys[n], f);
      AppendLast(xs, ys);
      assert Expand(xs + ys, f) == Expand(xs + ys[..n], f) + last;
      assert Expand(ys, f) == Expand(ys[..n], f) + last;
      ExpandAppend(xs, ys[..n], f);
      AppendAssoc(Expand(xs, f), Expand(ys[..n], f), last);
    }
  }

  /** Concatenation is associative. */
  lemma AppendAssoc<T>(a: seq<T>, b: seq<T>, c: seq<T>)
    ensures (a + b) + c == a + (b + c)
  {
  }

  /** Appending nothing. */
  lemma AppendEmpty<T>(xs: seq<T>)
    ensures xs + [] == xs
  {
  }

  /** The last element of `xs + ys` and what precedes it, for non-empty
      `ys`. */
  lemma AppendLast<T>(xs: seq<T>, ys: seq<T>)
    requires ys != []
    ensures (xs + ys)[..|xs + ys| - 1] == xs + ys[..|ys| - 1]
    ensures (xs + ys)[|xs + ys| - 1] == ys[|ys| - 1]
  {
  }

  /** A non-empty sequence is its front followed by its last element. */
  lemma FrontLast<T>(ps: seq<T>)
    requires ps != []
    ensures ps[..|ps| - 1] + [ps[|ps| - 1]] == ps
    ensures forall i :: 0 <= i < |ps| - 1 ==> ps[..|ps| - 1][i] == ps[i]
  {
  }

  /** A pass whose block for every paragraph of a list is that paragraph
      alone leaves the list as it was. */
  lemma {:induction false} ExpandUntouched(ps: seq<Paragraph>, f: Filler)
    requires forall i :: 0 <= i < |ps| ==> Block(ps[i], f) == [ps[i]]
    ensures Expand(ps, f) == ps
    decreases |ps|
  {
    if ps != [] {
      FrontLast(ps);
      ExpandUntouched(ps[..|ps| - 1], f);
    }
  }

  /** The first pass keeps a cell's paragraphs one for one: each becomes
      itself with the simple replacements made. */
  lemma {:induction false} ContactPassIsPointwise(ps: seq<Paragraph>, data: Resume, i: nat)
    requires i < |ps|
    ensures |Expand(ps, Contact(data))| == |ps|
    ensures Expand(ps, Contact(data))[i] == SubstituteAll(ps[i], SimpleReplacements(data))
    decreases |ps|
  {
    var n := |ps| - 1;
    if i < n {
      ContactPassIsPointwise(ps[..n], data, i);
    } else if n > 0 {
      ContactPassIsPointwise(ps[..n], data, 0);
    }
  }

  /** Replacing the element at `a` by a block whose head is `b[0]`, then the
      head by a block `c`, leaves `c` followed by the rest of `b`. */
  lemma Nest<T>(pre: seq<T>, b: seq<T>, post: seq<T>, c: seq<T>)
    requires |b| >= 1
    ensures var qs := pre + b + post;
      && |pre| < |qs| && qs[|pre|] == b[0]
      && qs[..|pre|] + c + qs[|pre| + 1..] == pre + (c + b[1..]) + post
  {
    var qs := pre + b + post;
    assert qs[..|pre|] == pre;
    assert qs[|pre| + 1..] == b[1..] + post;
  }

  /** Dropping the head of `y + z` after `x`. */
  lemma TailOfConcat<T>(x: seq<T>, y: seq<T>, z: seq<T>)
    requires |y| >= 1
    ensures x + (y + z)[1..] == x + y[1..] + z
  {
    assert (y + z)[1..] == y[1..] + z;
  }

  /** The first pass on the paragraph at index `a`: each simple replacement
      in turn. */
  method FillContactAt(ps: seq<Paragraph>, a: nat, data: Resume) returns (qs: seq<Paragraph>)
    requires a < |ps|
    ensures qs == ps[..a] + Block(ps[a], Contact(data)) + ps[a + 1..]
  {
    var pairs := SimpleReplacements(data);
    var p := ps[a];
    var i := 0;
    while i < |pairs|
      invariant 0 <= i <= |pairs|
      invariant p == SubstituteAll(ps[a], pairs[..i])
    {
      p := ReplaceTextInParagraph(p, pairs[i].0, pairs[i].1);
      assert pairs[..i + 1][..i] == pairs[..i];
      i := i + 1;
    }
    assert pairs[..i] == pairs;
    qs := ps[a := p];
    assert qs == ps[..a] + [p] + ps[a + 1..];
  }

  /** A block step that may leave the anchor alone: either way the list is
      the anchor's block in place of the anchor. */
  lemma KeptAnchor(ps: seq<Paragraph>, a: nat)
    requires a < |ps|
    ensures ps == ps[..a] + [ps[a]] + ps[a + 1..]
  {
  }

  /** The education step of the second pass on the paragraph at index `a`. */
  method FillEducationAt(ps: seq<Paragraph>, a: nat, es: seq<Education>) returns (qs: seq<Paragraph>)
    requires a < |ps|
    ensures qs == ps[..a] + EducationBlock(ps[a], es) + ps[a + 1..]
  {
    KeptAnchor(ps, a);
    qs := ps;
    if Contains(ParagraphText(ps[a]), EducationKey) {
      if es != [] {
        var formatted := FormatEducation(es);
        qs := ReplaceWithMultilineText(ps, a, EducationKey, formatted);
      } else {
        var p := ReplaceTextInParagraph(ps[a], EducationKey, []);
        qs := ps[a := p];
        assert qs == ps[..a] + [p] + ps[a + 1..];
      }
    }
  }

  /** A bullet step of a pass on the paragraph at index `a`, guarded as the
      generator guards it. */
  method FillBulletsAt(ps: seq<Paragraph>, a: nat, key: string, items: seq<string>) returns (qs: seq<Paragraph>)
    requires a < |ps| && key != []
    ensures qs == ps[..a] + BulletBlock(ps[a], key, items) + ps[a + 1..]
  {
    if Contains(ParagraphText(ps[a]), key) {
      qs := ReplaceWithBulletPoints(ps, a, key, items);
    } else {
      KeptAnchor(ps, a);
      qs := ps;
    }
  }

  /** The second pass on the paragraph at index `a`: education, then skills,
      then languages. */
  method FillSectionsAt(ps: seq<Paragraph>, a: nat, data: Resume) returns (qs: seq<Paragraph>)
    requires a < |ps|
    ensures qs == ps[..a] + Block(ps[a], Sections(data)) + ps[a + 1..]
  {
    var b1 := EducationBlock(ps[a], data.education.GetOr([]));
    var qs1 := FillEducationAt(ps, a, data.education.GetOr([]));
    Nest(ps[..a], b1, ps[a + 1..], []);
    var b2 := BulletBlock(b1[0], SkillsKey, data.skills.GetOr([]));
    var qs2 := FillBulletsAt(qs1, a, SkillsKey, data.skills.GetOr([]));
    Nest(ps[..a], b1, ps[a + 1..], b2);
    Nest(ps[..a], b2 + b1[1..], ps[a + 1..], []);
    var b3 := BulletBlock(b2[0], LanguagesKey, data.languages.GetOr([]));
    qs := FillBulletsAt(qs2, a, LanguagesKey, data.languages.GetOr([]));
    Nest(ps[..a], b2 + b1[1..], ps[a + 1..], b3);
    TailOfConcat(b3, b2, b1[1..]);
  }

  /** Filling the paragraph at index `a` of a copied template row with one
      record: the three scalar fields, then the job-description bullets,
      then the achievement bullets. */
  method FillRecordAt(ps: seq<Paragraph>, a: nat, e: Experience) returns (qs: seq<Paragraph>)
    requires a < |ps|
    ensures qs == ps[..a] + Block(ps[a], Record(e)) + ps[a + 1..]
  {
    var pairs := RecordReplacements(e);
    var p := ps[a];
    var i := 0;
    while i < |pairs|
      invariant 0 <= i <= |pairs|
      invariant p == SubstituteAll(ps[a], pairs[..i])
    {
      p := ReplaceTextInParagraph(p, pairs[i].0, pairs[i].1);
      assert pairs[..i + 1][..i] == pairs[..i];
      i := i + 1;
    }
    assert pairs[..i] == pairs;
    var qs0 := ps[a := p];
    Nest(ps[..a], [ps[a]], ps[a + 1..], []);
    Nest(ps[..a], [ps[a]], ps[a + 1..], [p]);
    var b1 := BulletBlock(p, JobDescriptionKey, e.jobDescription.GetOr([]));
    var qs1 := FillBulletsAt(qs0, a, JobDescriptionKey, e.jobDescription.GetOr([]));
    Nest(ps[..a], [p], ps[a + 1..], b1);
    Nest(ps[..a], b1, ps[a + 1..], []);
    var b2 := BulletBlock(b1[0], AchievementsKey, e.achievements.GetOr([]));
    qs := FillBulletsAt(qs1, a, AchievementsKey, e.achievements.GetOr([]));
    Nest(ps[..a], b1, ps[a + 1..], b2);
  }

  /** One pass on the paragraph at index `a`. */
  method FillParagraphAt(ps: seq<Paragraph>, a: nat, f: Filler) returns (qs: seq<Paragraph>)
    requires a < |ps|
    ensures qs == ps[..a] + Block(ps[a], f) + ps[a + 1..]
  {
    match f
    case Contact(data) => qs := FillContactAt(ps, a, data);
    case Sections(data) => qs := FillSectionsAt(ps, a, data);
    case Record(e) => qs := FillRecordAt(ps, a, e);
  }

  /** Replacing `x`, which follows `done`, by the block `b`. */
  lemma Splice<T>(done: seq<T>, x: T, rest: seq<T>, b: seq<T>)
    ensures var ps := done + [x] + rest;
      && |done| < |ps| && ps[|done|] == x
      && ps[..|done|] + b + ps[|done| + 1..] == (done + b) + rest
  {
    var ps := done + [x] + rest;
    assert ps[..|done|] == done;
    assert ps[|done| + 1..] == rest;
  }

  /** Replacing the first element after `done` by `x`. */
  lemma MapStep<T>(done: seq<T>, rest: seq<T>, x: T)
    requires rest != []
    ensures (done + rest)[|done| := x] == (done + [x]) + rest[1..]
  {
  }

  /** Expanding one more paragraph appends its block. */
  lemma ExpandStep(snapshot: seq<Paragraph>, i: nat, f: Filler)
    requires i < |snapshot|
    ensures Expand(snapshot[..i + 1], f) == Expand(snapshot[..i], f) + Block(snapshot[i], f)
  {
    assert snapshot[..i + 1][..i] == snapshot[..i];
  }

  /** Midway through a pass over a snapshot, the next paragraph to visit
      sits right after the blocks of those visited. */
  lemma ExpandSnapshotAt(snapshot: seq<Paragraph>, i: nat, f: Filler, ps: seq<Paragraph>, at: nat)
    requires i < |snapshot|
    requires ps == Expand(snapshot[..i], f) + snapshot[i..]
    requires at == |Expand(snapshot[..i], f)|
    ensures at < |ps| && ps[at] == snapshot[i]
  {
  }

  /** Visiting the next paragraph of a snapshot puts its block in its
      place, and the paragraph after it moves down past the inserted ones. */
  lemma ExpandSnapshotStep(snapshot: seq<Paragraph>, i: nat, f: Filler, ps: seq<Paragraph>, at: nat, qs: seq<Paragraph>)
    requires i < |snapshot|
    requires ps == Expand(snapshot[..i], f) + snapshot[i..]
    requires at == |Expand(snapshot[..i], f)|
    requires at < |ps| && qs == ps[..at] + Block(ps[at], f) + ps[at + 1..]
    ensures qs == Expand(snapshot[..i + 1], f) + snapshot[i + 1..]
    ensures at + 1 + (|qs| - |ps|) == |Expand(snapshot[..i + 1], f)|
  {
    var done := Expand(snapshot[..i], f);
    ExpandSnapshotAt(snapshot, i, f, ps, at);
    SpliceAfterDone(done, snapshot, i, Block(snapshot[i], f), qs);
    ExpandStep(snapshot, i, f);
  }

  /** Replacing the element of `done + xs[i..]` at `|done|` by `block` gives
      `done + block` followed by the rest of `xs`. */
  lemma SpliceAfterDone<T>(done: seq<T>, xs: seq<T>, i: nat, block: seq<T>, qs: seq<T>)
    requires i < |xs|
    requires var ps := done + xs[i..]; qs == ps[..|done|] + block + ps[|done| + 1..]
    ensures qs == (done + block) + xs[i + 1..]
    ensures |done| + 1 + (|qs| - |done + xs[i..]|) == |done + block|
  {
    var ps := done + xs[i..];
    assert ps[..|done|] == done;
    assert ps[|done| + 1..] == xs[i..][1..] == xs[i + 1..];
  }

  /** A cell after a pass: its paragraphs expanded. */
  function FilledCell(c: Cell, f: Filler): (filled: Cell) {
    Cell(Expand(c.paragraphs, f))
  }

  /** One pass over a cell: the paragraphs of a snapshot taken before the
      pass are visited in order, each at the index it has reached by then,
      which moves down past whatever the earlier visits inserted. */
  method FillCell(c: Cell, f: Filler) returns (d: Cell)
    ensures d == FilledCell(c, f)
  {
    var snapshot := c.paragraphs;
    var ps := snapshot;
    var at := 0;
    var i := 0;
    while i < |snapshot|
      invariant 0 <= i <= |snapshot|
      invariant ps == Expand(snapshot[..i], f) + snapshot[i..]
      invariant at == |Expand(snapshot[..i], f)|
    {
      ExpandSnapshotAt(snapshot, i, f, ps, at);
      var qs := FillParagraphAt(ps, at, f);
      ExpandSnapshotStep(snapshot, i, f, ps, at, qs);
      at := at + 1 + (|qs| - |ps|);
      ps := qs;
      i := i + 1;
    }
    assert snapshot[..i] == snapshot;
    d := Cell(ps);
  }

  /** The cells of a row after a pass, in order. */
  function FilledCells(cells: seq<Cell>, f: Filler): (ds: seq<Cell>)
    ensures |ds| == |cells|
    decreases |cells|
  {
    if cells == [] then []
    else FilledCells(cells[..|cells| - 1], f) + [FilledCell(cells[|cells| - 1], f)]
  }

  /** A row after a pass: each of its cells filled. */
  function FilledRow(r: Row, f: Filler): (filled: Row) {
    Row(FilledCells(r.cells, f))
  }

  /** One pass over a row: its cells, in order. */
  method FillRow(r: Row, f: Filler) returns (s: Row)
    ensures s == FilledRow(r, f)
  {
    var input := r.cells;
    var cells := input;
    var i := 0;
    while i < |input|
      invariant 0 <= i <= |input|
      invariant cells == FilledCells(input[..i], f) + input[i..]
    {
      var d := FillCell(input[i], f);
      FilledCellsStep(input, i, f, cells, d);
      cells := cells[i := d];
      i := i + 1;
    }
    assert input[..i] == input;
    s := Row(cells);
  }

  /** Filling one more cell of a row. */
  lemma FilledCellsStep(input: seq<Cell>, i: nat, f: Filler, cells: seq<Cell>, d: Cell)
    requires i < |input|
    requires cells == FilledCells(input[..i], f) + input[i..]
    requires d == FilledCell(input[i], f)
    ensures cells[i := d] == FilledCells(input[..i + 1], f) + input[i + 1..]
  {
    MapStep(FilledCells(input[..i], f), input[i..], d);
    assert input[..i + 1][..i] == input[..i];
  }

  /** The rows of a table after a pass, in order. */
  function FilledRows(rows: seq<Row>, f: Filler): (ss: seq<Row>)
    ensures |ss| == |rows|
    decreases |rows|
  {
    if rows == [] then []
    else FilledRows(rows[..|rows| - 1], f) + [FilledRow(rows[|rows| - 1], f)]
  }

  /** A table after a pass: each of its rows filled. */
  function FilledTable(t: Table, f: Filler): (filled: Table) {
    Table(FilledRows(t.rows, f))
  }

  /** One pass over a table: its rows, in order. */
  method FillTable(t: Table, f: Filler) returns (u: Table)
    ensures u == FilledTable(t, f)
  {
    var input := t.rows;
    var rows := input;
    var i := 0;
    while i < |input|
      invariant 0 <= i <= |input|
      invariant rows == FilledRows(input[..i], f) + input[i..]
    {
      var s := FillRow(input[i], f);
      FilledRowsStep(input, i, f, rows, s);
      rows := rows[i := s];
      i := i + 1;
    }
    assert input[..i] == input;
    u := Table(rows);
  }

  /** Filling one more row of a table. */
  lemma FilledRowsStep(input: seq<Row>, i: nat, f: Filler, rows: seq<Row>, s: Row)
    requires i < |input|
    requires rows == FilledRows(input[..i], f) + input[i..]
    requires s == FilledRow(input[i], f)
    ensures rows[i := s] == FilledRows(input[..i + 1], f) + input[i + 1..]
  {
    MapStep(FilledRows(input[..i], f), input[i..], s);
    assert input[..i + 1][..i] == input[..i];
  }

  /** The tables of a document after a pass, in order. */
  function FilledTables(tables: seq<Table>, f: Filler): (us: seq<Table>)
    ensures |us| == |tables|
    decreases |tables|
  {
    if tables == [] then []
    else FilledTables(tables[..|tables| - 1], f) + [FilledTable(tables[|tables| - 1], f)]
  }

  /** Filling one more table of a document. */
  lemma FilledTablesStep(input: seq<Table>, i: nat, f: Filler, tables: seq<Table>, u: Table)
    requires i < |input|
    requires tables == FilledTables(input[..i], f) + input[i..]
    requires u == FilledTable(input[i], f)
    ensures i < |tables| && tables[i] == input[i]
    ensures tables[i := u] == FilledTables(input[..i + 1], f) + input[i + 1..]
  {
    MapStep(FilledTables(input[..i], f), input[i..], u);
    assert input[..i + 1][..i] == input[..i];
  }

  /** Whenever the education text spans more than one line (two entries, or
      one entry with two values) the generator as written raises on a
      paragraph naming the education placeholder, after rewriting it. */
  lemma EducationAsWrittenRaises(ps: seq<Paragraph>, a: nat, es: seq<Education>)
    requires a < |ps| && Contains(ParagraphText(ps[a]), EducationKey)
    requires |es| >= 2 || (|es| == 1 && |EntryFields(es[0])| >= 2)
    ensures MultilineAsWritten(ps, a, EducationKey, FormatEducation(es)).Failed?
  {
    FormatEducationIsJoinOfLines(es);
    assert |EducationLines(es)| >= 2;
    JoinHasSep(EducationLines(es), LineBreak);
    MultilineAsWrittenDiffers(ps, a, EducationKey, FormatEducation(es));
  }
}
