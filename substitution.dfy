/** Scalar substitution: replacing a placeholder by a value inside each run
    of a paragraph that holds it whole. Matching is per run, so a placeholder
    split across two runs is never replaced. */
module Substitution {
  import opened Strings
  import opened Docx

  /** The run with every occurrence of `key` in its text replaced. */
  function SubstituteRun(r: Run, key: string, value: string): (s: Run)
    requires key != []
  {
    r.(text := ReplaceAll(r.text, key, value))
  }

  /** Each run with every occurrence of `key` in its text replaced. */
  function SubstituteRuns(runs: seq<Run>, key: string, value: string): (rs: seq<Run>)
    requires key != []
    ensures |rs| == |runs|
  {
    if runs == [] then [] else [SubstituteRun(runs[0], key, value)] + SubstituteRuns(runs[1..], key, value)
  }

  /** The `i`th substituted run is run `i` substituted. */
  lemma {:induction false} SubstituteRunsAt(runs: seq<Run>, key: string, value: string, i: nat)
    requires key != [] && i < |runs|
    ensures SubstituteRuns(runs, key, value)[i] == SubstituteRun(runs[i], key, value)
  {
    if i > 0 {
      SubstituteRunsAt(runs[1..], key, value, i - 1);
    }
  }

  /** The paragraph after `replace_text_in_paragraph(p, key, value)`. */
  function Substitute(p: Paragraph, key: string, value: string): (q: Paragraph)
    requires key != []
  {
    p.(runs := SubstituteRuns(p.runs, key, value))
  }

  /** `replace_text_in_paragraph`: visits the runs in order and rewrites the
      text of each run that holds `key` with every occurrence of `key`
      replaced by `value`. */
  method ReplaceTextInParagraph(p: Paragraph, key: string, value: string) returns (q: Paragraph)
    requires key != []
    ensures q == Substitute(p, key, value)
  {
    var runs := p.runs;
    var i := 0;
    while i < |runs|
      invariant 0 <= i <= |runs| == |p.runs|
      invariant forall j :: 0 <= j < i ==> runs[j] == SubstituteRun(p.runs[j], key, value)
      invariant forall j :: i <= j < |runs| ==> runs[j] == p.runs[j]
    {
      if Contains(runs[i].text, key) {
        runs := runs[i := runs[i].(text := ReplaceAll(runs[i].text, key, value))];
      } else {
        ReplaceAllAbsent(runs[i].text, key, value);
      }
      i := i + 1;
    }
    q := p.(runs := runs);
    forall j | 0 <= j < |p.runs|
      ensures q.runs[j] == SubstituteRuns(p.runs, key, value)[j]
    {
      SubstituteRunsAt(p.runs, key, value, j);
    }
  }

  /** Scalar substitution keeps the paragraph format, the run count, the run
      order and every run's font; each run's text becomes its old text with
      every non-overlapping occurrence of `key` replaced by `value`, and a run
      whose text lacks `key` is unchanged. */
  lemma {:induction false} SubstituteKeepsFormatting(p: Paragraph, key: string, value: string)
    requires key != []
    ensures var q := Substitute(p, key, value);
      && q.format == p.format
      && |q.runs| == |p.runs|
      && (forall i :: 0 <= i < |p.runs| ==>
            && q.runs[i].font == p.runs[i].font
            && q.runs[i].text == ReplaceAll(p.runs[i].text, key, value))
      && (forall i :: 0 <= i < |p.runs| && !Contains(p.runs[i].text, key) ==> q.runs[i] == p.runs[i])
  {
    var q := Substitute(p, key, value);
    forall i | 0 <= i < |p.runs|
      ensures q.runs[i] == SubstituteRun(p.runs[i], key, value)
    {
      SubstituteRunsAt(p.runs, key, value, i);
    }
    forall i | 0 <= i < |p.runs| && !Contains(p.runs[i].text, key)
      ensures q.runs[i] == p.runs[i]
    {
      ReplaceAllAbsent(p.runs[i].text, key, value);
    }
  }

  /** Substitution in a paragraph of one run rewrites that run. */
  lemma SubstituteSingleRun(format: ParagraphFormat, r: Run, key: string, value: string)
    requires key != []
    ensures Substitute(Paragraph(format, [r]), key, value) == Paragraph(format, [SubstituteRun(r, key, value)])
  {
    assert [r][1..] == [];
  }

  /** A one-run paragraph whose run is exactly the key becomes a one-run
      paragraph holding exactly the value, in the same font. */
  lemma SubstituteWholeRun(format: ParagraphFormat, f: Font, key: string, value: string)
    requires key != []
    ensures Substitute(Paragraph(format, [Run(key, f)]), key, value) == Paragraph(format, [Run(value, f)])
  {
    ReplaceAllWhole(key, value);
    SubstituteSingleRun(format, Run(key, f), key, value);
  }

  /** Substitution is a no-op on a paragraph none of whose runs holds the
      key, in particular on one whose text lacks it. */
  lemma SubstituteAbsent(p: Paragraph, key: string, value: string)
    requires key != []
    requires forall i :: 0 <= i < |p.runs| ==> !Contains(p.runs[i].text, key)
    ensures Substitute(p, key, value) == p
  {
    forall i | 0 <= i < |p.runs|
      ensures SubstituteRuns(p.runs, key, value)[i] == p.runs[i]
    {
      SubstituteRunsAt(p.runs, key, value, i);
      ReplaceAllAbsent(p.runs[i].text, key, value);
    }
  }

  /** A paragraph whose text lacks the key has no run holding it. */
  lemma NoRunHoldsAbsentKey(p: Paragraph, key: string)
    requires !Contains(ParagraphText(p), key)
    ensures forall i :: 0 <= i < |p.runs| ==> !Contains(p.runs[i].text, key)
  {
    forall i | 0 <= i < |p.runs|
      ensures !Contains(p.runs[i].text, key)
    {
      if Contains(p.runs[i].text, key) {
        RunKeyInText(p.runs, i, key);
      }
    }
  }

  /** The documented limitation: a placeholder split across two runs is in
      the paragraph's text, yet substitution leaves the paragraph as it was. */
  lemma SplitPlaceholderIsNotReplaced(f: Font, value: string)
    ensures var p := Paragraph(DefaultFormat, [Run("{NA", f), Run("ME}", f)]);
            && Contains(ParagraphText(p), "{NAME}")
            && Substitute(p, "{NAME}", value) == p
  {
    var p := Paragraph(DefaultFormat, [Run("{NA", f), Run("ME}", f)]);
    assert p.runs[1..] == [Run("ME}", f)] && p.runs[1..][1..] == [];
    assert RunsText(p.runs[1..]) == "ME}";
    assert ParagraphText(p) == "{NAME}";
    assert StartsWith(ParagraphText(p), "{NAME}");
    assert !Contains("ME}", "{NAME}") by {
      assert "ME}"[1..] == "E}" && "E}"[1..] == "}" && "}"[1..] == [];
    }
    assert !Contains("{NA", "{NAME}") by {
      assert "{NA"[1..] == "NA" && "NA"[1..] == "A" && "A"[1..] == [];
    }
    SubstituteAbsent(p, "{NAME}", value);
  }
}
