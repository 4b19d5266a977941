/** The file name `exportToPdf` gives a report: the topic with each run of
    whitespace replaced by one underscore, followed by `_research.pdf`. */
module PdfExport {
  import opened Text

  const PdfSuffix := "_research.pdf"

  /** `replace(/\s+/g, '_')`: each maximal run of whitespace becomes one
      underscore; every other character is kept in place. */
  function Underscored(s: string): (r: string)
    ensures |r| <= |s|
    ensures forall i :: 0 <= i < |r| ==> !IsSpace(r[i])
    decreases |s|
  {
    if s == [] then []
    else if IsSpace(s[0]) then "_" + Underscored(TrimStart(s))
    else [s[0]] + Underscored(s[1..])
  }

  /** Text without whitespace is left as it is. */
  lemma {:induction false} UnderscoredKeepsWords(s: string)
    requires forall i :: 0 <= i < |s| ==> !IsSpace(s[i])
    ensures Underscored(s) == s
    decreases |s|
  {
    if s != [] {
      UnderscoredKeepsWords(s[1..]);
    }
  }

  /** A whole run of whitespace, however long, gives a single underscore. */
  lemma {:induction false} RunBecomesOneUnderscore(run: string, rest: string)
    requires run != [] && IsBlank(run)
    requires rest == [] || !IsSpace(rest[0])
    ensures Underscored(run + rest) == "_" + Underscored(rest)
  {
    TrimStartOfRun(run, rest);
  }

  lemma {:induction false} TrimStartOfRun(run: string, rest: string)
    requires IsBlank(run)
    requires rest == [] || !IsSpace(rest[0])
    ensures TrimStart(run + rest) == rest
    decreases |run|
  {
    if run == [] {
      assert run + rest == rest;
    } else {
      assert (run + rest)[1..] == run[1..] + rest;
      TrimStartOfRun(run[1..], rest);
    }
  }

  /** Splitting the topic anywhere but inside a run of whitespace, the two
      sides are converted independently. */
  lemma {:induction false} UnderscoredAppend(a: string, b: string)
    requires a == [] || !IsSpace(a[|a| - 1])
    ensures Underscored(a + b) == Underscored(a) + Underscored(b)
    decreases |a|
  {
    if a == [] {
      assert a + b == b;
    } else if IsSpace(a[0]) {
      var t := TrimStart(a);
      TrimStartDropsBlank(a);
      TrimStartIsSuffix(a);
      assert t != [] by {
        assert !IsSpace(a[|a| - 1]);
      }
      var run := a[..|a| - |t|];
      assert a == run + t;
      assert a + b == run + (t + b);
      RunBecomesOneUnderscore(run, t + b);
      RunBecomesOneUnderscore(run, t);
      UnderscoredAppend(t, b);
    } else {
      assert (a + b)[1..] == a[1..] + b;
      UnderscoredAppend(a[1..], b);
    }
  }

  /** The name of the exported file. */
  function PdfFileName(topic: string): (name: string)
    ensures |name| >= |PdfSuffix| && name[|name| - |PdfSuffix|..] == PdfSuffix
    ensures name[..|name| - |PdfSuffix|] == Underscored(topic)
  {
    Underscored(topic) + PdfSuffix
  }

  /** Two words separated by any whitespace are joined by one underscore. */
  lemma TwoWords(w1: string, gap: string, w2: string)
    requires w1 != [] && w2 != [] && gap != [] && IsBlank(gap)
    requires forall i :: 0 <= i < |w1| ==> !IsSpace(w1[i])
    requires forall i :: 0 <= i < |w2| ==> !IsSpace(w2[i])
    ensures PdfFileName(w1 + gap + w2) == w1 + "_" + w2 + PdfSuffix
  {
    assert w1 + gap + w2 == w1 + (gap + w2);
    calc {
      Underscored(w1 + (gap + w2));
      { UnderscoredAppend(w1, gap + w2); }
      Underscored(w1) + Underscored(gap + w2);
      { RunBecomesOneUnderscore(gap, w2); }
      Underscored(w1) + ("_" + Underscored(w2));
      { UnderscoredKeepsWords(w1); UnderscoredKeepsWords(w2); }
      w1 + ("_" + w2);
    }
  }
}
