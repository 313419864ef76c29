/** normalize_headers: one canonical string per raw column label. */
module Headers {
  import opened Wrappers
  import opened Text

  /**
   * One label: `None` becomes "", any other label (given here as its `str()`
   * text) has its newlines turned into spaces, is stripped, and has its
   * whitespace runs collapsed to one space (NormalizeLabelWords: the label's
   * words joined by single spaces).
   */
  function NormalizeLabel(raw: Option<string>): (h: string)
    ensures Canonical(h)
    ensures raw.None? ==> h == ""
    ensures raw.Some? ==> RemoveSpaces(h) == RemoveSpaces(raw.value)
  {
    match raw
    case None => ""
    case Some(s) =>
      NormalizeTextCanonical(s);
      NormalizeTextKeepsText(s);
      NormalizeText(s)
  }

  /** A text label normalises to `" ".join(label.split())`: its words, in order, one space apart. */
  lemma NormalizeLabelWords(raw: Option<string>)
    ensures raw.Some? ==> NormalizeLabel(raw) == JoinWords(Words(raw.value))
  {
    if raw.Some? {
      NormalizeTextWords(raw.value);
    }
  }

  /** The header row normalize_headers returns, as a value. */
  function HeaderRow(labels: seq<Option<string>>): (hs: seq<string>)
    ensures |hs| == |labels|
    ensures forall i :: 0 <= i < |hs| ==> Canonical(hs[i])
    ensures forall i :: 0 <= i < |hs| && labels[i].None? ==> hs[i] == ""
  {
    seq(|labels|, i requires 0 <= i < |labels| => NormalizeLabel(labels[i]))
  }

  /** Column labels that are already strings, as labels. */
  function AsLabels(names: seq<string>): (labels: seq<Option<string>>)
    ensures |labels| == |names|
    ensures forall i :: 0 <= i < |names| ==> labels[i] == Some(names[i])
  {
    seq(|names|, i requires 0 <= i < |names| => Some(names[i]))
  }

  /** The loop of normalize_headers, appending one normalised label per input label. */
  method NormalizeHeaders(labels: seq<Option<string>>) returns (norm: seq<string>)
    ensures |norm| == |labels|
    ensures forall i :: 0 <= i < |labels| ==> norm[i] == NormalizeLabel(labels[i])
    ensures norm == HeaderRow(labels)
  {
    norm := [];
    for i := 0 to |labels|
      invariant |norm| == i
      invariant forall k :: 0 <= k < i ==> norm[k] == NormalizeLabel(labels[k])
    {
      var h: string;
      match labels[i] {
        case None =>
          h := "";
        case Some(s) =>
          h := Collapse(Strip(ReplaceNewlines(s)));
      }
      norm := norm + [h];
    }
  }

  /** A label normalises to itself exactly when it is already canonical. */
  lemma NormalizeLabelFixedPoint(s: string)
    ensures NormalizeLabel(Some(s)) == s <==> Canonical(s)
  {
    if Canonical(s) {
      CanonicalIsFixedPoint(s);
    }
  }

  /** Normalising an already normalised header row changes nothing. */
  lemma HeaderRowIdempotent(labels: seq<Option<string>>)
    ensures HeaderRow(AsLabels(HeaderRow(labels))) == HeaderRow(labels)
  {
    var hs := HeaderRow(labels);
    forall i | 0 <= i < |hs|
      ensures HeaderRow(AsLabels(hs))[i] == hs[i]
    {
      NormalizeLabelFixedPoint(hs[i]);
    }
  }

  /** On a row of canonical names the header row is the row itself. */
  lemma HeaderRowOfCanonical(names: seq<string>)
    requires forall i :: 0 <= i < |names| ==> Canonical(names[i])
    ensures HeaderRow(AsLabels(names)) == names
  {
    forall i | 0 <= i < |names|
      ensures HeaderRow(AsLabels(names))[i] == names[i]
    {
      NormalizeLabelFixedPoint(names[i]);
    }
  }
}
