/** Mapping the compound polarity score to one of three verdicts. */
module Verdict {
  import opened Outcomes

  datatype Sentiment = Positive | Negative | Neutral

  /** The two thresholds; both comparisons are strict. */
  const PositiveThreshold: real := 0.05
  const NegativeThreshold: real := -0.05

  /** Classification of a compound score. Total over the reals; the two
      thresholds themselves are Neutral. */
  function Classify(score: real): (v: Sentiment)
    ensures v == Positive <==> score > PositiveThreshold
    ensures v == Negative <==> score < NegativeThreshold
    ensures v == Neutral <==> NegativeThreshold <= score <= PositiveThreshold
  {
    if score > PositiveThreshold then Positive
    else if score < NegativeThreshold then Negative
    else Neutral
  }

  /** The display label of a verdict, as it is rendered and stored in the sheet. */
  function Label(v: Sentiment): string
  {
    match v
    case Positive => "Positive \U{1F600}"
    case Negative => "Negative \U{1F61E}"
    case Neutral => "Neutral \U{1F610}"
  }

  /** Reading a verdict back from a stored label; any other text is no verdict. */
  function ParseVerdict(text: string): (v: Option<Sentiment>)
    ensures v.Some? ==> Label(v.value) == text
  {
    if text == Label(Positive) then Some(Positive)
    else if text == Label(Negative) then Some(Negative)
    else if text == Label(Neutral) then Some(Neutral)
    else None
  }

  /** Every label reads back as its verdict. */
  lemma ParseLabel(v: Sentiment)
    ensures ParseVerdict(Label(v)) == Some(v)
  {
  }

  /** Distinct verdicts have distinct labels, so a stored label determines its verdict. */
  lemma LabelsDistinct(v: Sentiment, w: Sentiment)
    ensures Label(v) == Label(w) <==> v == w
  {
  }

  /** Position of a verdict on the polarity scale. */
  function Rank(v: Sentiment): nat
  {
    match v
    case Negative => 0
    case Neutral => 1
    case Positive => 2
  }

  /** A higher score never gives a more negative verdict. */
  lemma ClassifyMonotone(s: real, t: real)
    requires s <= t
    ensures Rank(Classify(s)) <= Rank(Classify(t))
  {
  }
}
