/** Client code: concrete requests whose outcomes follow from the contracts alone,
    with fixed answers standing in for the external services. */
module Scenarios {
  import opened Outcomes
  import opened Verdict
  import opened ResultLog
  import opened Pipeline

  /** An English review is scored as written and never translated. */
  method EnglishReviewIsNotTranslated() {
    var services := Services(t => Some("en"), (t, d) => None, t => 0.8);
    var response, after, calls := Analyze(services, "I love this product!", Missing, None);
    assert !exists k :: 0 <= k < |calls| && calls[k].Translate?;
    assert calls[1] == Score("I love this product!");
    assert response == ResultPage("I love this product!", "Positive \U{1F600}", "en");
  }

  /** A Spanish review is translated once and stored with its own text and language. */
  method SpanishReviewIsTranslatedAndStored() {
    var services := Services(t => Some("es"), (t, d) => Some("This product is terrible"), t => -0.7);
    var review := "Este producto es terrible";
    var response, after, calls := Analyze(services, review, Missing, None);
    assert calls[1] == Translate(review, "en");
    assert calls[2] == Score("This product is terrible");
    RecordedStore(Missing, [review, "Negative \U{1F61E}", "es"], None);
    assert response == ResultPage(review, "Negative \U{1F61E}", "es");
    assert after.Readable? && after.data.rows == [Header, [review, "Negative \U{1F61E}", "es"]];
  }

  /** A zero score is Neutral. */
  method ZeroScoreIsNeutral() {
    var services := Services(t => Some("en"), (t, d) => None, t => 0.0);
    var response, after, calls := Analyze(services, "It is a table.", Missing, None);
    RecordedStore(Missing, ["It is a table.", "Neutral \U{1F610}", "en"], None);
    assert response == ResultPage("It is a table.", "Neutral \U{1F610}", "en");
  }

  /** A failing save answers the error and leaves the stored sheet as it was. */
  method FailingSaveKeepsStore(prior: SheetData) {
    var services := Services(t => Some("en"), (t, d) => None, t => 0.3);
    var response, after, calls := Analyze(services, "Fine", Readable(prior), Some("disk full"));
    assert response == ErrorText("Error saving to Excel: disk full", 500);
    assert after == Readable(prior);
  }
}
