/** The analyse request: detect the review's language, translate it to English
    when it is not English, score and classify it, log the result, and answer. */
module Pipeline {
  import opened Outcomes
  import opened Verdict
  import ResultLog

  /** The external services. Detection and translation go over the network and
      may raise (None); scoring gives the compound score of an English text. */
  datatype Services = Services(
    detect: string -> Option<string>,
    translate: (string, string) -> Option<string>,
    score: string -> real)

  /** One call the request makes to a service or to the result logger. */
  datatype Call =
    | Detect(text: string)
    | Translate(text: string, dest: string)
    | Score(text: string)
    | Record(row: seq<string>)

  /** What the request answers. */
  datatype Response =
    | ResultPage(review: string, sentiment: string, detectedLanguage: string)
    | ErrorText(body: string, status: nat)
    | ServiceFailure  // a detection or translation error, which the request does not catch

  /** The language code of English, which is never translated. */
  const English: string := "en"

  /** The start of the answer's body when logging fails. */
  const SaveErrorPrefix: string := "Error saving to Excel: "

  /** Status of the answer when logging fails. */
  const ServerErrorStatus: nat := 500

  /** The row the request logs: the original review, its verdict's label, and the
      detected language. */
  function LoggedRow(review: string, score: real, detectedLanguage: string): (row: seq<string>)
    ensures |row| == 3 && row[0] == review && row[2] == detectedLanguage
    ensures ParseVerdict(row[1]) == Some(Classify(score))
  {
    ParseLabel(Classify(score));
    [review, Label(Classify(score)), detectedLanguage]
  }

  /** Logging `row` into `file` ended the request with `response`, leaving `after`:
      a successful save shows the result page for the row and leaves the saved
      sheet; a logging error answers its message with status 500 and leaves the
      store as it was. */
  ghost predicate LoggedAndAnswered(file: ResultLog.StoredFile, row: seq<string>, saveError: Option<string>,
                                    response: Response, after: ResultLog.StoredFile)
    requires |row| == 3
  {
    match ResultLog.Recorded(file, row, saveError)
    case Ok(data) => response == ResultPage(row[0], row[1], row[2]) && after == ResultLog.Readable(data)
    case Err(e) => response == ErrorText(SaveErrorPrefix + e, ServerErrorStatus) && after == file
  }

  /** Handles one submitted review against the store `file`; `saveError` is the
      error the logger raises after loading the store, if any. Returns the answer, the store after
      the request, and the calls made, in order. */
  method Analyze(services: Services, review: string, file: ResultLog.StoredFile, saveError: Option<string>)
    returns (response: Response, after: ResultLog.StoredFile, calls: seq<Call>)
    // a detection error is not caught: nothing else happens
    ensures services.detect(review).None? ==>
              calls == [Detect(review)] && response == ServiceFailure && after == file
    // English is scored as written
    ensures services.detect(review) == Some(English) ==>
              var row := LoggedRow(review, services.score(review), English);
              calls == [Detect(review), Score(review), Record(row)] &&
              LoggedAndAnswered(file, row, saveError, response, after)
    // any other language is translated to English first; a translation error is not caught
    ensures services.detect(review).Some? && services.detect(review).value != English ==>
              var language := services.detect(review).value;
              match services.translate(review, English)
              case None =>
                calls == [Detect(review), Translate(review, English)] && response == ServiceFailure && after == file
              case Some(translated) =>
                var row := LoggedRow(review, services.score(translated), language);
                calls == [Detect(review), Translate(review, English), Score(translated), Record(row)] &&
                LoggedAndAnswered(file, row, saveError, response, after)
    // translation is asked for exactly when the detected language is not English
    ensures (exists k :: 0 <= k < |calls| && calls[k].Translate?) <==>
              services.detect(review).Some? && services.detect(review).value != English
    // what is logged and shown is the original review with the detected language
    ensures forall k :: 0 <= k < |calls| && calls[k].Record? ==>
              |calls[k].row| == 3 && calls[k].row[0] == review &&
              Some(calls[k].row[2]) == services.detect(review)
    ensures response.ResultPage? ==>
              response.review == review && Some(response.detectedLanguage) == services.detect(review)
  {
    calls := [Detect(review)];
    var newReview := review;
    var detected := services.detect(review);
    if detected.None? {
      return ServiceFailure, file, calls;
    }
    var detectedLanguage := detected.value;
    if detectedLanguage != English {
      calls := calls + [Translate(review, English)];
      var translation := services.translate(review, English);
      if translation.None? {
        assert calls[1].Translate?;
        return ServiceFailure, file, calls;
      }
      newReview := translation.value;
    }
    calls := calls + [Score(newReview)];
    var sentimentScore := services.score(newReview);
    var sentiment := Label(Classify(sentimentScore));
    calls := calls + [Record(LoggedRow(review, sentimentScore, detectedLanguage))];
    assert detectedLanguage != English ==> calls[1].Translate?;
    var logged := ResultLog.RecordSentiment(file, review, sentiment, detectedLanguage, saveError);
    if logged.Err? {
      return ErrorText(SaveErrorPrefix + logged.message, ServerErrorStatus), file, calls;
    }
    response := ResultPage(review, sentiment, detectedLanguage);
    after := ResultLog.Readable(logged.value);
  }
}
