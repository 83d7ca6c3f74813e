# Sentiment analyzer: review pipeline and result log

A model of the core of a small web application that takes a product review,
detects its language, translates it to English when needed, classifies the
compound sentiment score as Positive, Negative or Neutral, and appends the
result as a row to a spreadsheet. The model covers three parts of `app.py`:

- **Verdict classification** (`verdict.dfy`, module `Verdict`): the three-way
  threshold map from the compound score, taken as a `real`, to a verdict
  and its display label.
- **Result log** (`columns.dfy`, module `Columns`, and `result_log.dfy`,
  module `ResultLog`): `record_sentiment_to_excel`. The sheet is a class
  `Sheet` whose rows (`seq<seq<string>>`) and column widths (`map<nat, nat>`,
  keyed by 1-based column number in place of column letters) are updated in
  place. A new store gets the title "Sentiment Results" and the header
  `["Review", "Sentiment", "Detected Language"]`. One data row is then
  appended. The nested loop that builds the list of column maxima is the
  method `Columns.ColumnWidths`, and the loop that applies `max + 2` is
  `ResultLog.ApplyColumnWidths`. `ResultLog.RecordSentiment` is proved against
  the specification function `ResultLog.Recorded`, and the lemmas about the
  stored rows and widths are proved about that function.
- **Request pipeline** (`pipeline.dfy`, module `Pipeline`): `analyze`. Its
  order is detect, translate (only when the language is not `"en"`), score,
  classify, log, answer. `Analyze` returns the answer, the store afterwards
  and the list of calls it made, in order.

The disk file is a value `StoredFile`: `Missing`, `Readable(data)`, or
`Unreadable(reason)` for a file that raises on load. The parameter `saveError`
stands for any error the logger raises after loading, whether from the sheet's
cell checks or from the save. The detection, translation and scoring services
are function-valued fields of `Services`. Detection and translation return
`None` when they raise. Those errors are not caught by the request, so they
end it as `ServiceFailure`. A logging error is caught and answered as
`"Error saving to Excel: " + message` with status 500, and the store is left
as it was. `scenarios.dfy` holds client methods for concrete requests (an
English review, a Spanish one, a zero score, a failing save). Their outcomes
follow from the contracts alone.

## Model

| member | source | states |
|---|---|---|
| Verdict.Classify | app.py:74-79 | the verdict is Positive iff score > 0.05, Negative iff score < -0.05, and Neutral iff -0.05 <= score <= 0.05, so both thresholds are Neutral and every score gets exactly one verdict |
| Verdict.ClassifyMonotone | app.py:74-79 | a higher score never gives a more negative verdict |
| Verdict.Label | app.py:74-79 | the three display labels: "Positive " + U+1F600, "Negative " + U+1F61E and "Neutral " + U+1F610 |
| Verdict.LabelsDistinct | app.py:75-79 | two verdicts have the same display label only if they are the same verdict |
| Verdict.ParseVerdict | app.py:75-79 | reading a text back gives a verdict only if the text is that verdict's label |
| Verdict.ParseLabel | app.py:75-79 | every display label reads back as its own verdict |
| Columns.ColumnWidths | app.py:38-44 | the nested loop ends with one entry per column of the longest row, and entry i is the longest cell among the rows that have an index i |
| Columns.LongestRowIsLongest | app.py:39-44 | no row is longer than the number of computed columns, and some row is exactly that long |
| Columns.ColumnMaxBound | app.py:39-44 | every cell at index i is at most as long as the computed maximum of column i |
| Columns.ColumnMaxAttained | app.py:39-44 | for each computed column, the maximum is the length of an actual cell in it, so the bound is tight |
| Columns.ColumnMaxZero | app.py:41-44 | a column index no row reaches has no maximum (0), which is why the else branch appends exactly at the end of the list |
| ResultLog.FittedWidthsFit | app.py:46-47 | every applied width is at least each cell of its column plus 2, equals some cell of that column plus 2, and columns beyond the longest row keep their previous width |
| ResultLog.ApplyColumnWidths | app.py:46-47 | 1-based column i + 1 gets width widths[i] + 2, the other columns and the rows are unchanged |
| ResultLog.PaddedIsFitted | app.py:38-47 | padding the maxima computed by the loop gives exactly the fitted widths |
| ResultLog.Sheet.Append | app.py:32-35 | the row is added after the last row and nothing else changes |
| ResultLog.Sheet.SetColumnWidth | app.py:47 | one column's width is set and nothing else changes |
| ResultLog.Sheet.Create | app.py:28-29 | a new workbook's active sheet is titled "Sheet", with no rows and no widths |
| ResultLog.Sheet.Load | app.py:24-26 | a loaded sheet has the stored title, rows and widths |
| ResultLog.RecordSentiment | app.py:22-50 | the result is exactly what Recorded specifies for the row [review, sentiment, detected_language] |
| ResultLog.RecordedStore | app.py:22-50 | recording succeeds iff the file loads and nothing raised after loading (`saveError`) occurs; a new store holds exactly the header then the row, titled "Sentiment Results"; an existing store gains the row at the end with all earlier rows and the title unchanged; widths fit every cell and are tight; a store with the header layout keeps it |
| ResultLog.StoreRows | app.py:22-50 | the store after N successive successful Recorded steps, starting without a store, is titled "Sentiment Results" and holds the header followed by the N rows in order; when every row has three fields it has the header layout and widths that cover every cell |
| Pipeline.LoggedRow | app.py:83 | the logged row has three fields: the original review, a label that reads back as the score's verdict, and the detected language |
| Pipeline.Analyze | app.py:59-88 | detection errors and translation errors end the request as an uncaught failure with the store unchanged; English is scored as written and never translated; any other language is translated once to "en" and the translation is scored; translation is asked for iff the language is not "en"; the row logged and the page shown hold the original review and the detected language; a logging error answers "Error saving to Excel: " + message with status 500 and leaves the store as it was |

## Left out

- Flask routing, templates, `request.form` access and `app.run` are web plumbing outside the model. A missing `review` field is not modelled either: `request.form['review']` (app.py:61) then raises Flask's `BadRequestKeyError`, answered with status 400, inside `analyze` and before any service call. `ResultPage` stands for the rendered result template.
- The googletrans detection and translation services are abstract functions over strings. The model does not say which language is detected or what the translation is.
- The VADER lexicon, `nltk.download` and `polarity_scores` are left out. The compound score is an arbitrary `real` supplied by `Services.score`.
- Verdict.Classify: the score is an exact real compared with the exact decimals 0.05 and -0.05. The source compares IEEE doubles with the doubles nearest to those decimals, which lie just outside them (0.05000000000000000277 and its negation). A score equal to one of those two doubles is Neutral in the source but Positive or Negative in the model. Every other double score gets the same verdict in both.
- The openpyxl file format is not modelled, nor are `load_workbook`, `save`, `get_column_letter` and `os.path.exists`. The file is the value `StoredFile`, column letters are 1-based column numbers, and widths are natural numbers instead of floats.
- ResultLog.RecordSentiment: the failing save is assumed to leave the earlier file unchanged. A real save that fails part-way could leave a corrupt file. Load errors other than an unreadable file are not told apart.
- Columns.ColumnWidths: cells are strings, so `str()` of non-string cell values is not modelled. The source's `iter_rows` pads every row to the sheet's widest column with `None`, which `str()` turns into "None" (length 4). The model takes each row at its own length. The two agree on every sheet whose rows all have the same length, which includes every sheet this program writes. A cell holding an empty string that openpyxl would read back as empty is also kept as "".
- ResultLog.Sheet.Append: openpyxl's cell setter does two things the model's plain append does not. It raises `IllegalCharacterError` for a cell containing the control characters U+0000-U+0008, U+000B, U+000C or U+000E-U+001F, which `analyze` catches and answers with "Error saving to Excel: " and status 500; the model covers that outcome only through `saveError`, not by inspecting the review. It also cuts every cell to 32 767 characters, which changes the stored row and the width `len(str(cell))`; the model stores and measures the cell uncut.
- Concurrent requests writing the file at the same time are not modelled. The source has no locking, and every request is treated as running alone.

Three behaviours of the code are worth stating, and the model follows it:

- The logging error does not carry the computed verdict. The answer is only the error text with status 500.
- A data row is not required to have three fields in an existing store. The header layout is kept only when the store already had it (`ValidStore`).
- Only the first columns, up to the longest row, get new widths. Other columns keep theirs.
