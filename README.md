# Document sorter: a verified model of the sorting pipeline

The document sorter takes an intake folder of uploaded files, reads each file
whose name selects a reader (images through OCR, PDFs page by page, Word files
paragraph by paragraph), reports the dates and person names found in its text,
decides a category for it and moves it into a folder of that category under a
sorted tree. Files whose names select no reader stay in the intake. When every
file is handled, the sorted tree is zipped into the intake folder as
`sorted_documents.zip`.

The category decision is layered. The text is normalised (newlines become
spaces, letters are lowered, the ends are stripped). A resume keyword makes the
document a resume. Otherwise a certificate keyword makes it a certificate,
unless the text mentions "certifications" without "certificate of completion".
Only when both rules fail is a zero-shot ranking service asked, and its top
label is taken.

The model has six modules:

- `Text` (`text.dfy`): the Python string built-ins the code uses: `str.isspace`
  and `str.strip`, `str.lower` on ASCII letters, `replace("\n", " ")`, the `in`
  substring test, `str.endswith`, `str.join`, and `list(a_set)`.
- `Categorizer` (`categorizer.dfy`): normalisation, the resume and certificate
  rules and the decision, with the ranking service as a function parameter.
- `Extraction` (`extraction.dfy`): what the three readers' wrappers make of the
  readers' output (join and strip, the "no text" markers, error texts), and the
  choice of reader by file-name suffix.
- `Entities` (`entities.dfy`): the aggregation of dates and person names from
  the entity recogniser's output and the date patterns' matches.
- `Layout` (`layout.dfy`): the sorted tree as folders of named files, and what
  a sequence of moves does to it.
- `Pipeline` (`pipeline.dfy`): the batch run as a class `DocumentStore` whose
  fields are the intake folder and the sorted tree, changed in place by its
  methods. The foreign services (OCR, PDF reader, Word reader, entity
  recogniser, regular-expression search, ranking service, zip writer) are a
  `Services` value of functions.

Where the code and its documentation differ, the model follows the code:

- A PDF whose pages all lack a text layer gives the empty text, not the "no
  text" marker. The marker is returned only for a PDF without pages, because
  every page adds a newline before the strip.
- An empty ranking makes `labels[0]` raise. Nothing in the batch catches this
  (nor an exception of the recogniser or the ranking service, see "Left out"),
  so the whole batch stops at that file. No later file is handled and no
  archive is written. The model returns `RankingFailed` with that file's name.
- A file moved onto a name already present in its category folder replaces it,
  as a rename does on a POSIX file system.
- The archive is written into the intake folder, not next to it. It ends in
  ".zip", so a later batch skips it.

## Model

| member | source | states |
|---|---|---|
| Text.LowerUpper | app.py:90 | lowering a name forgets the case it was written in |
| Text.LowerIdempotent | app.py:114 | lowering twice is lowering once |
| Text.ContainsIff | app.py:119 | the left-to-right `in` search succeeds exactly when the keyword occurs at some index |
| Text.ContainsMapped | app.py:114 | a character-by-character map keeps every occurrence of a keyword |
| Text.Strip | app.py:64 | the strip has no whitespace at either end and is a slice of the input with only whitespace outside it |
| Text.StripTrimmed | app.py:114 | a string without whitespace at its ends strips to itself |
| Text.StripIdempotent | app.py:114 | stripping twice is stripping once |
| Text.StripAllSpace | app.py:74 | an all-whitespace string strips to the empty string |
| Text.StripKeepsOccurrence | app.py:114 | stripping never removes an occurrence of a keyword that starts and ends with a non-space |
| Text.JoinEmpty | app.py:81-82 | a newline join is empty exactly for no parts or a single empty part |
| Text.JoinAllSpace | app.py:81 | a join of whitespace parts with a whitespace separator is all whitespace |
| Text.ListOf | app.py:49 | `list(a_set)`: each member of the set exactly once, in some order |
| Categorizer.Preprocess | app.py:113-115 | the normalised text has no newline, no upper-case letter, and no whitespace at either end |
| Categorizer.PreprocessIdempotent | app.py:113-115 | normalising normalised text changes nothing |
| Categorizer.CertificateIff | app.py:121-127 | the certificate rule holds exactly when some certificate keyword occurs at some index of the text, unless "certifications" occurs at some index and "certificate of completion" at none |
| Categorizer.KeywordSurvivesPreprocess | app.py:113-115 | a keyword found in the lowered, newline-free text is still found after the strip |
| Categorizer.ResumeKeywordDecides | app.py:117-132 | a resume keyword anywhere in the text, in any case, makes the category "resume" whatever the ranking and whatever certificate keywords are present |
| Categorizer.CompletionDecidesCertificate | app.py:121-134 | "certificate of completion" alone makes a non-resume a certificate |
| Categorizer.CertificationsFallsThrough | app.py:124-137 | with "certifications" and no "certificate of completion", the certificate rule fails and the ranking's top label decides |
| Categorizer.RulesShortCircuit | app.py:129-137 | two rankings can only lead to different categories when both rules fail and the rankings differ on the normalised text |
| Categorizer.NoLabelIff | app.py:136-137 | no category exists exactly when both rules fail and the ranking is empty |
| Categorizer.CategoryIsKnown | app.py:129-137 | with a ranking that permutes the six candidates, the category is one of the seven, and one of the six candidates unless the resume rule fired |
| Extraction.PdfConcat | app.py:72-73 | the accumulated PDF text is empty exactly when there are no pages |
| Extraction.ExtractTextFromPdf | app.py:68-76 | the page loop yields the stripped concatenation of pages each followed by a newline, the marker for no pages, or the error text |
| Extraction.PdfNoTextOnlyWithoutPages | app.py:74 | the PDF "no text" marker is returned exactly for a PDF without pages |
| Extraction.ScannedPdfGivesEmptyText | app.py:73-74 | pages with only whitespace give the empty text, not the marker |
| Extraction.PdfConcatAllSpace | app.py:73 | whitespace pages concatenate to whitespace |
| Extraction.DocxNoTextCases | app.py:81-82 | the Word "no text" marker is returned exactly for no paragraphs or one empty paragraph; several empty paragraphs give the empty text |
| Extraction.ExtractorsNeverRaise | app.py:60-84 | a failed read becomes the reader's error text; a successful read gives a trimmed text or a marker |
| Extraction.KindIgnoresCase | app.py:90-95 | the reader chosen for a name does not depend on its letter case |
| Extraction.SuffixesExclusive | app.py:90-95 | no name ends both in ".pdf", ".docx" or ".zip" and in an image suffix |
| Extraction.KindBySuffix | app.py:90-97 | each reader is chosen exactly for its own suffixes, and a ".zip" name is skipped |
| Entities.PersonNames | app.py:41 | at most one name per entity; a name is listed exactly when some PERSON entity has that text |
| Entities.PersonNamesAppend | app.py:41 | names keep the detection order: the names of two stretches of entities follow one another |
| Entities.EntityDates | app.py:43-45 | a date is collected exactly when some DATE entity longer than five characters has that text |
| Entities.MatchedDates | app.py:46-48 | a date is collected exactly when some pattern matched it |
| Entities.DateSetMembers | app.py:42-48 | the dates are the long DATE entities together with every match; a date of five characters or fewer is kept only when a pattern matched it |
| Entities.ExtractDatesAndNames | app.py:39-49 | names are the PERSON entities in order with repeats; dates have no repeats and are exactly the collected set |
| Entities.CollectEntityDates | app.py:43-45 | the entity loop collects exactly the long DATE texts |
| Entities.CollectMatches | app.py:46-48 | the pattern loop adds exactly every pattern's matches |
| Layout.EnsureFolder | app.py:101-102 | the category folder exists afterwards, is new and empty only if it was absent, and other folders are unchanged |
| Layout.EnsureFolderIdempotent | app.py:101-102 | creating the folder a second time changes nothing |
| Layout.PlaceFile | app.py:100-103 | the file lands in its category folder with its content; other files of that folder and every other folder are unchanged |
| Layout.ApplyMovesFolders | app.py:100-103 | after a batch the folders are the old ones and those of the moved files' categories |
| Layout.ApplyMovesLands | app.py:103 | with distinct names, every moved file ends in its category folder with its content |
| Layout.ApplyMovesOrigin | app.py:100-103 | every file in the sorted tree after a batch was moved there or was there before, unchanged |
| Layout.ApplyMovesKeeps | app.py:100-103 | a file already in the tree survives unchanged unless a moved file of the same name lands in its folder |
| Layout.ApplyMovesUntouched | app.py:100-103 | a folder no move targets is unchanged |
| Layout.MovedFileInOneFolder | app.py:100-103 | a moved file is new only in its own category folder; elsewhere its name is found only where it already was, unchanged |
| Pipeline.RouteCases | app.py:88-99 | a file is skipped exactly when its name selects no reader, ".zip" files among them; a file fails only on an empty ranking |
| Pipeline.ReadFailureStillCategorised | app.py:60-99 | a failed read yields the reader's error text, which is categorised, so the file is not skipped |
| Pipeline.ArchiveIsSkipped | app.py:109-110 | the produced archive is never read or moved |
| Pipeline.PlacedInKnownCategory | app.py:99-137 | with a permuting ranking, a readable file goes to one of the seven category folders |
| Pipeline.ReadDocument | app.py:88-97 | the text read is that of the reader the name selects, or none |
| Pipeline.DocumentStore.constructor | app.py:17-25 | the store starts with the given intake folder and sorted tree |
| Pipeline.DocumentStore.ListIntake | app.py:88 | the listing names every intake file once |
| Pipeline.DocumentStore.MoveToCategory | app.py:100-103 | the file leaves the intake and is placed in its category folder, which is created when absent |
| Pipeline.DocumentStore.SortOne | app.py:88-107 | one entry: skipped and unchanged when unreadable, unchanged and failing on an empty ranking, otherwise moved to its decided category with its report |
| Pipeline.DocumentStore.SortNext | app.py:88-107 | handling the next listed entry extends the batch's progress, or fails with nothing changed |
| Pipeline.DocumentStore.ProcessDocuments | app.py:87-111 | the moves have distinct names, each planned from the intake and reported; the tree is the old tree with the moves applied; a completed batch moved exactly the readable files and wrote the archive of the new tree into the intake; a failed batch stopped at a readable file with an empty ranking |
| Pipeline.CompletedBatchLayout | app.py:88-111 | after a completed batch every readable intake file is gone from the intake and sits in its category folder with its content; any other folder holds a file of that name only if it held one before the batch, unchanged; every other file except the archive's name is still in the intake, unchanged |

## Left out

- Flask routes, templates, upload handling and `send_file` (app.py:139-196): HTTP plumbing with no sorting logic.
- `extract_zip` (app.py:51-58): unpacking an upload is library I/O; the model starts from the intake folder's contents.
- `shutil.make_archive` (app.py:109-110): the zip writer is the `archive` service; only where its output lands is modelled.
- Tesseract OCR, PyMuPDF, python-docx, spaCy and the zero-shot classifier (app.py:15, 27-29, 60-84, 136): foreign services, modelled as functions in `Services`; an exception in a reader is its `Failed` message.
- Regular-expression semantics of the date patterns (app.py:32-37): the patterns are kept as strings and their matches are the `find` service's output.
- Printing of the reports (app.py:104-108, 111): the report of each moved file is returned as data instead.
- Text.Lower: lowers ASCII letters only; Python's `str.lower` also lowers other scripts. The keywords and suffixes are ASCII, but Python lowers some non-ASCII letters to ASCII ones (U+212A KELVIN SIGN becomes `k`, U+0130 becomes `i` followed by a combining dot), so a text written "S\u212AILLS" is a resume in the source and goes to the ranking service in the model.
- Pipeline.DocumentStore.ProcessDocuments: an exception raised by the entity recogniser (app.py:40, reached from app.py:98; spaCy raises one for a text over its length limit) or by the ranking service (app.py:136) is not caught in the batch either: it stops the batch at that file, no later file is handled and no archive is written. The model treats both services as total functions, so this outcome is not modelled for the recogniser; a raising ranking service has the same effect as an empty ranking, which the model reports as `RankingFailed`.
- Pipeline.DocumentStore.ProcessDocuments: the intake is flat; subdirectories in it, and a failing rename or folder creation, are not modelled.
- Pipeline.DocumentStore.ListIntake: the listing's order is the file system's; the model allows any order and proves its results for all of them.
- Process-wide model loading and the folder set-up at import time (app.py:15-29) are not modelled beyond the constructor's starting state.
- static/index.js and ocr.py are not part of this model: browser code and an earlier experiment, with no part in the pipeline.
