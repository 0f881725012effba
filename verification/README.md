# parse_doc invoice pipeline, modelled in Dafny

This project models the decision logic of the invoice-processing service in
`main.py`. The service takes a batch of uploaded PDF invoices for German
operating-cost statements. For each file in upload order it:

- extracts the invoice fields;
- checks whether the invoice covers a whole building (not a single apartment);
- checks that it is usable for the statement;
- resolves an address, falling back to a "Versicherungsort" line in the text;
- matches the address against a fixed directory of buildings;
- picks a cost category and its allocation key;
- records one result for the file.

The language-model calls, `json.loads` and `fuzz.partial_ratio` are
parameters of the model. With those fixed, the model is deterministic.

Modules, in dependency order:

- `Wrappers` — `Option`.
- `PyText` — the Python string operations the pipeline uses: `strip`,
  `lower`, `startswith`, `endswith` and `in`.
- `JsonValues` — decoded JSON values. Covers Python truthiness,
  `dict.get(key, default)` and `str(value)`.
- `OracleReplies` — the outcome of a chat call, and how the JSON replies of
  the two judges are read: markdown fences are cut off, then the rest is
  decoded as a dict.
- `InvoiceValidation` — `check_apartment_vs_building` and
  `validate_invoice_via_llm`.
- `Buildings` — `BUILDING_DB` and `match_building`.
- `CostCategories` — `ALLOCATION_KEYS` and `determine_cost_category`.
- `Addresses` — the address used for matching, including the search
  `re.search(r"Versicherungsort[:\s]+(.+)", text, re.IGNORECASE)`.
- `Pipeline` — `process_invoices`: the per-file stages and the batch
  response.

Each routine that works step by step in the source has a method with the
same loop or the same reassignments:

- `MatchBuilding`
- `DetermineCostCategory`
- `CleanReply`
- `CheckApartmentVsBuilding`
- `ValidateInvoice`
- `ProcessInvoices`

Each method is proved equal to a specification function. The properties are
proved about those functions.

Behaviour of the code worth knowing:

- The fallback category is "Sonstiges".
- The `.pdf` check runs inside the loop. Files before a bad name are
  processed, then the 400 answer discards their results.
- Two failures are not caught and make the whole request fail with a 500:
  a PDF that cannot be opened, and a failed classification call.

## Model

| member | source | states |
|---|---|---|
| Buildings.LeaderIsFirstBest | main.py:46-50 | The scan ends with the first entry of highest score, or with no building and score 0 when every score is 0; no entry scores above the kept score |
| Buildings.FirstBestUnique | main.py:49 | Because of the strict comparison, at most one entry is the first with the highest score |
| Buildings.MatchIsFirstBestAboveThreshold | main.py:45-51 | No building exactly when every score is at most 50. Otherwise the result is the first highest-scoring entry, whose score is above 50. A returned building is always a directory entry |
| Buildings.MatchBuilding | main.py:45-51 | The loop that keeps `best`/`score` returns exactly `BuildingMatch` (first highest score above 50, else none) |
| CostCategories.AllocationKey | main.py:293 | `ALLOCATION_KEYS.get(category, "Unknown")` is one of the table's keys or "Unknown", and "Unknown" for every category outside the table |
| CostCategories.Categorize | main.py:64-68 | The category read from a reply is a table key or "Sonstiges", and a table key only when the reply mentions it |
| CostCategories.IndexOf | main.py:293 | Finds a name's position in the table, and reports none exactly when the name is not a key |
| CostCategories.TableFacts | main.py:24-39 | The table has 14 distinct names, each with one key; no key is "Unknown"; "Sonstiges" is not a name |
| CostCategories.AllocationKeyTotal | main.py:293 | A listed category gets its table key. The key is "Unknown" exactly for categories outside the table, "Sonstiges" included |
| CostCategories.FirstMentionedIsFirst | main.py:65-67 | The scan gives the first category, in the given order, whose lower-case name occurs in the lower-cased reply, and none exactly when no category occurs |
| CostCategories.CategorizeIsFirstMention | main.py:64-68 | The result is "Sonstiges" exactly when no category is mentioned. Otherwise it is the first mentioned category in table order. It is always a table key or "Sonstiges". Its allocation key is "Unknown" exactly when it is "Sonstiges" |
| CostCategories.DetermineCostCategory | main.py:53-68 | One classification call, then the early-return loop over the categories; equals `CostCategory` (none when the call raises) |
| PyText.Strip | main.py:147 | `strip()`: no longer than its input, and no whitespace left at either end |
| PyText.StripEmpty | main.py:147 | `strip()` gives "" exactly when the input is whitespace alone |
| PyText.StripTrimmed | main.py:154 | Stripping an already-trimmed text changes nothing |
| PyText.StripPadded | main.py:154 | Stripping whitespace put around a text that has none at its ends gives back that text |
| PyText.Lower | main.py:66 | `lower()` keeps the length and lowers each character |
| PyText.ContainsAt | main.py:66 | The substring test `in` holds exactly when the needle occurs at some offset |
| JsonValues.FalsyValues | main.py:179 | Python truthiness: falsy exactly for None, False, 0, 0.0, "", [] and {} |
| JsonValues.ShowFormats | main.py:182 | f-string formatting: a string is inserted as it is; None, True and False print as those words; lists print in brackets and dicts in braces |
| JsonValues.Get | main.py:159-162 | `dict.get`: the default when the key is absent, else the value of the key's last occurrence in the reply |
| OracleReplies.StripFences | main.py:147-154 | The cleaned reply is never longer than the reply and has no whitespace at either end |
| OracleReplies.FencesAbsent | main.py:150-154 | A reply with neither marker comes back merely trimmed |
| OracleReplies.FenceRoundTrip | main.py:147-154 | A "```json … ```" block padded with whitespace comes back as its trimmed body |
| OracleReplies.FenceShape | main.py:147-154 | The trimmed reply is an optional leading "```json", a middle and an optional trailing "```". The opening marker is taken exactly when the trimmed reply starts with it, and the closing one exactly when what remains ends with it. The cleaned reply is the trimmed middle, so a reply with one marker loses only that one |
| OracleReplies.UntaggedFenceKept | main.py:150-153 | A reply fenced with "```" and no "json" tag keeps its opening marker: cleaning "```\n{}\n```" gives "```\n{}" |
| OracleReplies.ParseFailure | main.py:169 | The parse-failure reason starts with "LLM response parse failed: " and ends with " - RAW: " and the raw text |
| OracleReplies.DecodeObject | main.py:156-170 | A reply is read exactly when `json.loads` yields a dict, and then it holds that dict's members. Anything else (malformed text, a non-dict whose `.get` raises) gives a parse-failure reason quoting the raw text |
| InvoiceValidation.ScopeCheckDegrades | main.py:139-170 | A failed call or an unreadable reply gives `is_whole_building` false, confidence "low" and no indicators. The reason starts with "API call failed: " or with "LLM response parse failed: " |
| InvoiceValidation.ScopeCheckDefaults | main.py:156-163 | A readable reply gives each missing key its default (false, "low", [], "No reason provided."). Each present key gets the value of its last occurrence in the reply |
| InvoiceValidation.WholeBuildingNeedsEvidence | main.py:156-163 | "Whole building" requires an answered call, a reply decoded as a dict, and a truthy `is_whole_building` in it |
| InvoiceValidation.ValidationOf | main.py:172-240 | Every branch carries the scope check as `building_check`. `validated` is truthy only for a whole-building invoice |
| InvoiceValidation.SingleApartmentShortCircuit | main.py:177-184 | Without a whole-building scope, the result is `validated` false with the fixed German prefix plus the scope reason. The legality judge's reply cannot affect it |
| InvoiceValidation.LegalityDegrades | main.py:206-240 | After a passed scope check, a failed or unreadable legality reply gives `validated` false with an "API call failed: " or "LLM response parse failed: " reason |
| InvoiceValidation.ValidatedExactly | main.py:228-234 | An invoice is validated exactly when the scope check passed, the legality reply decoded as a dict, and the last `is_valid` in it is truthy |
| InvoiceValidation.LegalityDefaults | main.py:228-234 | After a passed scope check and a legality reply decoded as a dict, `validated` is False when "is_valid" is missing and the value of its last occurrence otherwise. `reason` is "No reason provided." when "reason" is missing and the value of its last occurrence otherwise. The scope check is carried along |
| InvoiceValidation.ValidatedByLegality | main.py:228-231 | After a passed scope check and a legality reply decoded as a dict, `validated` is that dict's `get("is_valid", False)` |
| InvoiceValidation.TruthyLastIsValid | main.py:230 | `get("is_valid", False)` is truthy exactly when the last "is_valid" member holds a truthy value |
| InvoiceValidation.Rejected | main.py:212-217 | A rejection is never validated and keeps the scope check |
| InvoiceValidation.CleanReply | main.py:219-226 | The step-by-step reassignments of `raw` compute `StripFences` |
| InvoiceValidation.CheckApartmentVsBuilding | main.py:100-170 | One scope call, fence cleaning and default filling compute `ScopeCheckOf` |
| InvoiceValidation.ValidateInvoice | main.py:172-240 | The scope check, then for whole-building invoices only the legality call, compute `ValidationOf` |
| Addresses.GroupAt | main.py:279 | A match at a position needs the label there (in any case), at least one `[:\s]` after it, and a nonempty group. The group is the rest of the line from a point after the separators, and holds no newline |
| Addresses.GroupAtLabel | main.py:279 | With the label at a position: no separator after it, no match. A separator run followed by another character gives the group from the end of the run to the end of that line. A run reaching the end of the text matches exactly when the run holds a non-newline character after its first, and the group is then the last such character alone |
| Addresses.AnyCaseFoldsToLabel | main.py:279 | The label in any mix of capitals and lower-case letters ("VERSICHERUNGSORT", "Versicherungsort", ...) is accepted by the case-insensitive search |
| Addresses.Search | main.py:279 | A group found by the search is nonempty and holds no newline |
| Addresses.SearchIsLeftmost | main.py:279 | `re.search` reports the match at the leftmost position where the pattern matches, and nothing exactly when it matches nowhere |
| Addresses.MatchingAddress | main.py:277-282 | The address matched is the extracted one when it is non-empty. Otherwise it is the stripped group of the leftmost position where the pattern matches, and "" when it matches nowhere |
| Addresses.GroupOfLabelledLine | main.py:279 | Wherever a label in an accepted spelling is followed by a separator run and an address line, the group there is exactly that line |
| Addresses.LabelledAddressLine | main.py:277-282 | With no or an empty extracted address, a text holding the label in an accepted spelling, a separator run and an address line (after any text with no earlier match) resolves to that line, stripped |
| Pipeline.ProcessFile | main.py:252-308 | Every record names its file. A fully processed record has a whole-building scope check. Every record with `validated` false is flagged for review |
| Pipeline.PdfSuffix | main.py:249 | A name passes the PDF check exactly when its last four characters, lowered, spell ".pdf" |
| Pipeline.BatchIsPerFile | main.py:247-310 | The batch succeeds exactly when every name ends in ".pdf" (any case) and no file raises. It then has one result per upload, in order, each that file's own result and carrying its name |
| Pipeline.NonPdfRejectsBatch | main.py:249-250 | A non-PDF name answers 400 "Only PDFs supported." with no result list, once the files before it were processed without raising |
| Pipeline.RaisingFileFailsBatch | main.py:252-292 | A PDF whose processing raises (unreadable bytes or a failed classification call) answers 500 "Internal Server Error" with no result list, once the files before it were processed without raising |
| Pipeline.ExtractionFailureSkipsValidation | main.py:256-264 | A failed extraction is recorded as "LLM parsing failed" with its detail and no `validated` entry. No other collaborator can change the result |
| Pipeline.RejectedInvoiceIsFlagged | main.py:266-275 | A rejected invoice is recorded with `validated` false, the validation's reason and scope check, and the review flag. Matcher and classifier cannot change it |
| Pipeline.UnmatchedAddressIsFlagged | main.py:282-290 | A validated invoice with no matching building is recorded with `validated` true, "Address not matched" and the review flag. The classifier cannot change it |
| Pipeline.ProcessedStages | main.py:292-308 | A full record is assembled from the outputs of every stage: extracted fields, a passed validation, a matched building and an answered classification |
| Pipeline.ProcessedRecordIsValidated | main.py:297-308 | A full record has `validated` true, a whole-building scope check equal to the scope judge's result, and the extracted fields; it is not flagged |
| Pipeline.ProcessedRecordIsClassified | main.py:292-303 | A full record's category is read from the classifier's reply. Its allocation key is the table's entry, and "Unknown" exactly for "Sonstiges". Its draft action is "appended to existing draft", in the given year |
| Pipeline.ProcessedBuildingIsBestMatch | main.py:282-300 | A full record's building is a directory entry: the first one with the highest score for the resolved address, and that score is above 50 |
| Pipeline.ProcessInvoices | main.py:242-310 | The loop over the uploads, with early `continue`s and error exits, computes exactly `Batch` |

## Left out

- The chat-completion calls and their prompts. Each call is a function of
  the invoice text. The field extractor returns the eight schema fields or
  a failure text. The two judges and the classifier return a reply text or
  the exception's text.
- PyMuPDF (`extract_text_from_pdf`, main.py:41-43). A file's text is an
  input; `None` stands for bytes PyMuPDF cannot open.
- `fuzz.partial_ratio` is a score function into 0..100, and `json.loads`
  is a parse function. Their internals are not part of this model.
- `datetime.now().year` is a parameter.
- Not part of this model:
  - `print(text)`;
  - FastAPI, `async` and the reading of `UploadFile`;
  - the unused `authorization` header;
  - `load_dotenv` and the environment;
  - `utils.py`.
- A message whose `content` is `None` is not modelled (the source would
  raise on `.strip()` or `.lower()`).
- The extraction reply is taken to hold the eight schema fields with their
  schema types. The model does not cover:
  - extra keys that `**fields` would merge into the record;
  - a non-dict reply, whose `.get` would raise.
- GroupAt: its own contract gives only what every match satisfies (the
  label, the separators before the group, a nonempty line without a
  newline). When the pattern matches and where the group starts is stated
  by the lemma `GroupAtLabel`, which keeps that reasoning away from the
  callers of `GroupAt`.
- PyText.Lower: covers ASCII, the Latin-1 capitals and the capital sharp s,
  not all of Unicode.
- Addresses.FoldForMatch: case-insensitive matching of the label covers the
  same letters, plus the dotted and dotless i and the long s. These are the
  only other characters Python folds onto the label's letters.
- JsonValues.Show: strings inside lists and dicts are quoted but not
  escaped, and floats are printed from the text kept for them. NaN and
  infinities are not modelled. A dict whose reply repeated a key is
  printed with every occurrence in document order. Python prints such a
  key once, at its first position, with its last value.
- JSON objects keep their members in document order. `Get` returns the
  last occurrence of a repeated key, as a Python dict built from them does.
- The fence cleaning is duplicated in the source (main.py:147-154 and
  main.py:219-226). Here it is one method, `CleanReply`, that both judges
  use.
