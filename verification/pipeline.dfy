/**
 * The invoice-processing endpoint: for each uploaded file in order, check the
 * file name, read the PDF text, extract the invoice fields, validate, resolve
 * and match the address, classify the cost, and record one result per file.
 */
module Pipeline {
  import opened Wrappers
  import opened PyText
  import opened JsonValues
  import opened OracleReplies
  import opened InvoiceValidation
  import opened Buildings
  import opened CostCategories
  import opened Addresses

  /** The eight fields of the extraction schema; amounts are EUR numbers. */
  datatype InvoiceFields = InvoiceFields(
    invoiceDate: Option<string>, periodStart: Option<string>, periodEnd: Option<string>,
    grossAmount: Option<real>, netAmount: Option<real>, vatAmount: Option<real>,
    address: Option<string>, recipient: Option<string>)

  /** The outcome of `extract_invoice_data_via_llm`: the fields, or the text of the exception it raised. */
  datatype Extraction = Extracted(fields: InvoiceFields) | ExtractionError(detail: string)

  /**
   * The collaborators the pipeline consults, each a function of its input:
   * the field extractor, the scope judge, the legality judge, the cost
   * classifier, `json.loads`, and `fuzz.partial_ratio`.
   */
  datatype Services = Services(
    extractFields: string -> Extraction,
    judgeScope: string -> Reply,
    judgeLegality: string -> Reply,
    classify: string -> Reply,
    parseJson: string -> Parsed,
    ratio: (string, string) -> Score)

  /** An uploaded file: its name, and the text PyMuPDF reads from it (`None` when it cannot open the bytes). */
  datatype Upload = Upload(filename: string, text: Option<string>)

  /** The per-file record, one constructor per place the processing of a file can stop. */
  datatype FileResult =
    | ExtractionFailed(file: string, detail: string)
    | NotValidated(file: string, reason: Json, buildingCheck: ScopeCheck)
    | AddressNotMatched(file: string)
    | Processed(file: string, building: Building, year: int, draftAction: string, costCategory: string,
                allocationKey: string, buildingCheck: ScopeCheck, fields: InvoiceFields, validationReason: Json)
  {
    /** The record's "validated" entry, if it has one. */
    function Validated(): Option<bool> {
      match this
      case ExtractionFailed(_, _) => None
      case NotValidated(_, _, _) => Some(false)
      case _ => Some(true)
    }

    /** The record's "error" entry, if it has one. */
    function Error(): Option<string> {
      match this
      case ExtractionFailed(_, _) => Some("LLM parsing failed")
      case AddressNotMatched(_) => Some("Address not matched")
      case _ => None
    }

    /** The record carries "flag_for_manual_review": true. */
    predicate FlagForManualReview() {
      NotValidated? || AddressNotMatched?
    }
  }

  /** Where the processing of a file raised an exception that nothing catches. */
  datatype Uncaught = OpeningPdf | Classifying

  /** The processing of one file: a recorded result, or an uncaught exception. */
  datatype FileOutcome = Recorded(result: FileResult) | Raised(at: Uncaught)

  /** The endpoint's answer: `{"invoices": [...]}`, or an error status. */
  datatype Response = Ok(invoices: seq<FileResult>) | HttpError(status: int, detail: string)

  const DraftAction := "appended to existing draft"
  const OnlyPdfs := "Only PDFs supported."
  const ServerError := "Internal Server Error"

  /** `filename.lower().endswith(".pdf")`: the last four characters spell ".pdf" in any letter case. */
  predicate IsPdf(filename: string) {
    EndsWith(Lower(filename), ".pdf")
  }

  /** The test looks only at the last four characters, whatever their letter case. */
  lemma PdfSuffix(filename: string)
    ensures IsPdf(filename) <==>
      |filename| >= 4 && forall k :: 0 <= k < 4 ==> LowerChar(filename[|filename| - 4 + k]) == ".pdf"[k]
  {
  }

  /**
   * What the loop body of `process_invoices` does with one file whose name
   * passed the PDF check. Every record names its file, and no record
   * contradicts itself: a fully processed one has a whole-building scope
   * check, and every one saying "validated" false is flagged for review.
   */
  function ProcessFile(up: Upload, svc: Services, year: int): (r: FileOutcome)
    ensures r.Recorded? ==> r.result.file == up.filename
    ensures r.Recorded? && r.result.Processed? ==> Truthy(r.result.buildingCheck.isWholeBuilding)
    ensures r.Recorded? && r.result.Validated() == Some(false) ==> r.result.FlagForManualReview()
  {
    match up.text
    case None => Raised(OpeningPdf)
    case Some(text) =>
      match svc.extractFields(text)
      case ExtractionError(detail) => Recorded(ExtractionFailed(up.filename, detail))
      case Extracted(fields) =>
        var validation := ValidationOf(text, svc.judgeScope, svc.judgeLegality, svc.parseJson);
        if !Truthy(validation.validated) then
          Recorded(NotValidated(up.filename, validation.reason, validation.buildingCheck))
        else
          match BuildingMatch(MatchingAddress(fields.address, text), BuildingDb, svc.ratio)
          case None => Recorded(AddressNotMatched(up.filename))
          case Some(building) =>
            match CostCategory(text, svc.classify)
            case None => Raised(Classifying)
            case Some(category) =>
              Recorded(Processed(up.filename, building, year, DraftAction, category, AllocationKey(category),
                                 validation.buildingCheck, fields, validation.reason))
  }

  /** The results recorded so far, in front of what the rest of the batch answers. */
  function Prefixed(done: seq<FileResult>, rest: Response): Response {
    match rest
    case Ok(results) => Ok(done + results)
    case HttpError(_, _) => rest
  }

  /** What `process_invoices` answers for the uploads, in order. */
  function Batch(uploads: seq<Upload>, svc: Services, year: int): Response
    decreases |uploads|
  {
    if uploads == [] then Ok([])
    else if !IsPdf(uploads[0].filename) then HttpError(400, OnlyPdfs)
    else
      match ProcessFile(uploads[0], svc, year)
      case Raised(_) => HttpError(500, ServerError)
      case Recorded(result) => Prefixed([result], Batch(uploads[1..], svc, year))
  }

  /**
   * The batch succeeds exactly when every file name ends in ".pdf" and no
   * file raises; its list then holds one result per upload, in upload
   * order, each the file's own result and carrying the file's name.
   */
  lemma {:induction false} BatchIsPerFile(uploads: seq<Upload>, svc: Services, year: int)
    ensures Batch(uploads, svc, year).Ok? <==>
      forall i :: 0 <= i < |uploads| ==> IsPdf(uploads[i].filename) && ProcessFile(uploads[i], svc, year).Recorded?
    ensures Batch(uploads, svc, year).Ok? ==>
      var results := Batch(uploads, svc, year).invoices;
      && |results| == |uploads|
      && forall i :: 0 <= i < |uploads| ==>
           ProcessFile(uploads[i], svc, year) == Recorded(results[i]) && results[i].file == uploads[i].filename
    decreases |uploads|
  {
    if uploads != [] {
      BatchIsPerFile(uploads[1..], svc, year);
      assert forall i :: 1 <= i < |uploads| ==> uploads[i] == uploads[1..][i - 1];
    }
  }

  /**
   * A file name not ending in ".pdf" answers 400 with no result list, once
   * every file before it has been processed without raising.
   */
  lemma {:induction false} NonPdfRejectsBatch(uploads: seq<Upload>, svc: Services, year: int, k: int)
    requires 0 <= k < |uploads| && !IsPdf(uploads[k].filename)
    requires forall i :: 0 <= i < k ==> IsPdf(uploads[i].filename) && ProcessFile(uploads[i], svc, year).Recorded?
    ensures Batch(uploads, svc, year) == HttpError(400, OnlyPdfs)
    decreases k
  {
    if k > 0 {
      NonPdfRejectsBatch(uploads[1..], svc, year, k - 1);
    }
  }

  /**
   * A file that raises (a PDF that cannot be opened, a failed
   * classification call) answers 500 with no result list, once every file
   * before it has been processed without raising.
   */
  lemma {:induction false} RaisingFileFailsBatch(uploads: seq<Upload>, svc: Services, year: int, k: int)
    requires 0 <= k < |uploads| && IsPdf(uploads[k].filename) && ProcessFile(uploads[k], svc, year).Raised?
    requires forall i :: 0 <= i < k ==> IsPdf(uploads[i].filename) && ProcessFile(uploads[i], svc, year).Recorded?
    ensures Batch(uploads, svc, year) == HttpError(500, ServerError)
    decreases k
  {
    if k > 0 {
      RaisingFileFailsBatch(uploads[1..], svc, year, k - 1);
    }
  }

  /**
   * A failed field extraction is recorded as "LLM parsing failed" with the
   * failure text, and validation is skipped: no other collaborator can
   * change the result.
   */
  lemma ExtractionFailureSkipsValidation(up: Upload, svc: Services, other: Services, year: int)
    requires up.text.Some? && svc.extractFields(up.text.value).ExtractionError?
    requires other.extractFields(up.text.value) == svc.extractFields(up.text.value)
    ensures ProcessFile(up, svc, year) == ProcessFile(up, other, year)
    ensures var r := ProcessFile(up, svc, year);
      && r == Recorded(ExtractionFailed(up.filename, svc.extractFields(up.text.value).detail))
      && r.result.Error() == Some("LLM parsing failed") && r.result.Validated().None?
  {
  }

  /**
   * An invoice that fails validation is recorded unvalidated, with the
   * validation's reason and scope check, and flagged for manual review;
   * neither the matcher nor the classifier is consulted.
   */
  lemma RejectedInvoiceIsFlagged(up: Upload, svc: Services, other: Services, year: int)
    requires up.text.Some? && svc.extractFields(up.text.value).Extracted?
    requires !Truthy(ValidationOf(up.text.value, svc.judgeScope, svc.judgeLegality, svc.parseJson).validated)
    requires other.extractFields(up.text.value) == svc.extractFields(up.text.value)
    requires ValidationOf(up.text.value, other.judgeScope, other.judgeLegality, other.parseJson)
          == ValidationOf(up.text.value, svc.judgeScope, svc.judgeLegality, svc.parseJson)
    ensures ProcessFile(up, svc, year) == ProcessFile(up, other, year)
    ensures var v := ValidationOf(up.text.value, svc.judgeScope, svc.judgeLegality, svc.parseJson);
      var r := ProcessFile(up, svc, year);
      && r == Recorded(NotValidated(up.filename, v.reason, v.buildingCheck))
      && r.result.Validated() == Some(false) && r.result.FlagForManualReview()
  {
  }

  /**
   * A validated invoice whose address matches no building is recorded as
   * validated, "Address not matched" and flagged; the classifier is not
   * consulted.
   */
  lemma UnmatchedAddressIsFlagged(up: Upload, svc: Services, other: Services, year: int)
    requires up.text.Some? && svc.extractFields(up.text.value).Extracted?
    requires Truthy(ValidationOf(up.text.value, svc.judgeScope, svc.judgeLegality, svc.parseJson).validated)
    requires BuildingMatch(MatchingAddress(svc.extractFields(up.text.value).fields.address, up.text.value),
                           BuildingDb, svc.ratio).None?
    requires other == svc.(classify := other.classify)
    ensures ProcessFile(up, svc, year) == ProcessFile(up, other, year)
    ensures var r := ProcessFile(up, svc, year);
      && r == Recorded(AddressNotMatched(up.filename))
      && r.result.Validated() == Some(true) && r.result.Error() == Some("Address not matched")
      && r.result.FlagForManualReview()
  {
  }

  /** A fully processed record is the one assembled from the outputs of every stage. */
  lemma ProcessedStages(up: Upload, svc: Services, year: int)
    requires ProcessFile(up, svc, year).Recorded? && ProcessFile(up, svc, year).result.Processed?
    ensures up.text.Some? && svc.extractFields(up.text.value).Extracted?
    ensures var text := up.text.value;
      var fields := svc.extractFields(text).fields;
      var validation := ValidationOf(text, svc.judgeScope, svc.judgeLegality, svc.parseJson);
      var match_ := BuildingMatch(MatchingAddress(fields.address, text), BuildingDb, svc.ratio);
      && Truthy(validation.validated) && match_.Some? && svc.classify(text).Answer?
      && var category := Categorize(svc.classify(text).content);
         ProcessFile(up, svc, year).result
         == Processed(up.filename, match_.value, year, DraftAction, category, AllocationKey(category),
                      validation.buildingCheck, fields, validation.reason)
  {
  }

  /**
   * A fully processed invoice was validated, so its scope check says whole
   * building, and it carries the extracted fields; it is not flagged.
   */
  lemma ProcessedRecordIsValidated(up: Upload, svc: Services, year: int)
    requires ProcessFile(up, svc, year).Recorded? && ProcessFile(up, svc, year).result.Processed?
    ensures up.text.Some? && svc.extractFields(up.text.value).Extracted?
    ensures var r := ProcessFile(up, svc, year).result;
      && r.fields == svc.extractFields(up.text.value).fields
      && Truthy(r.buildingCheck.isWholeBuilding)
      && r.buildingCheck == ScopeCheckOf(up.text.value, svc.judgeScope, svc.parseJson)
      && r.Validated() == Some(true) && !r.FlagForManualReview()
  {
    ProcessedStages(up, svc, year);
  }

  /**
   * A fully processed invoice has the category read from the classifier's
   * reply (see `CategorizeIsFirstMention`), that category's table entry as
   * allocation key, "Unknown" exactly for "Sonstiges", and was appended to
   * the draft in the given year.
   */
  lemma ProcessedRecordIsClassified(up: Upload, svc: Services, year: int)
    requires ProcessFile(up, svc, year).Recorded? && ProcessFile(up, svc, year).result.Processed?
    ensures up.text.Some? && svc.classify(up.text.value).Answer?
    ensures var r := ProcessFile(up, svc, year).result;
      && r.costCategory == Categorize(svc.classify(up.text.value).content)
      && r.allocationKey == AllocationKey(r.costCategory)
      && (r.allocationKey == UnknownKey <==> r.costCategory == Fallback)
      && r.draftAction == DraftAction && r.year == year
  {
    ProcessedStages(up, svc, year);
    CategorizeIsFirstMention(svc.classify(up.text.value).content);
  }

  /**
   * The building of a fully processed invoice is a directory entry: the
   * first one with the highest similarity to the resolved address, and
   * that similarity is above 50.
   */
  lemma {:induction false} ProcessedBuildingIsBestMatch(up: Upload, svc: Services, year: int)
    requires ProcessFile(up, svc, year).Recorded? && ProcessFile(up, svc, year).result.Processed?
    ensures up.text.Some? && svc.extractFields(up.text.value).Extracted?
    ensures var r := ProcessFile(up, svc, year).result;
      var address := MatchingAddress(svc.extractFields(up.text.value).fields.address, up.text.value);
      && r.building in BuildingDb
      && exists k :: FirstBest(address, BuildingDb, svc.ratio, k) && BuildingDb[k] == r.building
                     && Similarity(address, BuildingDb, svc.ratio, k) > Threshold
  {
    ProcessedStages(up, svc, year);
    var address := MatchingAddress(svc.extractFields(up.text.value).fields.address, up.text.value);
    var b := BuildingMatch(address, BuildingDb, svc.ratio).value;
    MatchIsFirstBestAboveThreshold(address, BuildingDb, svc.ratio);
    LeaderIsFirstBest(address, BuildingDb, svc.ratio);
    var lead := Leader(address, BuildingDb, svc.ratio);
    var k :| FirstBest(address, BuildingDb, svc.ratio, k) && lead.best == Some(BuildingDb[k])
             && Similarity(address, BuildingDb, svc.ratio, k) == lead.score;
    assert BuildingDb[k] == b;
  }

  lemma PrefixedAppend(done: seq<FileResult>, result: FileResult, rest: Response)
    ensures Prefixed(done, Prefixed([result], rest)) == Prefixed(done + [result], rest)
  {
    if rest.Ok? {
      assert done + ([result] + rest.invoices) == done + [result] + rest.invoices;
    }
  }

  /** `process_invoices`: one pass over the uploads, appending each file's record and leaving early on an error. */
  method ProcessInvoices(uploads: seq<Upload>, svc: Services, year: int) returns (response: Response)
    ensures response == Batch(uploads, svc, year)
  {
    var results: seq<FileResult> := [];
    for i := 0 to |uploads|
      invariant Batch(uploads, svc, year) == Prefixed(results, Batch(uploads[i..], svc, year))
    {
      var up := uploads[i];
      assert uploads[i..][1..] == uploads[i + 1..];
      if !EndsWith(Lower(up.filename), ".pdf") {
        return HttpError(400, OnlyPdfs);
      }
      if up.text.None? {
        return HttpError(500, ServerError);
      }
      var text := up.text.value;
      var extraction := svc.extractFields(text);
      if extraction.ExtractionError? {
        var record := ExtractionFailed(up.filename, extraction.detail);
        PrefixedAppend(results, record, Batch(uploads[i + 1..], svc, year));
        results := results + [record];
        continue;
      }
      var fields := extraction.fields;
      var validation := ValidateInvoice(text, svc.judgeScope, svc.judgeLegality, svc.parseJson);
      if !Truthy(validation.validated) {
        var record := NotValidated(up.filename, validation.reason, validation.buildingCheck);
        PrefixedAppend(results, record, Batch(uploads[i + 1..], svc, year));
        results := results + [record];
        continue;
      }
      var address := MatchingAddress(fields.address, text);
      var building := MatchBuilding(address, BuildingDb, svc.ratio);
      if building.None? {
        var record := AddressNotMatched(up.filename);
        PrefixedAppend(results, record, Batch(uploads[i + 1..], svc, year));
        results := results + [record];
        continue;
      }
      var category := DetermineCostCategory(text, svc.classify);
      if category.None? {
        return HttpError(500, ServerError);
      }
      var allocationKey := AllocationKey(category.value);
      var record := Processed(up.filename, building.value, year, DraftAction, category.value, allocationKey,
                              validation.buildingCheck, fields, validation.reason);
      PrefixedAppend(results, record, Batch(uploads[i + 1..], svc, year));
      results := results + [record];
    }
    assert uploads[|uploads|..] == [];
    return Ok(results);
  }
}
