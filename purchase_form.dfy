/**
 * The purchase form in the browser: its validation schema, the calendar's
 * disabled days, the form data it posts, and what it shows for the reply.
 */
module PurchaseForm {
  import opened Wrappers
  import opened Zod
  import opened EcmaNumber
  import opened JsDate
  import opened CsvIngest
  import opened Submit

  const VendorMessage := "Vendor name must be at least 4 characters."
  const DateRequiredMessage := "Date is required."
  const DateMinMessage := "Date must be after 1900-01-01."
  const FileRequiredMessage := "CSV File is required."

  /**
   * The form's values: the vendor text, the picked date (`None` until one is
   * picked) and the file input's value (`""` until a file is chosen).
   */
  datatype FormValues = FormValues(vendor: string, date: Option<Instant>, csvFile: string)

  /** The values the form starts with: empty vendor, no date, no file. */
  const DefaultValues := FormValues("", None, "")

  function VendorIssues(vendor: string): seq<Issue> {
    if Utf16Length(vendor) < 4 then [Issue(VendorField, VendorMessage)] else []
  }

  function DateIssues(date: Option<Instant>): seq<Issue> {
    match date
    case None => [Issue(DateField, DateRequiredMessage)]
    case Some(t) => if t < MinDate then [Issue(DateField, DateMinMessage)] else []
  }

  /** `!!files`: the file input's value is truthy. */
  function FileIssues(csvFile: string): seq<Issue> {
    if csvFile == "" then [Issue(FileField, FileRequiredMessage)] else []
  }

  /** The client `formSchema`: every field is checked, its issues listed in field order. */
  function FormIssues(values: FormValues): seq<Issue> {
    VendorIssues(values.vendor) + DateIssues(values.date) + FileIssues(values.csvFile)
  }

  /** The calendar refuses to offer a day before `new Date("1900-01-01")`. */
  predicate CalendarDisabled(t: Instant) {
    t < MinDate
  }

  /**
   * The form data `onSubmit` builds: the vendor, the date as `toISOString` renders
   * it, and the chosen file; with no file chosen, `append` sends the text "null".
   */
  function SubmittedEntries(values: FormValues, isoDate: string, file: Option<ClientFile>): seq<FormEntry> {
    [FormEntry(VendorField, TextPart(values.vendor)),
     FormEntry(DateField, TextPart(isoDate)),
     FormEntry(FileField, if file.Some? then FilePart(file.value) else TextPart("null"))]
  }

  /** What the form shows for the endpoint's reply: the error, or the success toast with the data. */
  datatype ClientView = ShowError(error: ErrorValue) | ShowToast(data: Option<PurchaseOrderRecord>)

  /** `data.error` is truthy: a non-empty message text, or a schema error. */
  predicate ErrorTruthy(e: ErrorValue) {
    e.SchemaError? || e.text != ""
  }

  /** The `onSubmit` handler's branch on the parsed reply. */
  function Reaction(body: Body): ClientView {
    match body
    case ErrorBody(e) => if ErrorTruthy(e) then ShowError(e) else ShowToast(None)
    case StatusError(e) => if ErrorTruthy(e) then ShowError(e) else ShowToast(None)
    case StatusOk(record) => ShowToast(Some(record))
  }

  // ---------------------------------------------------------------------------
  // Properties of the schema
  // ---------------------------------------------------------------------------

  /** The form as it starts fails on every field, each with its own message. */
  lemma DefaultValuesRejected()
    ensures FormIssues(DefaultValues)
         == [Issue(VendorField, VendorMessage), Issue(DateField, DateRequiredMessage), Issue(FileField, FileRequiredMessage)]
  {
  }

  /**
   * Each field's message is raised exactly when that field's rule fails, and the
   * form is accepted exactly when all three rules hold.
   */
  lemma FormIssuesByField(values: FormValues)
    ensures Issue(VendorField, VendorMessage) in FormIssues(values) <==> Utf16Length(values.vendor) < 4
    ensures Issue(DateField, DateRequiredMessage) in FormIssues(values) <==> values.date.None?
    ensures Issue(DateField, DateMinMessage) in FormIssues(values) <==> values.date.Some? && values.date.value < MinDate
    ensures Issue(FileField, FileRequiredMessage) in FormIssues(values) <==> values.csvFile == ""
    ensures FormIssues(values) == [] <==>
              Utf16Length(values.vendor) >= 4 && values.date.Some? && values.date.value >= MinDate && values.csvFile != ""
    ensures |FormIssues(values)| <= 3
  {
    var v, d, f := VendorIssues(values.vendor), DateIssues(values.date), FileIssues(values.csvFile);
    assert FormIssues(values) == v + d + f;
    assert forall i :: i in v ==> i.path == VendorField;
    assert forall i :: i in d ==> i.path == DateField;
    assert forall i :: i in f ==> i.path == FileField;
  }

  /** The calendar disables exactly the days whose date the schema rejects as too early. */
  lemma CalendarMatchesDateRule(t: Instant)
    ensures CalendarDisabled(t) <==> DateIssues(Some(t)) != []
  {
  }

  /**
   * A day picked in the calendar is local midnight. Every day of a year before
   * 1900 is rejected and every day after 1900-01-01 accepted, at any offset; the
   * first of January 1900 itself is accepted only where local time is not ahead
   * of UTC, since `new Date("1900-01-01")` is midnight UTC.
   */
  lemma PickedDayAgainstMinimum(y: int, m: int, d: int, offset: int)
    requires ValidDay(y, m, d) && PlausibleOffset(offset)
    ensures y < 1900 ==> DateIssues(Some(LocalMidnight(y, m, d, offset))) == [Issue(DateField, DateMinMessage)]
    ensures (y > 1900 || (y == 1900 && (m > 1 || d > 1))) ==> DateIssues(Some(LocalMidnight(y, m, d, offset))) == []
    ensures (y, m, d) == (1900, 1, 1) ==> (DateIssues(Some(LocalMidnight(y, m, d, offset))) == [] <==> offset <= 0)
  {
    LocalMidnightAgainstMinDate(y, m, d, offset);
  }

  // ---------------------------------------------------------------------------
  // From the form to the endpoint
  // ---------------------------------------------------------------------------

  /**
   * The names the form appends under are the names the endpoint reads: the vendor
   * and date arrive as body fields and the chosen file, unless its name is empty,
   * as the uploaded file.
   */
  lemma SubmittedFieldsReceived(values: FormValues, isoDate: string, file: ClientFile)
    ensures Receive(SubmittedEntries(values, isoDate, Some(file)))
         == Uploaded(map[VendorField := values.vendor, DateField := isoDate],
                     if Basename(file.name) != "" then Some(Staged(file)) else None)
  {
    var entries := SubmittedEntries(values, isoDate, Some(file));
    var u1 := ReceiveEntry(Uploaded(map[], None), entries[0]);
    var u2 := ReceiveEntry(u1, entries[1]);
    var u3 := ReceiveEntry(u2, entries[2]);
    assert ReceiveFrom(u3, entries[3..]) == u3;
    assert ReceiveFrom(u2, entries[2..]) == ReceiveFrom(u3, entries[3..]);
    assert ReceiveFrom(u1, entries[1..]) == ReceiveFrom(u2, entries[2..]);
    assert VendorField != DateField;
  }

  /**
   * A form the schema accepts, sent with its file, passes the endpoint's
   * missing-input and vendor checks: the endpoint goes on to read the records of
   * the staged file, and the order it may create carries the vendor and date sent.
   * A file picked in the browser always has a name.
   */
  lemma AcceptedFormReachesRecords(values: FormValues, isoDate: string, file: ClientFile, store: StoreReply)
    requires FormIssues(values) == []
    requires isoDate != ""
    requires Basename(file.name) != ""
    ensures Handle("POST", Receive(SubmittedEntries(values, isoDate, Some(file))), store)
         == OnEnd(values.vendor, isoDate, Staged(file).path, Ingest(file.records), store)
    ensures Handle("POST", Receive(SubmittedEntries(values, isoDate, Some(file))), store).steps[..3]
         == [ReceiveUpload, ParseFields, ReadRows]
  {
    var u := Uploaded(map[VendorField := values.vendor, DateField := isoDate], Some(Staged(file)));
    var decision := OnEnd(values.vendor, isoDate, Staged(file).path, Ingest(file.records), store);
    assert Receive(SubmittedEntries(values, isoDate, Some(file))) == u by {
      SubmittedFieldsReceived(values, isoDate, file);
    }
    assert Handle("POST", u, store) == decision by {
      AcceptedValuesPassServer(values, isoDate);
      DecidedByRecords("POST", u, store);
    }
    OnEndReadsAllRecordsFirst(values.vendor, isoDate, Staged(file).path, Ingest(file.records), store);
  }

  /** The vendor and date of an accepted form pass the server's missing-input and vendor checks. */
  lemma AcceptedValuesPassServer(values: FormValues, isoDate: string)
    requires FormIssues(values) == []
    requires isoDate != ""
    ensures FieldsAccepted(map[VendorField := values.vendor, DateField := isoDate])
  {
    FormIssuesByField(values);
    assert VendorField != DateField;
  }

  /** Sent without a file, the form reaches the endpoint with no file and is refused as missing input. */
  lemma FormWithoutFileRefused(values: FormValues, isoDate: string, store: StoreReply)
    ensures Handle("POST", Receive(SubmittedEntries(values, isoDate, None)), store)
         == Outcome(Response(400, ErrorBody(Message(MissingInputMessage))), [ReceiveUpload])
  {
    var entries := SubmittedEntries(values, isoDate, None);
    var u1 := ReceiveEntry(Uploaded(map[], None), entries[0]);
    var u2 := ReceiveEntry(u1, entries[1]);
    var u3 := ReceiveEntry(u2, entries[2]);
    assert ReceiveFrom(u3, entries[3..]) == u3;
    assert ReceiveFrom(u2, entries[2..]) == ReceiveFrom(u3, entries[3..]);
    assert ReceiveFrom(u1, entries[1..]) == ReceiveFrom(u2, entries[2..]);
    assert u3.Uploaded? && u3.file.None?;
  }

  /** A file part whose name is empty is dropped by the middleware, so the request is refused as missing input. */
  lemma UnnamedFileRefused(values: FormValues, isoDate: string, file: ClientFile, store: StoreReply)
    requires Basename(file.name) == ""
    ensures Handle("POST", Receive(SubmittedEntries(values, isoDate, Some(file))), store)
         == Outcome(Response(400, ErrorBody(Message(MissingInputMessage))), [ReceiveUpload])
  {
    SubmittedFieldsReceived(values, isoDate, file);
  }

  /** The client's vendor rule and the server's agree: each refuses exactly the vendors under 4 UTF-16 code units. */
  lemma VendorRulesAgree(vendor: string)
    ensures VendorIssues(vendor) == [] <==> ServerFormIssues(vendor) == []
    ensures ServerFormIssues(vendor) == [] <==> Utf16Length(vendor) >= 4
    ensures ServerFormIssues(vendor) != [] ==> ServerFormIssues(vendor) == [VendorTooShort]
  {
  }

  /** A created order is shown in the success toast; a non-empty error is shown as the error. */
  lemma ReactionToReplies(httpMethod: string, upload: Upload, store: StoreReply)
    ensures var out := Handle(httpMethod, upload, store);
            (out.response.status == 200 ==> Reaction(out.response.body) == ShowToast(Some(store.record)))
    ensures var body := Handle(httpMethod, upload, store).response.body;
            !body.StatusOk? && ErrorTruthy(body.error) ==> Reaction(body) == ShowError(body.error)
  {
    StatusCodes(httpMethod, upload, store);
    if Handle(httpMethod, upload, store).response.status == 200 {
      StoreCalledOnlyAfterFullValidation(httpMethod, upload, store);
      DecidedByRecords(httpMethod, upload, store);
    }
  }

  /**
   * An upload error whose message is empty is answered with an error body the form
   * does not recognise as an error: it shows the success toast, with no data.
   */
  lemma EmptyUploadErrorShowsToast(store: StoreReply)
    ensures Reaction(Handle("POST", UploadFailed(""), store).response.body) == ShowToast(None)
  {
  }
}
