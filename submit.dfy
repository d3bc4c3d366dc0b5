/**
 * The purchase-order endpoint: from the request method, the multipart upload,
 * the decoded CSV records of the uploaded file and the answer of the order store,
 * to the one response the endpoint sends. The checks run in a fixed order:
 * method, upload error, missing input, vendor schema, row errors, store result.
 */
module Submit {
  import opened Wrappers
  import opened Zod
  import opened EcmaNumber
  import opened CsvRow
  import opened CsvIngest

  const VendorField := "vendor"
  const DateField := "date"
  const FileField := "csvFile"
  const UploadDirectory := "uploads/"

  const MethodNotAllowedMessage := "Method not allowed"
  const MissingInputMessage := "Vendor, date and file are required"
  const UnexpectedFieldMessage := "Unexpected field"

  /** The issue the server's form schema raises for a vendor shorter than 4 UTF-16 code units. */
  const VendorTooShort := Issue(VendorField, "String must contain at least 4 character(s)")

  // ---------------------------------------------------------------------------
  // The multipart upload
  // ---------------------------------------------------------------------------

  /** A file the browser sends: its name, and the records its CSV content decodes to. */
  datatype ClientFile = ClientFile(name: string, records: seq<Row>)

  datatype Part = TextPart(text: string) | FilePart(file: ClientFile)

  /** One entry of the multipart form data, in the order the client appended it. */
  datatype FormEntry = FormEntry(name: string, part: Part)

  /** The file as staged on disk: where it was written, and its decoded records. */
  datatype StoredFile = StoredFile(path: string, records: seq<Row>)

  /** What the upload middleware hands on: its error, or the text fields and the file. */
  datatype Upload = UploadFailed(message: string) | Uploaded(body: map<string, string>, file: Option<StoredFile>)

  /** A character at which the multipart parser cuts a file name: a slash or a backslash. */
  predicate IsPathSeparator(c: char) {
    c == '/' || c == '\\'
  }

  /** The text after the last path separator, or all of it when there is none. */
  function AfterLastSeparator(s: string): string {
    if s == [] || IsPathSeparator(s[|s| - 1]) then []
    else AfterLastSeparator(s[..|s| - 1]) + [s[|s| - 1]]
  }

  /**
   * The `originalname` the middleware gives a file part, with `preservePath` off:
   * the last segment of the file name the browser sent, and "" for "." or "..".
   */
  function Basename(name: string): string {
    var b := AfterLastSeparator(name);
    if b == "." || b == ".." then "" else b
  }

  /** Where the disk storage stages a file: under the upload directory, by its `originalname`. */
  function Staged(f: ClientFile): StoredFile {
    StoredFile(UploadDirectory + Basename(f.name), f.records)
  }

  /**
   * One entry through the middleware that accepts a single file, in the field
   * "csvFile". A file part whose name is empty is drained and dropped.
   */
  function ReceiveEntry(acc: Upload, e: FormEntry): Upload {
    match acc
    case UploadFailed(_) => acc
    case Uploaded(body, file) =>
      match e.part
      case TextPart(s) => Uploaded(if e.name in body then body else body[e.name := s], file)
      case FilePart(f) =>
        if Basename(f.name) == "" then acc
        else if e.name != FileField || file.Some? then UploadFailed(UnexpectedFieldMessage)
        else Uploaded(body, Some(Staged(f)))
  }

  function ReceiveFrom(acc: Upload, entries: seq<FormEntry>): Upload
    decreases |entries|
  {
    if entries == [] then acc else ReceiveFrom(ReceiveEntry(acc, entries[0]), entries[1..])
  }

  /**
   * `upload.single("csvFile")`: text parts become body fields, the one named file
   * part in "csvFile" becomes the staged file, a named file part in any other field
   * (or a second one) fails with "Unexpected field".
   */
  function Receive(entries: seq<FormEntry>): Upload {
    ReceiveFrom(Uploaded(map[], None), entries)
  }

  // ---------------------------------------------------------------------------
  // The store and the response
  // ---------------------------------------------------------------------------

  /** The create request: the order's fields and its line items, in file order. */
  datatype OrderCreate = OrderCreate(vendor: string, date: string, csvFile: string, items: seq<LineItem>)

  /** The record the store returns for a created order, with its generated identifier. */
  datatype PurchaseOrderRecord = PurchaseOrderRecord(id: int, order: OrderCreate)

  /** What the store answers when it is asked to create an order. */
  datatype StoreReply = Created(record: PurchaseOrderRecord) | StoreFailed(message: string)

  /** An `error` value: a message text, or the issues of a schema-validation error. */
  datatype ErrorValue = Message(text: string) | SchemaError(issues: seq<Issue>)

  /** `{error}`, `{status: "error", error}` and `{status: "ok", data}`. */
  datatype Body = ErrorBody(error: ErrorValue) | StatusError(error: ErrorValue) | StatusOk(data: PurchaseOrderRecord)

  datatype Response = Response(status: int, body: Body)

  /** The stages a request goes through, the last carrying what the store was asked to create. */
  datatype Step = ReceiveUpload | ParseFields | ReadRows | CreateOrder(order: OrderCreate)

  datatype Outcome = Outcome(response: Response, steps: seq<Step>)

  /** A JavaScript-truthy field value: present and not the empty string. */
  predicate Truthy(v: Option<string>) {
    v.Some? && v.value != ""
  }

  function Field(body: map<string, string>, name: string): Option<string> {
    if name in body then Some(body[name]) else None
  }

  /** The server's `formSchema`: a vendor of at least 4 UTF-16 code units; any date string passes. */
  function ServerFormIssues(vendor: string): seq<Issue> {
    if Utf16Length(vendor) < 4 then [VendorTooShort] else []
  }

  /** The decision at the end of the stream, given what reading the records produced. */
  function OnEnd(vendor: string, date: string, path: string, ingestion: Ingestion, store: StoreReply): Outcome {
    var steps := [ReceiveUpload, ParseFields, ReadRows];
    if ingestion.errors != [] then
      Outcome(Response(400, ErrorBody(Message(ingestion.errors[0]))), steps)
    else
      var order := OrderCreate(vendor, date, path, ingestion.rows);
      Outcome(StoreResponse(store), steps + [CreateOrder(order)])
  }

  /** The reply to the client once the store has answered. */
  function StoreResponse(store: StoreReply): Response {
    match store
    case Created(record) => Response(200, StatusOk(record))
    case StoreFailed(message) => Response(400, StatusError(Message(message)))
  }

  /** The endpoint as one function of its abstracted inputs. */
  function Handle(httpMethod: string, upload: Upload, store: StoreReply): Outcome {
    if httpMethod != "POST" then
      Outcome(Response(405, ErrorBody(Message(MethodNotAllowedMessage))), [])
    else
      match upload
      case UploadFailed(message) => Outcome(Response(500, ErrorBody(Message(message))), [ReceiveUpload])
      case Uploaded(body, file) =>
        var vendor, date := Field(body, VendorField), Field(body, DateField);
        if !Truthy(vendor) || !Truthy(date) || file.None? then
          Outcome(Response(400, ErrorBody(Message(MissingInputMessage))), [ReceiveUpload])
        else if ServerFormIssues(vendor.value) != [] then
          Outcome(Response(400, StatusError(SchemaError(ServerFormIssues(vendor.value)))), [ReceiveUpload, ParseFields])
        else
          OnEnd(vendor.value, date.value, file.value.path, Ingest(file.value.records), store)
  }

  /** The endpoint step by step, reading the records with the imperative loop. */
  method HandleRequest(httpMethod: string, upload: Upload, store: StoreReply) returns (out: Outcome)
    ensures out == Handle(httpMethod, upload, store)
  {
    if httpMethod != "POST" {
      return Outcome(Response(405, ErrorBody(Message(MethodNotAllowedMessage))), []);
    }
    var steps := [ReceiveUpload];
    if upload.UploadFailed? {
      return Outcome(Response(500, ErrorBody(Message(upload.message))), steps);
    }
    var vendor, date := Field(upload.body, VendorField), Field(upload.body, DateField);
    if !Truthy(vendor) || !Truthy(date) || upload.file.None? {
      return Outcome(Response(400, ErrorBody(Message(MissingInputMessage))), steps);
    }
    var issues := ServerFormIssues(vendor.value);
    if issues != [] {
      return Outcome(Response(400, StatusError(SchemaError(issues))), steps + [ParseFields]);
    }
    var file := upload.file.value;
    DecidedByRecords(httpMethod, upload, store);
    out := ReadAndDecide(vendor.value, date.value, file.path, file.records, store);
  }

  /**
   * The stream of the staged file: the records are read to the end, then either
   * the first error is sent back or the store is asked to create the order.
   */
  method ReadAndDecide(vendor: string, date: string, path: string, records: seq<Row>, store: StoreReply)
    returns (out: Outcome)
    ensures out == OnEnd(vendor, date, path, Ingest(records), store)
  {
    var steps := [ReceiveUpload, ParseFields, ReadRows];
    var rows, errors := CollectRows(records);
    if |errors| > 0 {
      out := Outcome(Response(400, ErrorBody(Message(errors[0]))), steps);
    } else {
      var order := OrderCreate(vendor, date, path, rows);
      steps := steps + [CreateOrder(order)];
      out := Outcome(StoreResponse(store), steps);
    }
  }

  // ---------------------------------------------------------------------------
  // Properties of the decision
  // ---------------------------------------------------------------------------

  /** The store is asked to create an order. */
  predicate StoreCalled(out: Outcome) {
    exists k :: 0 <= k < |out.steps| && out.steps[k].CreateOrder?
  }

  /** Any method other than POST is refused with 405 before anything else happens. */
  lemma NonPostRefused(httpMethod: string, upload: Upload, store: StoreReply)
    requires httpMethod != "POST"
    ensures Handle(httpMethod, upload, store)
         == Outcome(Response(405, ErrorBody(Message(MethodNotAllowedMessage))), [])
  {
  }

  /** An upload error is answered with 500 and the middleware's message, and nothing is read. */
  lemma UploadFailureIs500(message: string, store: StoreReply)
    ensures Handle("POST", UploadFailed(message), store)
         == Outcome(Response(500, ErrorBody(Message(message))), [ReceiveUpload])
  {
  }

  /** A missing or empty vendor or date, or no file, is answered with 400 before any parsing. */
  lemma MissingInputRefused(body: map<string, string>, file: Option<StoredFile>, store: StoreReply)
    requires !Truthy(Field(body, VendorField)) || !Truthy(Field(body, DateField)) || file.None?
    ensures Handle("POST", Uploaded(body, file), store)
         == Outcome(Response(400, ErrorBody(Message(MissingInputMessage))), [ReceiveUpload])
  {
  }

  /**
   * A vendor of one to three UTF-16 code units passes the missing-input check and
   * fails the schema: 400 with `status: "error"`, before any record is read.
   */
  lemma ShortVendorRefused(body: map<string, string>, file: StoredFile, store: StoreReply)
    requires Truthy(Field(body, DateField))
    requires VendorField in body && 1 <= Utf16Length(body[VendorField]) <= 3
    ensures Handle("POST", Uploaded(body, Some(file)), store)
         == Outcome(Response(400, StatusError(SchemaError([VendorTooShort]))), [ReceiveUpload, ParseFields])
  {
  }

  /** The inputs pass every check before the records are read. */
  predicate FieldsAccepted(body: map<string, string>) {
    Truthy(Field(body, VendorField)) && Truthy(Field(body, DateField)) &&
    Utf16Length(body[VendorField]) >= 4
  }

  /** One rejected record, anywhere in the file, fails the request with its first error; the store is not asked. */
  lemma InvalidRecordRefused(body: map<string, string>, file: StoredFile, store: StoreReply)
    requires FieldsAccepted(body)
    requires exists i :: 0 <= i < |file.records| && ValidateRow(file.records[i]).None?
    ensures Handle("POST", Uploaded(body, Some(file)), store)
         == Outcome(Response(400, ErrorBody(Message(InvalidCsvMessage))), [ReceiveUpload, ParseFields, ReadRows])
  {
    FirstErrorIsInvalidCsv(file.records);
    DecidedByRecords("POST", Uploaded(body, Some(file)), store);
  }

  /**
   * When every record is accepted the store is asked once, with the vendor and date
   * as sent, the staged file's path, and one item per record in file order; its
   * answer decides between 200 with the record and 400 with its message.
   */
  lemma AllValidRecordsStored(body: map<string, string>, file: StoredFile, store: StoreReply)
    requires FieldsAccepted(body)
    requires AllValid(file.records)
    ensures Handle("POST", Uploaded(body, Some(file)), store)
         == Outcome(StoreResponse(store),
                    [ReceiveUpload, ParseFields, ReadRows,
                     CreateOrder(OrderCreate(body[VendorField], body[DateField], file.path, Ingest(file.records).rows))])
    ensures |Ingest(file.records).rows| == |file.records|
    ensures forall i :: 0 <= i < |file.records| ==> Some(Ingest(file.records).rows[i]) == ValidateRow(file.records[i])
  {
    IngestAllValid(file.records);
    DecidedByRecords("POST", Uploaded(body, Some(file)), store);
  }

  /** A file with a header row and no records gives an order with no items. */
  lemma EmptyFileStoredWithoutItems(body: map<string, string>, path: string, store: StoreReply)
    requires FieldsAccepted(body)
    ensures Handle("POST", Uploaded(body, Some(StoredFile(path, []))), store).steps
         == [ReceiveUpload, ParseFields, ReadRows, CreateOrder(OrderCreate(body[VendorField], body[DateField], path, []))]
  {
  }

  /** A request refused before its records are read has not reached the store. */
  lemma RefusedBeforeReading(httpMethod: string, upload: Upload, store: StoreReply)
    requires !(httpMethod == "POST" && upload.Uploaded? && upload.file.Some? && FieldsAccepted(upload.body))
    ensures Handle(httpMethod, upload, store).steps in {[], [ReceiveUpload], [ReceiveUpload, ParseFields]}
    ensures Handle(httpMethod, upload, store).response.status in {400, 405, 500}
  {
  }

  /** A request whose fields pass is decided by what reading its records produced. */
  lemma DecidedByRecords(httpMethod: string, upload: Upload, store: StoreReply)
    requires httpMethod == "POST" && upload.Uploaded? && upload.file.Some? && FieldsAccepted(upload.body)
    ensures Handle(httpMethod, upload, store)
         == OnEnd(upload.body[VendorField], upload.body[DateField], upload.file.value.path,
                  Ingest(upload.file.value.records), store)
  {
  }

  /** At the end of the stream the store is asked exactly when no record was rejected. */
  lemma OnEndStoresIffNoErrors(vendor: string, date: string, path: string, ingestion: Ingestion, store: StoreReply)
    ensures StoreCalled(OnEnd(vendor, date, path, ingestion, store)) <==> ingestion.errors == []
    ensures OnEnd(vendor, date, path, ingestion, store).response.status in {200, 400}
    ensures OnEnd(vendor, date, path, ingestion, store).response.status == 200 <==> ingestion.errors == [] && store.Created?
  {
    var out := OnEnd(vendor, date, path, ingestion, store);
    if ingestion.errors == [] {
      assert out.steps[3].CreateOrder?;
    } else {
      assert forall k :: 0 <= k < |out.steps| ==> !out.steps[k].CreateOrder?;
    }
  }

  /**
   * The decision is taken only once the upload, the fields and the whole file have
   * been through: the store, if asked, is asked last, and at most once.
   */
  lemma OnEndReadsAllRecordsFirst(vendor: string, date: string, path: string, ingestion: Ingestion, store: StoreReply)
    ensures var steps := OnEnd(vendor, date, path, ingestion, store).steps;
            && |steps| in {3, 4}
            && steps[..3] == [ReceiveUpload, ParseFields, ReadRows]
            && (|steps| == 4 <==> ingestion.errors == [])
            && (|steps| == 4 ==> steps[3] == CreateOrder(OrderCreate(vendor, date, path, ingestion.rows)))
  {
  }

  /** With no record rejected, the store is asked for an order of exactly the accepted items. */
  lemma OnEndWithoutErrors(vendor: string, date: string, path: string, items: seq<LineItem>, store: StoreReply)
    ensures OnEnd(vendor, date, path, Ingestion(items, []), store)
         == Outcome(StoreResponse(store), [ReceiveUpload, ParseFields, ReadRows, CreateOrder(OrderCreate(vendor, date, path, items))])
  {
  }

  /**
   * All or nothing: the store is asked exactly when the request is a POST whose
   * upload succeeded, whose fields pass, and whose every record is accepted.
   */
  lemma StoreCalledOnlyAfterFullValidation(httpMethod: string, upload: Upload, store: StoreReply)
    ensures StoreCalled(Handle(httpMethod, upload, store)) <==>
              httpMethod == "POST" && upload.Uploaded? && upload.file.Some? &&
              FieldsAccepted(upload.body) && AllValid(upload.file.value.records)
  {
    if httpMethod == "POST" && upload.Uploaded? && upload.file.Some? && FieldsAccepted(upload.body) {
      var records := upload.file.value.records;
      DecidedByRecords(httpMethod, upload, store);
      IngestAllValid(records);
      OnEndStoresIffNoErrors(upload.body[VendorField], upload.body[DateField], upload.file.value.path,
                             Ingest(records), store);
    } else {
      RefusedBeforeReading(httpMethod, upload, store);
      var out := Handle(httpMethod, upload, store);
      assert forall k :: 0 <= k < |out.steps| ==> !out.steps[k].CreateOrder?;
    }
  }

  /**
   * The checks run in a fixed order: every request's steps are a prefix of upload,
   * fields, records and store, a non-POST has none, and the store comes last.
   */
  lemma ChecksRunInOrder(httpMethod: string, upload: Upload, store: StoreReply)
    ensures var steps := Handle(httpMethod, upload, store).steps;
            var n := if |steps| < 3 then |steps| else 3;
            && |steps| <= 4
            && steps[..n] == [ReceiveUpload, ParseFields, ReadRows][..n]
            && (steps == [] <==> httpMethod != "POST")
            && (forall k :: 0 <= k < |steps| && steps[k].CreateOrder? ==> k == 3)
  {
    if httpMethod == "POST" && upload.Uploaded? && upload.file.Some? && FieldsAccepted(upload.body) {
      DecidedByRecords(httpMethod, upload, store);
      OnEndReadsAllRecordsFirst(upload.body[VendorField], upload.body[DateField], upload.file.value.path,
                                Ingest(upload.file.value.records), store);
    } else {
      RefusedBeforeReading(httpMethod, upload, store);
    }
  }

  /** The store's answer decides the reply: 200 with the created record, or 400 with the store's message. */
  lemma StoreReplyDecidesResponse(store: StoreReply)
    ensures StoreResponse(store).status == 200 <==> store.Created?
    ensures StoreResponse(store).status in {200, 400}
    ensures store.Created? ==> StoreResponse(store).body == StatusOk(store.record)
    ensures store.StoreFailed? ==> StoreResponse(store).body == StatusError(Message(store.message))
  {
  }

  /** Every response carries one of the four codes, and 200 only for an order the store created. */
  lemma StatusCodes(httpMethod: string, upload: Upload, store: StoreReply)
    ensures var out := Handle(httpMethod, upload, store);
            out.response.status in {200, 400, 405, 500} &&
            (out.response.status == 200 <==> StoreCalled(out) && store.Created?)
  {
    StoreCalledOnlyAfterFullValidation(httpMethod, upload, store);
    if httpMethod == "POST" && upload.Uploaded? && upload.file.Some? && FieldsAccepted(upload.body) {
      DecidedByRecords(httpMethod, upload, store);
      OnEndStoresIffNoErrors(upload.body[VendorField], upload.body[DateField], upload.file.value.path,
                             Ingest(upload.file.value.records), store);
    } else {
      RefusedBeforeReading(httpMethod, upload, store);
    }
  }

  // ---------------------------------------------------------------------------
  // Properties of the upload
  // ---------------------------------------------------------------------------

  /** A file part the middleware keeps: one whose name is not empty. */
  predicate NamedFile(e: FormEntry) {
    e.part.FilePart? && Basename(e.part.file.name) != ""
  }

  /** How many named file parts the form carries. */
  function FileCount(entries: seq<FormEntry>): nat {
    if entries == [] then 0 else (if NamedFile(entries[0]) then 1 else 0) + FileCount(entries[1..])
  }

  /** Some named file part is sent under a field other than "csvFile". */
  predicate StrayFile(entries: seq<FormEntry>) {
    exists k :: 0 <= k < |entries| && NamedFile(entries[k]) && entries[k].name != FileField
  }

  /** The first text value sent under a name. */
  function FirstText(entries: seq<FormEntry>, name: string): Option<string> {
    if entries == [] then None
    else if entries[0].name == name && entries[0].part.TextPart? then Some(entries[0].part.text)
    else FirstText(entries[1..], name)
  }

  /** The first named file sent. */
  function FirstFile(entries: seq<FormEntry>): Option<ClientFile> {
    if entries == [] then None
    else if NamedFile(entries[0]) then Some(entries[0].part.file)
    else FirstFile(entries[1..])
  }

  /** A failed upload stays failed. */
  lemma {:induction false} FailedStaysFailed(message: string, entries: seq<FormEntry>)
    ensures ReceiveFrom(UploadFailed(message), entries) == UploadFailed(message)
    decreases |entries|
  {
    if entries != [] {
      FailedStaysFailed(message, entries[1..]);
    }
  }

  /** The middleware, from a partial result, against the reference definitions above. */
  lemma {:induction false} ReceiveFromMatchesReference(body: map<string, string>, file: Option<StoredFile>,
                                                       entries: seq<FormEntry>)
    ensures var u := ReceiveFrom(Uploaded(body, file), entries);
            && (u.UploadFailed? <==> StrayFile(entries) || FileCount(entries) + (if file.Some? then 1 else 0) > 1)
            && (u.UploadFailed? ==> u.message == UnexpectedFieldMessage)
            && (u.Uploaded? ==>
                  && (forall n :: Field(u.body, n) == if n in body then Some(body[n]) else FirstText(entries, n))
                  && u.file == if file.Some? then file else
                               if FirstFile(entries).Some? then Some(Staged(FirstFile(entries).value)) else None)
    decreases |entries|
  {
    if entries != [] {
      var e, rest := entries[0], entries[1..];
      var next := ReceiveEntry(Uploaded(body, file), e);
      assert forall k :: 1 <= k < |entries| ==> entries[k] == rest[k - 1];
      if next.UploadFailed? {
        FailedStaysFailed(next.message, rest);
        assert NamedFile(e);
        assert StrayFile(entries) || FileCount(entries) + (if file.Some? then 1 else 0) > 1 by {
          if e.name != FileField {
            assert NamedFile(entries[0]) && entries[0].name != FileField;
          }
        }
      } else {
        ReceiveFromMatchesReference(next.body, next.file, rest);
        assert StrayFile(entries) <==> StrayFile(rest) by {
          if StrayFile(entries) {
            var k :| 0 <= k < |entries| && NamedFile(entries[k]) && entries[k].name != FileField;
            assert k != 0;
            assert NamedFile(rest[k - 1]) && rest[k - 1].name != FileField;
          }
          if StrayFile(rest) {
            var k :| 0 <= k < |rest| && NamedFile(rest[k]) && rest[k].name != FileField;
            assert entries[k + 1] == rest[k];
          }
        }
      }
    } else {
      assert !StrayFile(entries);
    }
  }

  /**
   * `upload.single("csvFile")`: the upload fails, always with "Unexpected field",
   * exactly when a named file is sent under another field or more than one named
   * file is sent; otherwise every text field holds its first value and the first
   * named file, if any, is staged under the upload directory by its base name.
   */
  lemma ReceiveMatchesReference(entries: seq<FormEntry>)
    ensures Receive(entries).UploadFailed? <==> StrayFile(entries) || FileCount(entries) > 1
    ensures Receive(entries).UploadFailed? ==> Receive(entries).message == UnexpectedFieldMessage
    ensures Receive(entries).Uploaded? ==>
              && (forall n :: Field(Receive(entries).body, n) == FirstText(entries, n))
              && Receive(entries).file == if FirstFile(entries).Some? then Some(Staged(FirstFile(entries).value)) else None
  {
    ReceiveFromMatchesReference(map[], None, entries);
  }

  /**
   * The segment kept is a suffix of the name that holds no separator, and it is
   * preceded by a separator unless it is the whole name.
   */
  lemma {:induction false} LastSegmentOfName(s: string)
    ensures var r := AfterLastSeparator(s);
            && |r| <= |s| && r == s[|s| - |r|..]
            && (forall i :: 0 <= i < |r| ==> !IsPathSeparator(r[i]))
            && (|r| < |s| ==> IsPathSeparator(s[|s| - |r| - 1]))
  {
    if s != [] && !IsPathSeparator(s[|s| - 1]) {
      var init, last := s[..|s| - 1], s[|s| - 1];
      LastSegmentOfName(init);
      var r0 := AfterLastSeparator(init);
      var r := r0 + [last];
      assert AfterLastSeparator(s) == r;
      assert s == init + [last];
      SuffixOfAppend(init, last, |init| - |r0|);
      assert r == s[|s| - |r|..];
      assert forall i :: 0 <= i < |r| ==> r[i] == if i < |r0| then r0[i] else last;
      if |r| < |s| {
        assert s[|s| - |r| - 1] == init[|init| - |r0| - 1];
      }
    }
  }

  lemma SuffixOfAppend(init: string, last: char, k: int)
    requires 0 <= k <= |init|
    ensures (init + [last])[k..] == init[k..] + [last]
  {
  }

  /**
   * A file name without a path separator is kept as it is, and a path is reduced
   * to its last segment, so "reports/po.csv" and "C:\\po.csv" are staged as "po.csv".
   */
  lemma BasenameOfPath(dir: string, c: char, name: string)
    requires IsPathSeparator(c)
    requires forall i :: 0 <= i < |name| ==> !IsPathSeparator(name[i])
    requires name != "." && name != ".."
    ensures Basename(name) == name
    ensures Basename(dir + [c] + name) == name
  {
    var s := dir + [c] + name;
    var r := AfterLastSeparator(s);
    LastSegmentOfName(s);
    LastSegmentOfName(name);
    assert s[|dir|] == c;
    assert forall i :: 0 <= i < |name| ==> s[|dir| + 1 + i] == name[i];
    assert |r| == |name|;
    assert r == s[|dir| + 1..] == name;
  }

  /** A file part with an empty name is dropped: it neither stages a file nor fails the upload. */
  lemma UnnamedFileDropped(acc: Upload, fieldName: string, f: ClientFile)
    requires Basename(f.name) == ""
    ensures ReceiveEntry(acc, FormEntry(fieldName, FilePart(f))) == acc
  {
  }

  // ---------------------------------------------------------------------------
  // The worked example: Acme Co orders two models
  // ---------------------------------------------------------------------------

  /**
   * Records that each validate to their item give an order of exactly those items,
   * in file order, and the store's reply decides the response.
   */
  lemma AcceptedRecordsOrder(body: map<string, string>, path: string, store: StoreReply,
                             records: seq<Row>, items: seq<LineItem>)
    requires FieldsAccepted(body)
    requires |items| == |records|
    requires forall i :: 0 <= i < |records| ==> ValidateRow(records[i]) == Some(items[i])
    ensures Handle("POST", Uploaded(body, Some(StoredFile(path, records))), store)
         == Outcome(StoreResponse(store),
                    [ReceiveUpload, ParseFields, ReadRows,
                     CreateOrder(OrderCreate(body[VendorField], body[DateField], path, items))])
  {
    IngestOfAccepted(records, items);
    DecidedByRecords("POST", Uploaded(body, Some(StoredFile(path, records))), store);
    OnEndWithoutErrors(body[VendorField], body[DateField], path, items, store);
  }

  /** A file of two accepted records gives an order of their two line items, in file order. */
  lemma TwoRecordOrder(body: map<string, string>, path: string, store: StoreReply,
                       first: Row, second: Row, firstItem: LineItem, secondItem: LineItem)
    requires FieldsAccepted(body)
    requires ValidateRow(first) == Some(firstItem) && ValidateRow(second) == Some(secondItem)
    ensures Handle("POST", Uploaded(body, Some(StoredFile(path, [first, second]))), store)
         == Outcome(StoreResponse(store),
                    [ReceiveUpload, ParseFields, ReadRows,
                     CreateOrder(OrderCreate(body[VendorField], body[DateField], path, [firstItem, secondItem]))])
  {
    var records, items := [first, second], [firstItem, secondItem];
    forall i | 0 <= i < |records|
      ensures ValidateRow(records[i]) == Some(items[i])
    {
      var r, item := records[i], items[i];
      if i == 0 {
        assert r == first && item == firstItem;
      } else {
        assert r == second && item == secondItem;
      }
    }
    AcceptedRecordsOrder(body, path, store, records, items);
  }

  /** The vendor "Acme Co" and the date "2023-05-01" pass the field checks. */
  lemma AcmeFieldsAccepted()
    ensures FieldsAccepted(map[VendorField := "Acme Co", DateField := "2023-05-01"])
  {
  }

  /**
   * Vendor "Acme Co", date "2023-05-01" and the rows "ABC-100,19.99,5" and
   * "XYZ-200,5.50,10": the store is asked for an order of those two line items, in
   * that order, and the request succeeds when the store creates it.
   */
  lemma AcmeOrderStored(path: string, store: StoreReply)
    ensures Handle("POST", Uploaded(map[VendorField := "Acme Co", DateField := "2023-05-01"],
                                    Some(StoredFile(path, [SampleRow("ABC-100", "19.99", "5"),
                                                           SampleRow("XYZ-200", "5.50", "10")]))), store)
         == Outcome(StoreResponse(store),
                    [ReceiveUpload, ParseFields, ReadRows,
                     CreateOrder(OrderCreate("Acme Co", "2023-05-01", path,
                                             [LineItem("ABC-100", FloatOf("19.99"), 5),
                                              LineItem("XYZ-200", FloatOf("5.50"), 10)]))])
  {
    AcmeFieldsAccepted();
    SampleRowAccepted();
    SecondSampleRowAccepted();
    TwoRecordOrder(map[VendorField := "Acme Co", DateField := "2023-05-01"], path, store,
                   SampleRow("ABC-100", "19.99", "5"), SampleRow("XYZ-200", "5.50", "10"),
                   LineItem("ABC-100", FloatOf("19.99"), 5), LineItem("XYZ-200", FloatOf("5.50"), 10));
  }
}
