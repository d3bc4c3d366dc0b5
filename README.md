# Purchase-order ingestion, modelled in Dafny

The application lets a user upload a purchase order: a vendor name, an order
date and a CSV file of line items with the columns "Model Number", "Unit
Price" and "Quantity". The browser form (`components/purchase-form.tsx`)
validates the three inputs and posts them as multipart form data. The endpoint
`pages/api/submit.ts` then does the following:

- it accepts only POST;
- it stages the file through the upload middleware;
- it requires the vendor, the date and the file;
- it checks the vendor length;
- it reads every CSV record, coercing and validating each;
- it either answers with the first row error or asks the database to create the
  order with one line item per record.

This project models that path and proves what it guarantees.

Modules, in dependency order:

- `Wrappers` holds `Option`. `Zod` holds a schema issue (its path and message).
- `EcmaNumber` follows ECMA-262:
  - `parseInt(s, 10)` (section 19.2.5) is `ParseInt`;
  - `parseFloat` (section 19.2.4) is `HasFloatPrefix`, which says whether it finds
    a number;
  - the UTF-16 length of JavaScript strings (`.length`) is `Utf16Length`.
- `JsDate` holds ECMAScript time values (section 21.4.1 of ECMA-262) and the day
  numbering (`DayFromYear`, `DayNumber`). The minimum date `new Date("1900-01-01")`
  is midnight UTC.
- `CsvRow` holds one decoded record (`Row`, a map from column name to text):
  - the coercion of "Unit Price" by `parseFloat` and of "Quantity" by `parseInt`;
  - the `notNumericString` preprocessor;
  - the `csvSchema` object schema;
  - `ValidateRow`, the composition of the above.
- `CsvIngest` is the `data` handler's accumulation into `rows` and `errors`:
  - the specification function `Ingest`, a left fold over the validation outcomes;
  - the imperative `CollectRows`, proved equal to `Ingest`;
  - a reference definition (`ValidItems` and `RejectedCount`, read from the front)
    that the fold is proved to match.
- `Submit` is the endpoint:
  - `Receive` is the upload middleware as configured (`upload.single("csvFile")`,
    files staged as `uploads/<base name>`, a file part with an empty name dropped);
  - `Handle` is the whole decision as a function;
  - `HandleRequest` and `ReadAndDecide` are the same decision step by step,
    proved equal to `Handle`.
  - An `Outcome` pairs the response with the trace of steps the request went
    through. The last step, `CreateOrder`, carries exactly what the store was
    asked to create. So "the store is never called" and "the store receives these
    items" can be stated.
- `PurchaseForm` is the client side:
  - the client `formSchema` (`FormIssues`);
  - the calendar's disabled days;
  - the form data `onSubmit` builds (`SubmittedEntries`);
  - how the form reacts to the reply (`Reaction`).

Inputs that come from outside the core are parameters:

- the request method;
- what the upload middleware produced (or the form entries it reads);
- the decoded CSV records of the staged file;
- the store's answer when it is asked to create an order (`StoreReply`);
- on the client, the ISO text of the picked date and the local time zone offset.

Behaviour worth knowing, as the code has it:

- A record without a column gives JavaScript `undefined` for it. `parseInt` and
  `parseFloat` turn that into NaN, and `notNumericString` turns a missing model
  number into `undefined`. Either way the record is rejected.
- A model number is accepted only when `parseInt` finds no number in it:
  - "ABC-100" and "" pass;
  - "100", "12abc" and " -7x" are rejected.
- A quantity keeps its integer prefix: "5.9" counts 5 and "10 pcs" counts 10.
- The server's only date check is that the date text is non-empty.
- The client rejects dates before `new Date("1900-01-01")`, which is midnight
  UTC. A day picked in the calendar is local midnight. So 1900-01-01 itself
  passes only where local time is not ahead of UTC (`PickedDayAgainstMinimum`).
- A file part whose name is empty (or is "." or "..") is dropped by the
  upload middleware, so such a request is refused as missing input. A file
  name that holds a path is cut to its last segment before it is staged.
- There is no distinct response for a CSV file that cannot be tokenised: the
  stream's `error` handler throws inside an event callback and no response is
  sent. The model leaves that path out (see below).

## Model

| member | source | states |
|---|---|---|
| `EcmaNumber.TrimStart` | pages/api/submit.ts:84 | the result is a suffix of the input, everything removed is JavaScript white space or a line terminator, and the result does not start with either |
| `EcmaNumber.DigitPrefix` | pages/api/submit.ts:84 | the result is the longest prefix of the input made only of decimal digits |
| `EcmaNumber.ParseInt` | pages/api/submit.ts:11 | `parseInt(s, 10)` finds a number exactly when a decimal digit follows the leading white space and the optional sign |
| `EcmaNumber.DecimalValueOfShowNat` | pages/api/submit.ts:84 | reading back the decimal text of a natural number gives that number |
| `EcmaNumber.DigitPrefixOfDigitsThen` | pages/api/submit.ts:84 | the digit scan stops exactly at the first character that is not a digit |
| `EcmaNumber.ParseIntOfSignedDigits` | pages/api/submit.ts:84 | an optional "+" or "-" and a run of digits followed by a non-digit parse to the signed value of those digits |
| `EcmaNumber.ParseIntOfShowInt` | pages/api/submit.ts:84 | round trip: the decimal text of any integer, followed by anything that does not start with a digit, parses back to that integer |
| `EcmaNumber.ParseIntNaNAtFront` | pages/api/submit.ts:11 | a text whose first character is neither white space, a digit nor a sign gives NaN |
| `EcmaNumber.TrimStartSkipsWhiteSpace` | pages/api/submit.ts:84 | leading white space never changes what the number parsers see |
| `EcmaNumber.ParseIntSkipsWhiteSpace` | pages/api/submit.ts:84 | leading white space never changes what `parseInt` returns |
| `EcmaNumber.HasFloatPrefixIsParseFloat` | pages/api/submit.ts:83 | `HasFloatPrefix`, the greedy prefix test used for `parseFloat`, holds exactly when some prefix of the trimmed text is a StrDecimalLiteral, matching the definition in ECMA-262 |
| `EcmaNumber.FloatPrefixHasLiteral` | pages/api/submit.ts:83 | when the greedy test succeeds, a StrDecimalLiteral prefix exists |
| `EcmaNumber.LiteralHasFloatPrefix` | pages/api/submit.ts:83 | when a StrDecimalLiteral prefix exists, the greedy test succeeds |
| `EcmaNumber.ParseIntImpliesFloatPrefix` | pages/api/submit.ts:83-84 | any text in which `parseInt` finds a number is also one in which `parseFloat` finds one |
| `EcmaNumber.DigitFirstHasFloatPrefix` | pages/api/submit.ts:83 | a text that starts with a digit holds a number for `parseFloat` |
| `EcmaNumber.NoNumberAtFront` | pages/api/submit.ts:83-84 | a text whose first character can start no number holds one for neither `parseFloat` nor `parseInt` |
| `EcmaNumber.Utf16Length` | pages/api/submit.ts:40 | the UTF-16 length lies between the number of code points and twice that |
| `EcmaNumber.Utf16LengthOfBmp` | pages/api/submit.ts:40 | for text in the Basic Multilingual Plane, the UTF-16 length is the number of characters |
| `CsvRow.ParseFloatColumn` | pages/api/submit.ts:83 | the coerced unit price is a number exactly when the column is present and its text starts with a number; `undefined` gives NaN |
| `CsvRow.ParseIntColumn` | pages/api/submit.ts:84 | the coerced quantity is an integer exactly when the column is present and `parseInt` finds one in it, and then it is that integer |
| `CsvRow.NotNumericString` | pages/api/submit.ts:8-15 | the value reaches the string schema exactly when it is a string in which `parseInt` finds no number, and then it is unchanged; otherwise it becomes `undefined` |
| `CsvRow.UndefinedIsNaN` | pages/api/submit.ts:83-84 | an absent column, which reaches the parsers as the text "undefined", holds no number for either |
| `CsvRow.ValidateRowAccepts` | pages/api/submit.ts:33-37 | `ValidateRow` (the schema `CsvSchema` applied to the coerced record `Coerce`): a record is accepted exactly when its model number is a non-numeric text, its unit price starts with a number and its quantity starts with an integer; the line item is then those three values |
| `CsvRow.CoerceReadsColumns` | pages/api/submit.ts:83-85 | `Coerce` overwrites only the two numeric columns: the model number goes on as read, the unit price is a number exactly when its text starts with one, and the quantity is the integer `parseInt` finds in it |
| `CsvRow.MissingModelNumberRejected` | pages/api/submit.ts:10-14 | a record without a model number is rejected whatever its other columns hold |
| `CsvRow.NumericModelNumbers` | pages/api/submit.ts:11 | "100", "12abc" and " -7x" are numeric to `parseInt` (100, 12, -7) and so not accepted as model numbers |
| `CsvRow.NonNumericModelNumbers` | pages/api/submit.ts:11 | "ABC-100" and "" are not numeric to `parseInt` and so pass the preprocessor |
| `CsvRow.QuantityPrefixExamples` | pages/api/submit.ts:84 | a quantity of "5.9" counts 5 and "10 pcs" counts 10 |
| `CsvRow.SampleRowValidates` | pages/api/submit.ts:81-85 | a record of the three columns validates column by column, to the item built from them or to a rejection |
| `CsvRow.SampleRowAccepted` | pages/api/submit.ts:81-85 | the record "ABC-100,19.99,5" becomes the line item ABC-100 at 19.99 times 5 |
| `CsvRow.SecondSampleRowAccepted` | pages/api/submit.ts:81-85 | the record "XYZ-200,5.50,10" becomes the line item XYZ-200 at 5.50 times 10 |
| `CsvRow.NumericModelNumberRowRejected` | pages/api/submit.ts:34 | the record "100,19.99,5" is rejected because its model number is numeric |
| `CsvIngest.CollectRows` | pages/api/submit.ts:73-89 | the loop over the records leaves `rows` and `errors` equal to the fold `Ingest`, with one entry per record in all |
| `CsvIngest.FoldMatchesReference` | pages/api/submit.ts:81-89 | `Fold` of the `OnData` steps keeps exactly the accepted items, in order, and records one "Invalid csv file" per rejected outcome, as the independent front-to-back `ValidItems` and `RejectedCount` say |
| `CsvIngest.FoldAccountsForEveryOutcome` | pages/api/submit.ts:81-89 | each `OnData` step of the `Fold` adds exactly one entry, to `rows` or to `errors` |
| `CsvIngest.FoldWithoutRejection` | pages/api/submit.ts:81-89 | `errors` stays empty exactly when no outcome is a rejection, and then `rows` holds the items position by position |
| `CsvIngest.IngestAccountsForEveryRecord` | pages/api/submit.ts:81-89 | the number of rows plus the number of errors is the number of records |
| `CsvIngest.IngestMatchesReference` | pages/api/submit.ts:81-89 | `Ingest`, the state when the stream ends: the rows are the accepted records' line items in file order; every error is "Invalid csv file", one per rejected record |
| `CsvIngest.IngestAllValid` | pages/api/submit.ts:81-89 | no error is recorded exactly when every record is accepted, and then each record's line item sits at its own position |
| `CsvIngest.IngestOfAccepted` | pages/api/submit.ts:81-89 | records that validate one by one to given items ingest to exactly those items and no error |
| `CsvIngest.FirstErrorIsInvalidCsv` | pages/api/submit.ts:86-92 | one rejected record anywhere makes the first error, the one sent back, "Invalid csv file" |
| `CsvIngest.EmptyFileIngestsNothing` | pages/api/submit.ts:73-74 | a file with no records leaves both arrays empty |
| `JsDate.DaysBeforeMonth` | components/purchase-form.tsx:47 | the days before a month, plus the month's own days, fit within the year |
| `JsDate.DaysBeforeMonthStep` | components/purchase-form.tsx:47 | the days before the next month are the days before this month plus this month's length, so the month table accumulates the month lengths |
| `JsDate.DayFromYearNext` | components/purchase-form.tsx:47 | consecutive years start DaysInYear days apart |
| `JsDate.DayFromYearMonotone` | components/purchase-form.tsx:47 | a later year starts at least 365 days per year later |
| `JsDate.DayNumberWithinYear` | components/purchase-form.tsx:47 | every day of a year lies between the first day of that year and the first day of the next |
| `JsDate.MinDateValue` | components/purchase-form.tsx:47 | `MinDate`, the time value of `new Date("1900-01-01")`: the epoch is day 0, 1900-01-01 is day -25567, and the minimum date is -2208988800000 ms |
| `JsDate.LocalMidnightAgainstMinDate` | components/purchase-form.tsx:47-49 | `LocalMidnight`, the instant a picked day stands for: local midnight of a day before 1900 is before the minimum and of a day after 1900-01-01 after it; on 1900-01-01 it reaches the minimum exactly when the offset is not east of UTC |
| `Submit.HandleRequest` | pages/api/submit.ts:50-122 | the step-by-step handler produces exactly the response and trace of `Handle` |
| `Submit.ReadAndDecide` | pages/api/submit.ts:75-119 | reading the stream to the end and deciding gives the end-of-stream decision on the fold of the records |
| `Submit.NonPostRefused` | pages/api/submit.ts:52-55 | any method but POST gets 405 "Method not allowed" before the upload is touched |
| `Submit.UploadFailureIs500` | pages/api/submit.ts:57-61 | an upload error gets 500 with the middleware's message, and nothing is read |
| `Submit.MissingInputRefused` | pages/api/submit.ts:63-68 | a missing or empty vendor or date, or no file, gets 400 "Vendor, date and file are required" before any parsing |
| `Submit.ShortVendorRefused` | pages/api/submit.ts:39-42 | a vendor of one to three UTF-16 code units gets 400 with status "error" and the schema's "at least 4 character(s)" issue, before any record is read |
| `Submit.InvalidRecordRefused` | pages/api/submit.ts:90-94 | one rejected record anywhere gives 400 "Invalid csv file" after the whole file is read, and the store is not asked |
| `Submit.AllValidRecordsStored` | pages/api/submit.ts:95-118 | when every record is accepted the store is asked once with the vendor and date as sent, the staged path, and one item per record in file order; its answer gives 200 with the record or 400 with its message |
| `Submit.EmptyFileStoredWithoutItems` | pages/api/submit.ts:101-107 | a file with no records gives an order with no items |
| `Submit.RefusedBeforeReading` | pages/api/submit.ts:52-68 | a request refused before the records are read never reaches the store, and is answered 400, 405 or 500 |
| `Submit.DecidedByRecords` | pages/api/submit.ts:70-90 | once the fields pass, the answer depends only on the fold of the records and the store's reply |
| `Submit.OnEndStoresIffNoErrors` | pages/api/submit.ts:90-118 | `OnEnd`, the decision at the end of the stream: the store is asked exactly when no record was rejected, and the answer is 200 exactly when it was asked and created the order |
| `Submit.OnEndReadsAllRecordsFirst` | pages/api/submit.ts:88-118 | `OnEnd` decides only after the upload, the fields and the whole file have been through, and asks the store at most once, last, with the accepted rows |
| `Submit.OnEndWithoutErrors` | pages/api/submit.ts:95-118 | `OnEnd` with no rejected record asks the store for exactly the accepted items, and the store's reply gives the response |
| `Submit.StoreReplyDecidesResponse` | pages/api/submit.ts:113-117 | `StoreResponse`: 200 with the created record exactly when the store created it, otherwise 400 with the store's message |
| `Submit.StoreCalledOnlyAfterFullValidation` | pages/api/submit.ts:50-122 | all or nothing: the store is asked exactly when the request is a POST whose upload succeeded and whose fields and every record pass |
| `Submit.StatusCodes` | pages/api/submit.ts:50-122 | every answer is 200, 400, 405 or 500, and 200 exactly when the store was asked and created the order |
| `Submit.ChecksRunInOrder` | pages/api/submit.ts:50-122 | `Handle` runs its checks in a fixed order: every request's steps are a prefix of upload, fields, records and store; a non-POST has none; the store comes last |
| `Submit.FailedStaysFailed` | pages/api/submit.ts:57 | once the middleware has failed, later parts do not change the result |
| `Submit.ReceiveFromMatchesReference` | pages/api/submit.ts:57 | `ReceiveFrom`, from any partial result: the middleware fails exactly on a stray or second named file, and otherwise keeps the first value of each text field and stages the first named file; a file part with an empty name is dropped |
| `Submit.ReceiveMatchesReference` | pages/api/submit.ts:57 | `Receive`, the middleware `upload.single("csvFile")`: the upload fails, always with "Unexpected field", exactly when a named file comes under a field other than "csvFile" or more than one named file comes; otherwise each text field holds its first value and the first named file is staged as "uploads/" plus its base name, with its records |
| `Submit.BasenameOfPath` | pages/api/submit.ts:26-28 | `Basename`, the `originalname` the disk storage names the staged file by: a name without a separator is kept, and a path is cut to its last segment |
| `Submit.LastSegmentOfName` | pages/api/submit.ts:26-28 | the segment kept is a suffix of the name with no slash or backslash in it, and a separator precedes it unless it is the whole name |
| `Submit.UnnamedFileDropped` | pages/api/submit.ts:57 | a file part whose name is empty is drained and dropped: it neither stages a file nor fails the upload |
| `Submit.AcceptedRecordsOrder` | pages/api/submit.ts:81-118 | once the fields pass, records that each validate to their item give an order of exactly those items, in file order, after the upload, fields and records steps, and the store's reply decides the response |
| `Submit.TwoRecordOrder` | pages/api/submit.ts:96-107 | a file of two accepted records gives an order of their two items, in file order |
| `Submit.AcmeOrderStored` | pages/api/submit.ts:96-113 | vendor "Acme Co", date "2023-05-01" and the rows ABC-100,19.99,5 and XYZ-200,5.50,10 lead to the store being asked for exactly those two items |
| `PurchaseForm.DefaultValuesRejected` | components/purchase-form.tsx:62-68 | the initial values fail all three rules, with the vendor, date-required and file-required messages in field order |
| `PurchaseForm.FormIssuesByField` | components/purchase-form.tsx:39-53 | `FormIssues`, the client `formSchema`: each field's message appears exactly when its rule fails, and the form passes exactly when the vendor has at least 4 UTF-16 code units, a date is picked and not before the minimum, and a file is chosen |
| `PurchaseForm.CalendarMatchesDateRule` | components/purchase-form.tsx:169 | `CalendarDisabled`: the calendar disables exactly the instants the date rule rejects as too early |
| `PurchaseForm.PickedDayAgainstMinimum` | components/purchase-form.tsx:43-49 | a picked day before 1900 is rejected and one after 1900-01-01 accepted at any offset; 1900-01-01 is accepted only where local time is not ahead of UTC |
| `PurchaseForm.SubmittedFieldsReceived` | components/purchase-form.tsx:71-74 | `SubmittedEntries`, the form data `onSubmit` builds: the names it appends under are the names the endpoint reads, so the vendor and date arrive as body fields and the file, unless its name is empty, as the staged upload |
| `PurchaseForm.AcceptedFormReachesRecords` | components/purchase-form.tsx:70-74 | a form the client schema accepts, sent with its file, passes the server's missing-input and vendor checks and is decided by its records, with the vendor and date it sent |
| `PurchaseForm.AcceptedValuesPassServer` | pages/api/submit.ts:63-71 | the vendor and date of a form the client schema accepts are present, non-empty, and pass the server's vendor rule |
| `PurchaseForm.FormWithoutFileRefused` | components/purchase-form.tsx:74 | sent without a file (the text "null"), the form is answered 400 "Vendor, date and file are required" |
| `PurchaseForm.UnnamedFileRefused` | components/purchase-form.tsx:74 | a file sent with an empty name is dropped by the middleware, and the request is answered 400 "Vendor, date and file are required" |
| `PurchaseForm.VendorRulesAgree` | pages/api/submit.ts:39-42 | `ServerFormIssues`, the server `formSchema`: it refuses exactly the vendors the client's vendor rule refuses, those under 4 UTF-16 code units, with its one "at least 4 character(s)" issue; the date never raises one |
| `PurchaseForm.ReactionToReplies` | components/purchase-form.tsx:84-93 | `Reaction`: a 200 reply shows the success toast with the created record; a reply with a non-empty error shows that error |
| `PurchaseForm.EmptyUploadErrorShowsToast` | components/purchase-form.tsx:86-93 | an upload error with an empty message is not recognised as an error, so the form shows the success toast with no data |

## Left out

- CSV tokenising is left out because `fast-csv` is a foreign library. The model starts from the decoded records, one map from header name to text per data line, with a column missing from the header absent; quoting, header handling and the `error` event are not modelled.
- A stream error is left out: the handler at submit.ts:78-80 throws inside an event callback, which sends no response, so there is no malformed-file response to model.
- A POST whose body is not multipart form data is left out. The middleware then passes on with no error and no body, and `const { vendor, date } = req.body` at submit.ts:63, which is outside the `try`, throws, so no response is sent. `Upload` has no value for that case; the nearest one, `Receive([])`, is a multipart request with no parts, which is answered 400.
- Disk I/O of the upload middleware is left out: creating `uploads/`, writing the file and reading it back. The staged path is modelled as "uploads/" plus the base name of the file (`Basename`). Neither `path.join` normalisation nor the `path.relative` call at submit.ts:100 is modelled, so the model stores that path as is.
- Sharing of the upload directory between requests is left out. Two uploads with the same base name are written to the same file, the later one over the earlier. So a request running at the same time as another can read the other request's rows, and an earlier order's stored `csvFile` path points at whatever was uploaded under that name last. The model gives each request its own records.
- Prisma is left out. The store is represented by the answer it gives when asked (`StoreReply`): the created record or an error message. Connection handling and `$disconnect` are not modelled.
- The double value of the unit price is left out. `Price` keeps the whole column text, including any trailing text `parseFloat` ignores (as in "19.99abc"), and `HasFloatPrefix` decides only whether a number is found. So "5.5" and "5.50" are different prices in the model, where the source stores the same double.
- `EcmaNumber.ParseInt`: models -0 as 0, and does not model the rounding of very long integers to the nearest double or their becoming Infinity.
- `CsvRow.ValidateRowAccepts`: accepts a record whose quantity has so many digits that `parseInt` gives Infinity (a value from about 1.8 × 10^308 up, which takes 309 digits or more). The source rejects such a record, because `z.number().int()` at submit.ts:36 refuses Infinity; `CsvIngest.IngestAllValid` inherits the same gap.
- `CsvRow.ParseIntColumn`: gives the exact integer for a quantity of any length, where the source's `parseInt` gives Infinity from 309 digits up, which is not an integer to the schema.
- `new Date(formValues.date)` on the server and `toISOString` on the client are left out. The date reaches the store as the text that was sent, and the client's ISO text is a parameter.
- The middleware's check for a missing field name is left out. Where it reports an empty field name as missing, the upload fails with "Field name missing" and the request is answered 500. The model instead keeps a text part with an empty field name under the key "", and fails a named file part with an empty field name with "Unexpected field", which is also a 500. The model also treats a file part whose name is given as `filename=""` as a file part with an empty name, which is dropped. The parser may instead pass such a part on as a text field; either way no file arrives, so the answer is still 400 for missing input.
- Duplicate text fields are left out. The upload middleware would turn them into arrays; the model keeps the first value.
- `Submit.ShortVendorRefused`: a vendor that is not a string (which only duplicate fields would produce) is not modelled.
- The JSON rendering of a ZodError's `message` is left out. The model keeps its list of issues, and on the client only the issue lists of the schema are modelled.
- React rendering, `useState`, the loading flag, and the toast's `JSON.stringify` of the data are left out. Only what `Reaction` shows (the error or the toast) is modelled.
- `MAX_FILE_SIZE` and `ACCEPTED_FILE_TYPES` are left out: neither constant is checked anywhere in the code (`accept` only filters the browser's file picker).
- The `file` state is `undefined` rather than `null` when a selection is cancelled. Both are sent as a text part, so the model treats them alike as "null".
- A `Date` that is not a valid time value (NaN) is left out: the calendar never produces one.
- `app/page.tsx` and `config/site.ts` are page layout and site metadata, not part of this model.
