/**
 * The accumulation the submit endpoint's `data` handler performs while the CSV
 * stream is read: every decoded record is coerced and validated, an accepted one
 * appended to `rows`, a rejected one recorded as an "Invalid csv file" entry in
 * `errors`. Reading never stops early; the decision is taken at the end.
 */
module CsvIngest {
  import opened Wrappers
  import opened CsvRow

  const InvalidCsvMessage := "Invalid csv file"

  /** The two arrays the handler fills: the accepted records and one error per rejected record. */
  datatype Ingestion = Ingestion(rows: seq<LineItem>, errors: seq<string>)

  /** What validation makes of each record, in file order: a line item, or `None` for a rejected record. */
  function Outcomes(records: seq<Row>): seq<Option<LineItem>> {
    seq(|records|, i requires 0 <= i < |records| => ValidateRow(records[i]))
  }

  /** One `data` event: append the line item of an accepted record, or an error entry. */
  function OnData(acc: Ingestion, outcome: Option<LineItem>): Ingestion {
    match outcome
    case Some(item) => acc.(rows := acc.rows + [item])
    case None => acc.(errors := acc.errors + [InvalidCsvMessage])
  }

  /** The state after a sequence of `data` events (a left fold). */
  function Fold(outcomes: seq<Option<LineItem>>): Ingestion {
    if outcomes == [] then Ingestion([], [])
    else OnData(Fold(outcomes[..|outcomes| - 1]), outcomes[|outcomes| - 1])
  }

  /** The state when the stream ends: every record of the file has been through `data`. */
  function Ingest(records: seq<Row>): Ingestion {
    Fold(Outcomes(records))
  }

  /** The stream read imperatively: two arrays filled one `data` event at a time. */
  method CollectRows(records: seq<Row>) returns (rows: seq<LineItem>, errors: seq<string>)
    ensures Ingestion(rows, errors) == Ingest(records)
    ensures |rows| + |errors| == |records|
  {
    ghost var outcomes := Outcomes(records);
    rows, errors := [], [];
    var i := 0;
    while i < |records|
      invariant 0 <= i <= |records|
      invariant Ingestion(rows, errors) == Fold(outcomes[..i])
      invariant |rows| + |errors| == i
    {
      assert outcomes[..i + 1][..i] == outcomes[..i];
      var outcome := ValidateRow(records[i]);
      assert outcome == outcomes[i];
      match outcome {
        case Some(item) => rows := rows + [item];
        case None => errors := errors + [InvalidCsvMessage];
      }
      i := i + 1;
    }
    assert outcomes[..i] == outcomes;
  }

  // ---------------------------------------------------------------------------
  // A reference definition, outcome by outcome from the front
  // ---------------------------------------------------------------------------

  function ItemsOf(outcome: Option<LineItem>): seq<LineItem> {
    match outcome
    case Some(item) => [item]
    case None => []
  }

  /** The accepted records' line items, in file order. */
  function ValidItems(outcomes: seq<Option<LineItem>>): seq<LineItem> {
    if outcomes == [] then [] else ItemsOf(outcomes[0]) + ValidItems(outcomes[1..])
  }

  /** How many records are rejected. */
  function RejectedCount(outcomes: seq<Option<LineItem>>): nat {
    if outcomes == [] then 0 else (if outcomes[0].None? then 1 else 0) + RejectedCount(outcomes[1..])
  }

  /** Every record of the file is accepted. */
  predicate AllValid(records: seq<Row>) {
    forall i :: 0 <= i < |records| ==> ValidateRow(records[i]).Some?
  }

  lemma {:induction false} ValidItemsAppend(outcomes: seq<Option<LineItem>>, o: Option<LineItem>)
    ensures ValidItems(outcomes + [o]) == ValidItems(outcomes) + ItemsOf(o)
  {
    if outcomes == [] {
      assert outcomes + [o] == [o];
      assert [o][1..] == [];
    } else {
      assert (outcomes + [o])[1..] == outcomes[1..] + [o];
      ValidItemsAppend(outcomes[1..], o);
    }
  }

  lemma {:induction false} RejectedCountAppend(outcomes: seq<Option<LineItem>>, o: Option<LineItem>)
    ensures RejectedCount(outcomes + [o]) == RejectedCount(outcomes) + (if o.None? then 1 else 0)
  {
    if outcomes == [] {
      assert outcomes + [o] == [o];
      assert [o][1..] == [];
    } else {
      assert (outcomes + [o])[1..] == outcomes[1..] + [o];
      RejectedCountAppend(outcomes[1..], o);
    }
  }

  /**
   * The fold keeps the accepted records' line items in file order, drops none of
   * them, and records exactly one "Invalid csv file" entry per rejected record.
   */
  lemma {:induction false} FoldMatchesReference(outcomes: seq<Option<LineItem>>)
    ensures Fold(outcomes).rows == ValidItems(outcomes)
    ensures |Fold(outcomes).errors| == RejectedCount(outcomes)
    ensures forall e :: e in Fold(outcomes).errors ==> e == InvalidCsvMessage
  {
    if outcomes != [] {
      var init := outcomes[..|outcomes| - 1];
      var last := outcomes[|outcomes| - 1];
      assert outcomes == init + [last];
      FoldMatchesReference(init);
      ValidItemsAppend(init, last);
      RejectedCountAppend(init, last);
    }
  }

  /** Every outcome adds exactly one entry, to `rows` or to `errors`. */
  lemma {:induction false} FoldAccountsForEveryOutcome(outcomes: seq<Option<LineItem>>)
    ensures |Fold(outcomes).rows| + |Fold(outcomes).errors| == |outcomes|
  {
    if outcomes != [] {
      FoldAccountsForEveryOutcome(outcomes[..|outcomes| - 1]);
    }
  }

  /** `errors` stays empty exactly when no outcome is a rejection; then `rows` are the items, in order. */
  lemma {:induction false} FoldWithoutRejection(outcomes: seq<Option<LineItem>>)
    ensures Fold(outcomes).errors == [] <==> forall i :: 0 <= i < |outcomes| ==> outcomes[i].Some?
    ensures Fold(outcomes).errors == [] ==>
              |Fold(outcomes).rows| == |outcomes| &&
              forall i :: 0 <= i < |outcomes| ==> Some(Fold(outcomes).rows[i]) == outcomes[i]
  {
    if outcomes != [] {
      var init := outcomes[..|outcomes| - 1];
      FoldWithoutRejection(init);
      FoldAccountsForEveryOutcome(init);
      if forall i :: 0 <= i < |outcomes| ==> outcomes[i].Some? {
        assert forall i :: 0 <= i < |init| ==> init[i] == outcomes[i];
      }
      if Fold(outcomes).errors == [] {
        forall i | 0 <= i < |outcomes| ensures outcomes[i].Some? && Some(Fold(outcomes).rows[i]) == outcomes[i] {
          if i < |init| {
            assert outcomes[i] == init[i];
          }
        }
      }
    }
  }

  /** Every record of the file adds exactly one entry, to `rows` or to `errors`. */
  lemma IngestAccountsForEveryRecord(records: seq<Row>)
    ensures |Ingest(records).rows| + |Ingest(records).errors| == |records|
  {
    FoldAccountsForEveryOutcome(Outcomes(records));
  }

  /** Each error entry is "Invalid csv file", one per rejected record; `rows` keeps the file order. */
  lemma IngestMatchesReference(records: seq<Row>)
    ensures Ingest(records).rows == ValidItems(Outcomes(records))
    ensures |Ingest(records).errors| == RejectedCount(Outcomes(records))
    ensures forall e :: e in Ingest(records).errors ==> e == InvalidCsvMessage
  {
    FoldMatchesReference(Outcomes(records));
  }

  /**
   * `errors` stays empty exactly when every record is accepted, and then `rows`
   * holds one line item per record, each the one that record validates to.
   */
  lemma IngestAllValid(records: seq<Row>)
    ensures Ingest(records).errors == [] <==> AllValid(records)
    ensures AllValid(records) ==>
              |Ingest(records).rows| == |records| &&
              forall i :: 0 <= i < |records| ==> Some(Ingest(records).rows[i]) == ValidateRow(records[i])
  {
    var outcomes := Outcomes(records);
    FoldWithoutRejection(outcomes);
    assert forall i :: 0 <= i < |records| ==> outcomes[i] == ValidateRow(records[i]);
  }

  /** A rejected record anywhere makes "Invalid csv file" the first error. */
  lemma FirstErrorIsInvalidCsv(records: seq<Row>)
    requires exists i :: 0 <= i < |records| && ValidateRow(records[i]).None?
    ensures Ingest(records).errors != [] && Ingest(records).errors[0] == InvalidCsvMessage
  {
    IngestAllValid(records);
    IngestMatchesReference(records);
    assert Ingest(records).errors[0] in Ingest(records).errors;
  }

  /** Records that validate one by one to given line items ingest to exactly those items and no errors. */
  lemma IngestOfAccepted(records: seq<Row>, items: seq<LineItem>)
    requires |items| == |records|
    requires forall i :: 0 <= i < |records| ==> ValidateRow(records[i]) == Some(items[i])
    ensures Ingest(records) == Ingestion(items, [])
  {
    IngestAllValid(records);
    var rows := Ingest(records).rows;
    assert forall i :: 0 <= i < |records| ==> rows[i] == items[i];
  }

  /** An empty file (a header row and no records) gives no rows and no errors. */
  lemma EmptyFileIngestsNothing()
    ensures Ingest([]) == Ingestion([], [])
  {
  }
}
