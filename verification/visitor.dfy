/** `ErrorCheckCSVVisitor` and `read_csv`: the header check, the per-row
    rules derived from the file's key, the projection of accepted rows to
    upload records, and the reader that drives them over one file.

    The visitor's only state is its list of validated records; here it is
    threaded through as the `validated` argument and returned in a `Visit`. */
module CsvVisitor {
  import opened Results
  import opened Strings
  import opened ErrorCheckKeys

  /** `REQUIRED_HEADERS`, in the order the upload record lists them. */
  const RequiredHeaders: seq<string> :=
    ["error_code", "error_type", "form_name", "packet",
     "var_name", "check_type", "test_name", "short_desc",
     "full_desc", "test_logic", "comp_forms", "comp_vars"]

  /** `ALLOWED_EMPTY_FIELDS` */
  const AllowedEmptyFields: seq<string> := ["comp_forms", "comp_vars"]

  /** One data row of the CSV, column name to cell text (a `DictReader` row). */
  type Row = map<string, string>

  /** One validated error check, ready for upload. */
  type ErrorCheck = map<string, string>

  /** The visitor's return value and its list of validated records afterwards. */
  datatype Visit = Visit(ok: bool, validated: seq<ErrorCheck>)

  /** The names of `names` absent from `header`, in order, except that
      `packet` is excused for a key without a packet. */
  function MissingAmong(names: seq<string>, key: ErrorCheckKey, header: seq<string>): (missing: seq<string>)
    ensures forall h :: h in missing <==>
      h in names && h !in header && !(h == "packet" && key.packet.None?)
    decreases |names|
  {
    if names == [] then []
    else
      assert names == [names[0]] + names[1..];
      var rest := MissingAmong(names[1..], key, header);
      if names[0] !in header && !(names[0] == "packet" && key.packet.None?) then [names[0]] + rest
      else rest
  }

  /** `visit_header`: true iff every required header is present, `packet`
      being excused exactly when the key has no packet at all (an empty
      packet is not excused). The headers it logs as missing are
      `MissingAmong(RequiredHeaders, key, header)`. */
  function VisitHeader(key: ErrorCheckKey, header: seq<string>): (ok: bool)
    ensures ok <==> forall h :: h in RequiredHeaders ==>
      h in header || (h == "packet" && key.packet.None?)
  {
    var missing := MissingAmong(RequiredHeaders, key, header);
    assert missing != [] ==> missing[0] in missing;
    missing == []
  }

  /** The errors `visit_row` logs; all of them are logged, not only the first. */
  datatype RowError =
    | EmptyField(field: string)
    | FormNameMismatch(expected: string)
    | ErrorCodePrefixMismatch(expected: string)
    | VisitTypeMissing(visitType: string)
    | PacketMismatch(expected: string)

  /** `row.get(field, '')` */
  function Get(row: Row, field: string): string {
    if field in row then row[field] else ""
  }

  /** The "cannot be empty" errors: required fields, other than the ones
      allowed to be empty, that the row holds with an empty value. */
  function EmptyFieldErrors(row: Row): set<RowError> {
    set f | f in row && row[f] == "" && f !in AllowedEmptyFields && f in RequiredHeaders :: EmptyField(f)
  }

  /** The errors of the form-name checks on `form_name` and `error_code`. */
  function FormErrors(key: ErrorCheckKey, row: Row): set<RowError> {
    (if Get(row, "form_name") != key.formName then {FormNameMismatch(key.formName)} else {})
    + (if !StartsWith(Get(row, "error_code"), key.formName) then {ErrorCodePrefixMismatch(key.formName)} else {})
  }

  /** The errors of the packet checks, made only for a key with a non-empty packet. */
  function PacketErrors(key: ErrorCheckKey, row: Row): set<RowError> {
    if key.packet.Some? && key.packet.value != "" then
      (match VisitType(key)
       case Some(visitType) =>
         if visitType != "" && !Contains(Get(row, "error_code"), visitType) then {VisitTypeMissing(visitType)} else {}
       case None => {})
      + (if Get(row, "packet") != key.packet.value then {PacketMismatch(key.packet.value)} else {})
    else {}
  }

  /** Every error `visit_row` reports for `row` under `key`. */
  function RowErrors(key: ErrorCheckKey, row: Row): set<RowError> {
    EmptyFieldErrors(row) + FormErrors(key, row) + PacketErrors(key, row)
  }

  /** `row` holds the required field `f`, which may not be empty, with an empty value. */
  predicate EmptyRequired(row: Row, f: string) {
    f in row && f in RequiredHeaders && f !in AllowedEmptyFields && row[f] == ""
  }

  /** No "cannot be empty" error iff every required field the row holds,
      apart from the ones allowed to be empty, is non-empty. */
  lemma {:induction false} EmptyFieldErrorsNone(row: Row)
    ensures EmptyFieldErrors(row) == {} <==> forall f :: !EmptyRequired(row, f)
  {
    if exists f :: EmptyRequired(row, f) {
      var f :| EmptyRequired(row, f);
      assert EmptyField(f) in EmptyFieldErrors(row);
    }
    if EmptyFieldErrors(row) != {} {
      var e :| e in EmptyFieldErrors(row);
      assert EmptyRequired(row, e.field);
    }
  }

  /** No packet error iff, for a key with a non-empty packet, the error code
      contains the visit type and the row's packet is the key's. */
  lemma {:induction false} PacketErrorsNone(key: ErrorCheckKey, row: Row)
    ensures PacketErrors(key, row) == {} <==>
      (key.packet.Some? && key.packet.value != "" ==>
         && Contains(Get(row, "error_code"), VisitType(key).value)
         && Get(row, "packet") == key.packet.value)
  {
    if key.packet.Some? && key.packet.value != "" {
      var visitType := VisitType(key).value;
      assert visitType != "";
    }
  }

  /** The rules `visit_row` checks: no required field other than
      `comp_forms` and `comp_vars` is present with an empty value; the
      `form_name` is the key's form name; the `error_code` starts with the
      key's form name; and, when the key has a non-empty packet, the
      `error_code` contains the packet's visit type and the `packet` is the
      key's packet. */
  predicate RowAccepted(key: ErrorCheckKey, row: Row) {
    && (forall f :: f in row && f in RequiredHeaders && f !in AllowedEmptyFields ==> row[f] != "")
    && Get(row, "form_name") == key.formName
    && StartsWith(Get(row, "error_code"), key.formName)
    && (key.packet.Some? && key.packet.value != "" ==>
          && Contains(Get(row, "error_code"), VisitType(key).value)
          && Get(row, "packet") == key.packet.value)
  }

  /** `visit_row` reports no error for a row iff the row passes every rule. */
  lemma {:induction false} RowAcceptedIff(key: ErrorCheckKey, row: Row)
    ensures RowErrors(key, row) == {} <==> RowAccepted(key, row)
  {
    EmptyFieldErrorsNone(row);
    PacketErrorsNone(key, row);
    if forall f :: !EmptyRequired(row, f) {
      forall f | f in row && f in RequiredHeaders && f !in AllowedEmptyFields
        ensures row[f] != ""
      {
        assert !EmptyRequired(row, f);
      }
    }
    assert RowErrors(key, row) == {} <==>
      EmptyFieldErrors(row) == {} && FormErrors(key, row) == {} && PacketErrors(key, row) == {};
  }

  /** The upload record for a row: the row restricted to the required
      headers it has. */
  function Project(row: Row): (check: ErrorCheck)
    ensures check.Keys == row.Keys * set h | h in RequiredHeaders
    ensures forall f :: f in check ==> check[f] == row[f]
  {
    map f | f in row && f in RequiredHeaders :: row[f]
  }

  /** `visit_row`: the row is accepted iff it passes the rules of
      `RowAccepted` (equivalently, no error is reported for it). An accepted
      row appends exactly its projection; a rejected row appends nothing. */
  function VisitRow(key: ErrorCheckKey, row: Row, validated: seq<ErrorCheck>): (v: Visit)
    ensures v.ok <==> RowAccepted(key, row)
    ensures v.ok ==> v.validated == validated + [Project(row)]
    ensures !v.ok ==> v.validated == validated
  {
    RowAcceptedIff(key, row);
    if RowErrors(key, row) == {} then Visit(true, validated + [Project(row)]) else Visit(false, validated)
  }

  /** What one row contributes: its projection if `accept` admits it,
      nothing otherwise. */
  function Kept(row: Row, accept: Row -> bool): seq<ErrorCheck> {
    if accept(row) then [Project(row)] else []
  }

  /** The projections of the rows `accept` admits, in row order. */
  function Collect(rows: seq<Row>, accept: Row -> bool): (checks: seq<ErrorCheck>)
    ensures |checks| <= |rows|
    decreases |rows|
  {
    if rows == [] then [] else Kept(rows[0], accept) + Collect(rows[1..], accept)
  }

  /** The records a visitor collects from `rows`: the projections of the
      accepted rows, in row order. */
  function Accepted(key: ErrorCheckKey, rows: seq<Row>): (checks: seq<ErrorCheck>)
    ensures |checks| <= |rows|
  {
    Collect(rows, AcceptFor(key))
  }

  /** `RowAccepted` under `key`, as a function value. */
  function AcceptFor(key: ErrorCheckKey): Row -> bool {
    row => RowAccepted(key, row)
  }

  /** One step of `Accepted`: the first row's record, if any, then the rest. */
  lemma {:induction false} AcceptedCons(key: ErrorCheckKey, rows: seq<Row>)
    requires rows != []
    ensures Accepted(key, rows) ==
      (if RowAccepted(key, rows[0]) then [Project(rows[0])] else []) + Accepted(key, rows[1..])
  {
    assert AcceptFor(key)(rows[0]) == RowAccepted(key, rows[0]);
    assert Kept(rows[0], AcceptFor(key)) == if RowAccepted(key, rows[0]) then [Project(rows[0])] else [];
  }

  /** The row loop of `read_csv`: every row is visited, in order, whatever
      the earlier rows gave; the result is the AND of all row results. */
  function VisitRows(key: ErrorCheckKey, rows: seq<Row>, validated: seq<ErrorCheck>): (v: Visit)
    ensures v.ok <==> forall i :: 0 <= i < |rows| ==> RowAccepted(key, rows[i])
    ensures v.validated == validated + Accepted(key, rows)
    decreases |rows|
  {
    if rows == [] then Visit(true, validated)
    else
      var first := VisitRow(key, rows[0], validated);
      var rest := VisitRows(key, rows[1..], first.validated);
      AllAcceptedCons(key, rows);
      AcceptedCons(key, rows);
      ConcatRegroup(validated, if first.ok then [Project(rows[0])] else [], Accepted(key, rows[1..]));
      Visit(first.ok && rest.ok, rest.validated)
  }

  /** Every row is accepted iff the first is and every later one is. */
  lemma {:induction false} AllAcceptedCons(key: ErrorCheckKey, rows: seq<Row>)
    requires rows != []
    ensures (forall i :: 0 <= i < |rows| ==> RowAccepted(key, rows[i])) <==>
      RowAccepted(key, rows[0]) && forall i :: 0 <= i < |rows[1..]| ==> RowAccepted(key, rows[1..][i])
  {
    assert forall i :: 1 <= i < |rows| ==> rows[i] == rows[1..][i - 1];
  }

  /** The text handed to `read_csv`, as `DictReader` sees it: empty, or a
      header row (empty when the first line has no fields) followed by the
      data rows read before the end or before a malformed line. */
  datatype CsvInput =
    | EmptyInput
    | Table(header: seq<string>, rows: seq<Row>, parseErrorAfterRows: bool)

  /** The input has a non-empty header that `visit_header` accepts. */
  predicate HeaderAccepted(key: ErrorCheckKey, input: CsvInput) {
    input.Table? && |input.header| > 0 && VisitHeader(key, input.header)
  }

  /** `read_csv`: an empty input, a missing header or a rejected header fail
      without visiting any row; otherwise every row read is visited and the
      result is true iff every row was accepted and no parse error cut the
      file short. */
  function ReadCsv(key: ErrorCheckKey, input: CsvInput, validated: seq<ErrorCheck>): (v: Visit)
    ensures !HeaderAccepted(key, input) ==> v == Visit(false, validated)
    ensures HeaderAccepted(key, input) ==> v.validated == validated + Accepted(key, input.rows)
    ensures v.ok <==>
      && HeaderAccepted(key, input)
      && !input.parseErrorAfterRows
      && forall i :: 0 <= i < |input.rows| ==> RowAccepted(key, input.rows[i])
  {
    match input
    case EmptyInput => Visit(false, validated)
    case Table(header, rows, parseError) =>
      if |header| == 0 then Visit(false, validated)
      else if !VisitHeader(key, header) then Visit(false, validated)
      else
        var visited := VisitRows(key, rows, validated);
        if parseError then Visit(false, visited.validated) else visited
  }

  lemma {:induction false} CollectAppend(a: seq<Row>, b: seq<Row>, accept: Row -> bool)
    ensures Collect(a + b, accept) == Collect(a, accept) + Collect(b, accept)
    decreases |a|
  {
    if a == [] {
      assert a + b == b;
    } else {
      assert (a + b)[0] == a[0];
      assert (a + b)[1..] == a[1..] + b;
      var head := Kept(a[0], accept);
      calc {
        Collect(a + b, accept);
        head + Collect(a[1..] + b, accept);
        { CollectAppend(a[1..], b, accept); }
        head + (Collect(a[1..], accept) + Collect(b, accept));
        { ConcatRegroup(head, Collect(a[1..], accept), Collect(b, accept)); }
        Collect(a, accept) + Collect(b, accept);
      }
    }
  }

  /** Collection respects row order: the records of a concatenation are
      those of each part, in turn. */
  lemma {:induction false} AcceptedAppend(key: ErrorCheckKey, a: seq<Row>, b: seq<Row>)
    ensures Accepted(key, a + b) == Accepted(key, a) + Accepted(key, b)
  {
    CollectAppend(a, b, AcceptFor(key));
  }

  /** A row `accept` refuses contributes nothing, wherever it stands. */
  lemma {:induction false} CollectSkipsRefused(rows: seq<Row>, accept: Row -> bool, i: int)
    requires 0 <= i < |rows| && !accept(rows[i])
    ensures Collect(rows, accept) == Collect(rows[..i], accept) + Collect(rows[i + 1..], accept)
  {
    var pre, post := rows[..i], rows[i..];
    assert rows == pre + post;
    CollectAppend(pre, post, accept);
    assert post[0] == rows[i] && post[1..] == rows[i + 1..];
    assert Collect(post, accept) == [] + Collect(rows[i + 1..], accept);
  }

  /** A rejected row does not stop collection: the rows after it contribute
      exactly as they would without it. */
  lemma {:induction false} RejectedRowDoesNotStopReading(key: ErrorCheckKey, rows: seq<Row>, i: int)
    requires 0 <= i < |rows| && !RowAccepted(key, rows[i])
    ensures Accepted(key, rows) == Accepted(key, rows[..i]) + Accepted(key, rows[i + 1..])
  {
    assert !AcceptFor(key)(rows[i]);
    CollectSkipsRefused(rows, AcceptFor(key), i);
  }

  /** When every row is accepted, the visitor collects one record per row,
      each the projection of the row at the same position. */
  lemma {:induction false} AllAcceptedKeepsEveryRow(key: ErrorCheckKey, rows: seq<Row>)
    requires forall i :: 0 <= i < |rows| ==> RowAccepted(key, rows[i])
    ensures |Accepted(key, rows)| == |rows|
    ensures forall i :: 0 <= i < |rows| ==> Accepted(key, rows)[i] == Project(rows[i])
    decreases |rows|
  {
    if rows != [] {
      var tail := rows[1..];
      assert forall i :: 0 <= i < |tail| ==> tail[i] == rows[i + 1];
      AllAcceptedKeepsEveryRow(key, tail);
      AcceptedCons(key, rows);
      var all := Accepted(key, rows);
      assert all == [Project(rows[0])] + Accepted(key, tail);
      forall i | 0 <= i < |rows|
        ensures all[i] == Project(rows[i])
      {
        if i > 0 {
          assert all[i] == Accepted(key, tail)[i - 1];
        }
      }
    }
  }

  /** The projection of a row holding every required column, plus any
      extra columns, has exactly the required columns, with the row's
      values; projecting again changes nothing. */
  lemma {:induction false} ProjectionDropsExtras(row: Row)
    requires forall h :: h in RequiredHeaders ==> h in row
    ensures Project(row).Keys == set h | h in RequiredHeaders
    ensures forall h :: h in RequiredHeaders ==> Project(row)[h] == row[h]
    ensures Project(Project(row)) == Project(row)
  {
  }

  /** A row whose `error_code` is empty is rejected, whatever else it holds;
      in particular a row with every required field empty is. */
  lemma {:induction false} EmptyErrorCodeRejected(key: ErrorCheckKey, row: Row)
    requires "error_code" in row && row["error_code"] == ""
    ensures !RowAccepted(key, row)
    ensures VisitRow(key, row, []) == Visit(false, [])
  {
    assert "error_code" in RequiredHeaders && "error_code" !in AllowedEmptyFields;
    assert EmptyField("error_code") in RowErrors(key, row);
  }

  /** A key with an empty packet is not excused from the `packet` header,
      although `visit_row` then skips every packet check. */
  lemma {:induction false} EmptyPacketNotExcused(key: ErrorCheckKey, header: seq<string>, row: Row)
    requires key.packet == Some("")
    ensures VisitHeader(key, header) ==> "packet" in header
    ensures VisitType(key).None?
    ensures RowAccepted(key, row) <==>
      && (forall f :: f in row && f in RequiredHeaders && f !in AllowedEmptyFields ==> row[f] != "")
      && Get(row, "form_name") == key.formName
      && StartsWith(Get(row, "error_code"), key.formName)
  {
    assert "packet" in RequiredHeaders;
    var v := VisitRow(key, row, []);
  }
}
