/**
 The transactions file (src/orchestrator/persist/csv.rs, src/orchestrator/persist/transactions.rs)
 and a strict reader for it: section 2, rules 5 to 7, of RFC 4180, with a line feed as row end.
 */
module Csv {
  import opened Wrappers

  // ---------------------------------------------------------------- writing

  predicate NeedsQuotes(field: string) {
    exists i :: 0 <= i < |field| && Special(field[i])
  }

  predicate Special(c: char) {
    c == '"' || c == ',' || c == '\n' || c == '\r'
  }

  /** Every quote doubled. */
  function Doubled(field: string): string {
    if field == "" then "" else Doubled(field[..|field| - 1]) + Twice(field[|field| - 1])
  }

  function Twice(c: char): string {
    if c == '"' then "\"\"" else [c]
  }

  function EscapeField(field: string): string {
    if NeedsQuotes(field) then "\"" + Doubled(field) + "\"" else field
  }

  /** Quotes are put around a field exactly when it holds a quote, a comma or the end of a line. */
  lemma OnlySpecialFieldsAreQuoted(field: string)
    ensures EscapeField(field) == field <==> '"' !in field && ',' !in field && '\n' !in field && '\r' !in field
  {
    if NeedsQuotes(field) {
      DoubledIsNoShorter(field);
      assert |EscapeField(field)| > |field|;
      var i :| 0 <= i < |field| && Special(field[i]);
      assert field[i] in field;
    }
  }

  lemma {:induction false} DoubledIsNoShorter(field: string)
    ensures |Doubled(field)| >= |field|
  {
    if field != "" {
      DoubledIsNoShorter(field[..|field| - 1]);
    }
  }

  /** The escaped fields, joined by commas. */
  function RowText(fields: seq<string>): string {
    if fields == [] then ""
    else if |fields| == 1 then EscapeField(fields[0])
    else RowText(fields[..|fields| - 1]) + "," + EscapeField(fields[|fields| - 1])
  }

  function Line(fields: seq<string>): string {
    RowText(fields) + "\n"
  }

  function FileText(rows: seq<seq<string>>): string {
    if rows == [] then "" else FileText(rows[..|rows| - 1]) + Line(rows[|rows| - 1])
  }

  // ---------------------------------------------------------------- reading

  /** Where the reader is within a field. */
  datatype Mode =
    | FieldStart
    | Plain      // in a field without quotes
    | Quoted     // between quotes
    | QuoteSeen  // after a quote inside quotes: the end of the field, or half of a doubled quote

  datatype Reader = Reader(rows: seq<seq<string>>, row: seq<string>, field: string, mode: Mode) | Malformed

  function EndField(r: Reader, c: char): Reader
    requires r.Reader?
  {
    if c == ',' then Reader(r.rows, r.row + [r.field], "", FieldStart)
    else Reader(r.rows + [r.row + [r.field]], [], "", FieldStart)
  }

  function Feed(r: Reader, c: char): Reader {
    if r == Malformed then Malformed
    else if r.mode == Quoted then
      if c == '"' then r.(mode := QuoteSeen) else r.(field := r.field + [c])
    else if c == ',' || c == '\n' then EndField(r, c)
    else if c == '"' then
      if r.mode == FieldStart then r.(mode := Quoted)
      else if r.mode == QuoteSeen then r.(field := r.field + [c], mode := Quoted)
      else Malformed
    else if c == '\r' || r.mode == QuoteSeen then Malformed
    else r.(field := r.field + [c], mode := Plain)
  }

  function FeedAll(r: Reader, text: string): Reader {
    if text == "" then r else Feed(FeedAll(r, text[..|text| - 1]), text[|text| - 1])
  }

  /** The rows of a file, unless it is malformed or ends within a row. */
  function Read(text: string): Option<seq<seq<string>>> {
    var r := FeedAll(Reader([], [], "", FieldStart), text);
    if r.Reader? && r.row == [] && r.mode == FieldStart then Some(r.rows) else None
  }

  // ---------------------------------------------------------------- the round trip

  lemma {:induction false} FeedConcat(r: Reader, s: string, t: string)
    ensures FeedAll(r, s + t) == FeedAll(FeedAll(r, s), t)
  {
    hide Feed;
    if t == "" {
      assert s + t == s;
    } else {
      assert (s + t)[..|s + t| - 1] == s + t[..|t| - 1];
      FeedConcat(r, s, t[..|t| - 1]);
    }
  }

  lemma {:induction false} FeedPlain(rows: seq<seq<string>>, row: seq<string>, field: string)
    requires !NeedsQuotes(field)
    ensures FeedAll(Reader(rows, row, "", FieldStart), field) == Reader(rows, row, field, if field == "" then FieldStart else Plain)
  {
    hide Feed, NeedsQuotes;
    if field != "" {
      var init, last := field[..|field| - 1], field[|field| - 1];
      PlainEnding(field);
      FeedPlain(rows, row, init);
      FeedPlainChar(rows, row, init, last);
      assert init + [last] == field;
    }
  }

  lemma PlainEnding(field: string)
    requires field != "" && !NeedsQuotes(field)
    ensures !Special(field[|field| - 1]) && !NeedsQuotes(field[..|field| - 1])
  {
  }

  lemma FeedPlainChar(rows: seq<seq<string>>, row: seq<string>, field: string, c: char)
    requires !Special(c)
    ensures Feed(Reader(rows, row, field, if field == "" then FieldStart else Plain), c) == Reader(rows, row, field + [c], Plain)
  {
  }

  lemma {:induction false} FeedDoubled(rows: seq<seq<string>>, row: seq<string>, field: string)
    ensures FeedAll(Reader(rows, row, "", Quoted), Doubled(field)) == Reader(rows, row, field, Quoted)
  {
    hide FeedAll, Twice;
    var r := Reader(rows, row, "", Quoted);
    if field == "" {
      FeedNothing(r);
    } else {
      var init, last := field[..|field| - 1], field[|field| - 1];
      FeedDoubled(rows, row, init);
      assert Doubled(field) == Doubled(init) + Twice(last);
      hide Doubled;
      FeedConcat(r, Doubled(init), Twice(last));
      FeedTwice(Reader(rows, row, init, Quoted), last);
      assert init + [last] == field;
    }
  }

  lemma FeedNothing(r: Reader)
    ensures FeedAll(r, "") == r
  {
  }

  lemma FeedTwice(r: Reader, c: char)
    requires r.Reader? && r.mode == Quoted
    ensures FeedAll(r, Twice(c)) == r.(field := r.field + [c])
  {
    if c == '"' {
      assert Twice(c) == ['"', '"'];
      FeedTwo(r, '"', '"');
    } else {
      FeedOne(r, c);
    }
  }

  lemma FeedOne(r: Reader, c: char)
    ensures FeedAll(r, [c]) == Feed(r, c)
  {
    assert [c][..0] == "";
  }

  lemma FeedTwo(r: Reader, c: char, d: char)
    ensures FeedAll(r, [c, d]) == Feed(Feed(r, c), d)
  {
    assert [c, d][..1] == [c];
    FeedOne(r, c);
  }

  /** The field has been read whole; a comma or a row end is all that may follow. */
  ghost predicate Complete(r: Reader, rows: seq<seq<string>>, row: seq<string>, field: string) {
    r.Reader? && r.rows == rows && r.row == row && r.field == field && r.mode != Quoted
  }

  lemma FeedEscaped(rows: seq<seq<string>>, row: seq<string>, field: string)
    ensures Complete(FeedAll(Reader(rows, row, "", FieldStart), EscapeField(field)), rows, row, field)
  {
    hide Doubled, FeedAll;
    var r := Reader(rows, row, "", FieldStart);
    if NeedsQuotes(field) {
      FeedOne(r, '"');
      FeedConcat(r, "\"", Doubled(field));
      FeedDoubled(rows, row, field);
      FeedConcat(r, "\"" + Doubled(field), "\"");
      FeedOne(Reader(rows, row, field, Quoted), '"');
    } else {
      FeedPlain(rows, row, field);
    }
  }

  lemma RowTextLast(fields: seq<string>)
    requires |fields| > 1
    ensures RowText(fields) == RowText(fields[..|fields| - 1]) + "," + EscapeField(fields[|fields| - 1])
  {
  }

  lemma {:induction false} FeedRow(rows: seq<seq<string>>, fields: seq<string>)
    requires fields != []
    ensures var r := FeedAll(Reader(rows, [], "", FieldStart), RowText(fields));
            Complete(r, rows, fields[..|fields| - 1], fields[|fields| - 1])
  {
    var r := Reader(rows, [], "", FieldStart);
    var init, last := fields[..|fields| - 1], fields[|fields| - 1];
    if |fields| == 1 {
      FeedEscaped(rows, [], last);
      assert init == [];
    } else {
      hide EscapeField, FeedAll;
      FeedRow(rows, init);
      var done := FeedAll(r, RowText(init));
      assert Feed(done, ',') == Reader(rows, init, "", FieldStart) by {
        assert init[..|init| - 1] + [init[|init| - 1]] == init;
      }
      FeedOne(done, ',');
      FeedEscaped(rows, init, last);
      hide RowText, Feed;
      FeedConcat(r, RowText(init), ",");
      FeedConcat(r, RowText(init) + ",", EscapeField(last));
      RowTextLast(fields);
    }
  }

  /** What a row reads as: a row without fields looks like one empty field. */
  function AsRead(fields: seq<string>): seq<string> {
    if fields == [] then [""] else fields
  }

  function AllAsRead(rows: seq<seq<string>>): seq<seq<string>> {
    seq(|rows|, i requires 0 <= i < |rows| => AsRead(rows[i]))
  }

  lemma FeedLine(rows: seq<seq<string>>, fields: seq<string>)
    ensures FeedAll(Reader(rows, [], "", FieldStart), Line(fields)) == Reader(rows + [AsRead(fields)], [], "", FieldStart)
  {
    hide FeedAll;
    var r := Reader(rows, [], "", FieldStart);
    FeedConcat(r, RowText(fields), "\n");
    var done := FeedAll(r, RowText(fields));
    FeedOne(done, '\n');
    if fields != [] {
      FeedRow(rows, fields);
      hide RowText;
      assert fields[..|fields| - 1] + [fields[|fields| - 1]] == fields;
    } else {
      FeedNothing(r);
      assert [] + [""] == [""];
    }
  }

  lemma {:induction false} FeedFile(rows: seq<seq<string>>)
    ensures FeedAll(Reader([], [], "", FieldStart), FileText(rows)) == Reader(AllAsRead(rows), [], "", FieldStart)
  {
    hide FeedAll, Line, AsRead;
    var r := Reader([], [], "", FieldStart);
    if rows == [] {
      FeedNothing(r);
    } else {
      var init, last := rows[..|rows| - 1], rows[|rows| - 1];
      FeedFile(init);
      assert FileText(rows) == FileText(init) + Line(last);
      hide FileText;
      FeedConcat(r, FileText(init), Line(last));
      FeedLine(AllAsRead(init), last);
      assert AllAsRead(init) + [AsRead(last)] == AllAsRead(rows);
    }
  }

  /** Reading back what was written gives the rows again exactly when every row has a field. */
  lemma RowsRoundTrip(rows: seq<seq<string>>)
    ensures Read(FileText(rows)) == Some(rows) <==> forall i :: 0 <= i < |rows| ==> rows[i] != []
  {
    FeedFile(rows);
    if forall i :: 0 <= i < |rows| ==> rows[i] != [] {
      assert AllAsRead(rows) == rows;
    } else {
      var i :| 0 <= i < |rows| && rows[i] == [];
      assert AllAsRead(rows)[i] == [""];
    }
  }

  /** No two files of rows with fields look the same. */
  lemma RowsAreUnambiguous(rows: seq<seq<string>>, others: seq<seq<string>>)
    requires FileText(rows) == FileText(others)
    requires (forall i :: 0 <= i < |rows| ==> rows[i] != []) && (forall i :: 0 <= i < |others| ==> others[i] != [])
    ensures rows == others
  {
    RowsRoundTrip(rows);
    RowsRoundTrip(others);
  }

  // ---------------------------------------------------------------- the persister

  datatype Verdict = Success | Failed | Timeout

  /** A transaction as it is printed; every text field stands for a rendered value. */
  datatype Transaction =
    | Sent(target: string, start: string, send: string, generator: string, user: string, spec: string,
           response: string, service: string, verdict: Verdict, code: string)
    | Dropped(target: string, start: string, generator: string, takenBy: Option<string>, response: string, code: string)

  const HEADER: seq<string> := [
    "target_time", "start_time", "send_time", "load_generator_id", "virtual_user_id",
    "spec_id", "response_time_ms", "service_time_ms", "outcome", "reason"]

  function RowOf(t: Transaction): (row: seq<string>)
    ensures |row| == |HEADER|
  {
    match t
    case Sent(target, start, send, generator, user, spec, response, service, verdict, code) =>
      var (outcome, reason) :=
        match verdict
        case Success => ("success", "")
        case Failed => ("failed", code)
        case Timeout => ("timeout", code);
      [target, start, send, generator, user, spec, response, service, outcome, reason]
    case Dropped(target, start, generator, takenBy, response, code) =>
      [target, start, "", generator, if takenBy.Some? then takenBy.value else "", "", response, "", "dropped", code]
  }

  /** What a column of the file is to hold for a transaction. */
  function Column(t: Transaction, name: string): string {
    if name == "target_time" then t.target
    else if name == "start_time" then t.start
    else if name == "send_time" then if t.Sent? then t.send else ""
    else if name == "load_generator_id" then t.generator
    else if name == "virtual_user_id" then if t.Sent? then t.user else if t.takenBy.Some? then t.takenBy.value else ""
    else if name == "spec_id" then if t.Sent? then t.spec else ""
    else if name == "response_time_ms" then t.response
    else if name == "service_time_ms" then if t.Sent? then t.service else ""
    else if name == "outcome" then
      if t.Dropped? then "dropped" else if t.verdict.Success? then "success" else if t.verdict.Failed? then "failed" else "timeout"
    else if t.Sent? && t.verdict.Success? then "" else t.code
  }

  /** Every field of a row stands under its name in the header. */
  lemma FieldsStandUnderTheirNames(t: Transaction, i: nat)
    requires i < |HEADER|
    ensures RowOf(t)[i] == Column(t, HEADER[i])
  {
    assert "spec_id"[0] != "outcome"[0] && "virtual_user_id"[0] != "service_time_ms"[0];
  }

  /** Two transactions with the same row agree on everything that is printed. */
  lemma RowsTellTransactionsApart(t: Transaction, u: Transaction)
    requires RowOf(t) == RowOf(u)
    ensures t.Sent? == u.Sent? && t.target == u.target && t.start == u.start && t.generator == u.generator && t.response == u.response
    ensures t.Sent? ==> t.send == u.send && t.user == u.user && t.spec == u.spec && t.service == u.service && t.verdict == u.verdict
    ensures t.Sent? && t.verdict != Verdict.Success ==> t.code == u.code
    ensures t.Dropped? ==> t.code == u.code
    ensures t.Dropped? && t.takenBy != Some("") && u.takenBy != Some("") ==> t.takenBy == u.takenBy
  {
    var outcome := RowOf(t)[8];
    assert "success"[0] == 's' && "failed"[0] == 'f' && "timeout"[0] == 't' && "dropped"[0] == 'd';
    assert RowOf(u)[8] == outcome;
    assert forall i :: 0 <= i < 10 ==> RowOf(t)[i] == RowOf(u)[i];
  }

  lemma FileTextLast(rows: seq<seq<string>>, row: seq<string>)
    ensures FileText(rows + [row]) == FileText(rows) + Line(row)
  {
    assert (rows + [row])[..|rows|] == rows;
  }

  class TransactionCsvPersister {
    var output: string
    ghost var written: seq<Transaction>

    ghost function Rows(): seq<seq<string>>
      reads this
    {
      [HEADER] + seq(|written|, i requires 0 <= i < |written| reads this => RowOf(written[i]))
    }

    /** What is in the file reads back as the header and one row for each transaction so far. */
    ghost predicate Valid()
      reads this
    {
      output == FileText(Rows())
    }

    constructor ()
      ensures Valid() && written == [] && Read(output) == Some([HEADER])
    {
      output := Line(HEADER);
      written := [];
      new;
      assert Rows() == [HEADER];
      assert [HEADER][..0] == [];
      RowsRoundTrip([HEADER]);
    }

    method Persist(results: seq<Transaction>)
      requires Valid()
      modifies this
      ensures Valid() && written == old(written) + results
      ensures output == FileText(Rows()) && Read(output) == Some(Rows())
    {
      hide RowOf, Line, Read;
      for i := 0 to |results|
        invariant Valid() && written == old(written) + results[..i]
      {
        ghost var before := Rows();
        output := output + Line(RowOf(results[i]));
        written := written + [results[i]];
        assert Rows() == before + [RowOf(results[i])];
        FileTextLast(before, RowOf(results[i]));
      }
      RowsRoundTrip(Rows());
    }
  }
}
