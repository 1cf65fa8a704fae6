/**
 * The profit export: every distribution, latest declared date first, as CSV text.
 * A fixed header line comes first; each record is one line of eight fields joined by
 * commas, with no quoting; every line, the header included, ends in a newline.
 *
 * How a decimal and a date print inside a template literal is a parameter, `Format`;
 * ids and counts print as decimal digits.
 */
module Export {
  import opened Wrappers
  import opened Text
  import opened Records
  import opened History

  const HeaderFields: seq<string> := ["Distribution ID", "Declared Date", "Declared Profit", "Percent",
                                      "Investment Pool", "Total Distributed", "Recipients", "Created By"]

  /** The header line without its newline: the column names joined by commas. */
  const Header := Join(HeaderFields, ',')

  /** How a decimal column and a date column print in a template literal. */
  datatype Format = Format(decimal: real -> string, date: nat -> string)

  /**
   * `createdBy?.email` in a template literal: `"undefined"` when the creator row does
   * not exist, `"null"` when it has no e-mail, the e-mail otherwise.
   */
  function CreatorEmail(l: Ledger, d: Distribution): (r: string)
    ensures FindUser(l.users, d.createdById).None? ==> r == "undefined"
    ensures FindUser(l.users, d.createdById).Some? ==>
              r == l.users[FindUser(l.users, d.createdById).value].email.GetOr("null")
  {
    match FindUser(l.users, d.createdById)
    case None => "undefined"
    case Some(i) => l.users[i].email.GetOr("null")
  }

  /** The eight fields of one record, in header order. */
  function RowFields(l: Ledger, f: Format, d: Distribution): (r: seq<string>)
    ensures |r| == |HeaderFields|
  {
    [NatToString(d.id), f.date(d.declaredDate), f.decimal(d.declaredProfit), f.decimal(d.distributionPercent),
     f.decimal(d.investmentPool), f.decimal(d.totalDistributed), NatToString(d.recipientsCount), CreatorEmail(l, d)]
  }

  function Row(l: Ledger, f: Format, d: Distribution): string {
    Join(RowFields(l, f, d), ',')
  }

  /** One line per distribution, in the history ordering. */
  function Rows(l: Ledger, f: Format): (r: seq<string>)
    ensures |r| == |l.distributions|
    ensures forall k :: 0 <= k < |r| ==> r[k] == Row(l, f, ByDateDescending(l.distributions)[k])
  {
    var s := ByDateDescending(l.distributions);
    seq(|s|, k requires 0 <= k < |s| => Row(l, f, s[k]))
  }

  /** `GET /admin/profit/export`: the header line, then a line per record. Nothing is written. */
  function ExportCsv(l: Ledger, f: Format): (r: string)
    ensures |r| > |Header| && r[..|Header| + 1] == Header + "\n"
    ensures r[|r| - 1] == '\n'
  {
    assert Lines(l, f)[1..] == Rows(l, f);
    Terminated(Lines(l, f), '\n')
  }

  function Lines(l: Ledger, f: Format): seq<string> {
    [Header] + Rows(l, f)
  }

  /** No comma and no line break: text that stays one CSV field. */
  predicate Plain(s: string) {
    ',' !in s && '\n' !in s
  }

  /** Every decimal and every date prints as plain text. */
  ghost predicate FormatPlain(f: Format) {
    && (forall x :: Plain(f.decimal(x)))
    && (forall n :: Plain(f.date(n)))
  }

  /** Every stored e-mail is plain text. */
  ghost predicate EmailsPlain(l: Ledger) {
    forall k :: 0 <= k < |l.users| && l.users[k].email.Some? ==> Plain(l.users[k].email.value)
  }

  /** The header reads back as the eight column names, and is one line. */
  lemma HeaderIsTheColumns()
    ensures Split(Header, ',') == HeaderFields
    ensures '\n' !in Header
  {
    forall k | 0 <= k < |HeaderFields| ensures ',' !in HeaderFields[k] && '\n' !in HeaderFields[k] {
    }
    SplitJoin(HeaderFields, ',');
    JoinAvoids(HeaderFields, ',', '\n');
  }

  lemma RowFieldsArePlain(l: Ledger, f: Format, d: Distribution)
    requires FormatPlain(f) && EmailsPlain(l)
    ensures forall k :: 0 <= k < |RowFields(l, f, d)| ==> Plain(RowFields(l, f, d)[k])
  {
    var fs := RowFields(l, f, d);
    assert Plain(fs[0]) && Plain(fs[6]);
    assert Plain(fs[7]) by {
      match FindUser(l.users, d.createdById)
      case None =>
      case Some(i) =>
        if l.users[i].email.Some? {
          assert Plain(l.users[i].email.value);
        }
    }
  }

  /** A record's line holds no newline and splits back into its eight fields. */
  lemma RowReadsBack(l: Ledger, f: Format, d: Distribution)
    requires FormatPlain(f) && EmailsPlain(l)
    ensures '\n' !in Row(l, f, d)
    ensures Split(Row(l, f, d), ',') == RowFields(l, f, d)
  {
    RowFieldsArePlain(l, f, d);
    JoinAvoids(RowFields(l, f, d), ',', '\n');
    SplitJoin(RowFields(l, f, d), ',');
  }

  lemma LinesAreLines(l: Ledger, f: Format)
    requires FormatPlain(f) && EmailsPlain(l)
    ensures forall k :: 0 <= k < |Lines(l, f)| ==> '\n' !in Lines(l, f)[k]
  {
    var s := ByDateDescending(l.distributions);
    var all := Lines(l, f);
    HeaderIsTheColumns();
    forall k | 0 <= k < |all| ensures '\n' !in all[k] {
      if k > 0 {
        assert all[k] == Row(l, f, s[k - 1]);
        RowReadsBack(l, f, s[k - 1]);
      }
    }
  }

  /**
   * With plain fields the export reads back line by line and field by field: a
   * header line, one line per record holding exactly that record's eight fields in
   * the history ordering, and the empty text after the last newline.
   */
  lemma ExportReadsBack(l: Ledger, f: Format)
    requires FormatPlain(f) && EmailsPlain(l)
    ensures var lines := Split(ExportCsv(l, f), '\n');
      var s := ByDateDescending(l.distributions);
      && |lines| == |l.distributions| + 2
      && lines[0] == Header
      && lines[|lines| - 1] == ""
      && forall k :: 0 <= k < |s| ==> Split(lines[k + 1], ',') == RowFields(l, f, s[k])
  {
    var s := ByDateDescending(l.distributions);
    LinesAreLines(l, f);
    SplitTerminated(Lines(l, f), '\n');
    var lines := Split(ExportCsv(l, f), '\n');
    assert lines == Lines(l, f) + [""];
    forall k | 0 <= k < |s| ensures Split(lines[k + 1], ',') == RowFields(l, f, s[k]) {
      assert lines[k + 1] == Row(l, f, s[k]);
      RowReadsBack(l, f, s[k]);
    }
  }

  /** The first field of a record's line reads back as the record's id. */
  lemma ExportIdsReadBack(l: Ledger, f: Format, k: nat)
    requires FormatPlain(f) && EmailsPlain(l)
    requires k < |l.distributions|
    ensures |Split(ExportCsv(l, f), '\n')| == |l.distributions| + 2
    ensures var line := Split(ExportCsv(l, f), '\n')[k + 1];
      && (forall j :: 0 <= j < |Split(line, ',')[0]| ==> IsDigit(Split(line, ',')[0][j]))
      && DigitsValue(Split(line, ',')[0]) == ByDateDescending(l.distributions)[k].id
  {
    var s := ByDateDescending(l.distributions);
    var d := s[k];
    LinesAreLines(l, f);
    SplitTerminated(Lines(l, f), '\n');
    var lines := Split(ExportCsv(l, f), '\n');
    assert lines == Lines(l, f) + [""];
    assert lines[k + 1] == Row(l, f, d);
    RowReadsBack(l, f, d);
    assert Split(lines[k + 1], ',')[0] == NatToString(d.id);
    NatToStringRoundTrip(d.id);
  }

  /**
   * Fields are not quoted: a creator e-mail holding one comma splits its line into
   * nine pieces instead of eight.
   */
  lemma CommaInEmailAddsAColumn(l: Ledger, f: Format, d: Distribution, a: string, b: string)
    requires FormatPlain(f)
    requires Plain(a) && Plain(b)
    requires FindUser(l.users, d.createdById).Some?
    requires l.users[FindUser(l.users, d.createdById).value].email == Some(a + "," + b)
    ensures |Split(Row(l, f, d), ',')| == |HeaderFields| + 1
  {
    var fs := RowFields(l, f, d);
    var gs := fs[..7] + [a, b];
    assert forall k :: 0 <= k < 7 ==> Plain(fs[k]);
    assert Join(fs, ',') == Join(gs, ',') by {
      JoinLast(fs[..7], a + "," + b);
      assert fs == fs[..7] + [a + "," + b];
      JoinLast(fs[..7] + [a], b);
      assert gs == (fs[..7] + [a]) + [b];
      JoinLast(fs[..7], a);
    }
    SplitJoin(gs, ',');
  }

  /** Joining one more field appends a separator and the field. */
  lemma {:induction false} JoinLast(fields: seq<string>, x: string)
    requires |fields| > 0
    ensures Join(fields + [x], ',') == Join(fields, ',') + "," + x
    decreases |fields|
  {
    if |fields| > 1 {
      JoinLast(fields[1..], x);
      assert (fields + [x])[1..] == fields[1..] + [x];
    }
  }
}
