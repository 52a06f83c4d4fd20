/** The row logic of `import-csv` and `export-csv` (nmba/cli.py). A row is
    the map csv.DictReader yields, header name to cell text; a key that is
    absent stands for a column the header lacks or a cell a short row leaves
    empty (DictReader's None), since the commands treat both alike. Number
    parsing (Python's `int` and `float`) is a parameter: a partial function
    from text to a value. */
module CsvRows {
  import opened Models
  import Format
  import Table

  type Row = map<string, string>

  /** Python's `int(...)` on a cell, and `float(...)` read as a whole number of cents. */
  datatype NumberParsers = NumberParsers(parseInt: string -> Option<int>, parseAmount: string -> Option<int>)

  /** The columns an import needs. */
  const RequiredColumns: set<string> := {"name", "recipient", "due_day", "amount"}

  /** The header an export writes. */
  const ExportHeader: seq<string> := ["name", "recipient", "due_day", "amount", "paid"]

  /** The cell texts that import as paid, after stripping and lower-casing. */
  const TruthyWords: set<string> := {"true", "1", "yes"}

  // ---------------------------------------------------------------------
  // Text helpers: str.strip() and str.lower()

  /** Python's `str.isspace` for a single character. */
  predicate IsSpace(c: char)
  {
    var n := c as int;
    n == 32 || 9 <= n <= 13 || 28 <= n <= 31 || n == 0x85 || n == 0xA0 || n == 0x1680
    || 0x2000 <= n <= 0x200A || n == 0x2028 || n == 0x2029 || n == 0x202F || n == 0x205F || n == 0x3000
  }

  /** Neither starts nor ends with whitespace. */
  predicate Trimmed(s: string)
  {
    s == [] || (!IsSpace(s[0]) && !IsSpace(s[|s| - 1]))
  }

  /** `s` without its leading whitespace. */
  function TrimStart(s: string): (r: string)
    ensures |r| <= |s|
    ensures r == [] || !IsSpace(r[0])
  {
    if |s| > 0 && IsSpace(s[0]) then TrimStart(s[1..]) else s
  }

  /** `TrimStart` removes exactly the leading whitespace: what it keeps is
      the rest of the text after a prefix made only of whitespace. */
  lemma {:induction false} TrimStartDropsSpace(s: string)
    ensures var r := TrimStart(s);
      r == s[|s| - |r|..] && forall i :: 0 <= i < |s| - |r| ==> IsSpace(s[i])
  {
    if |s| > 0 && IsSpace(s[0]) {
      var r := TrimStart(s[1..]);
      TrimStartDropsSpace(s[1..]);
      assert TrimStart(s) == r;
      assert s[1..][|s| - 1 - |r|..] == s[|s| - |r|..];
      forall i | 0 <= i < |s| - |r| ensures IsSpace(s[i]) {
        if i > 0 {
          assert s[i] == s[1..][i - 1];
        }
      }
    }
  }

  /** `s` without its trailing whitespace. */
  function TrimEnd(s: string): (r: string)
    ensures |r| <= |s| && r == s[..|r|]
    ensures forall i :: |r| <= i < |s| ==> IsSpace(s[i])
    ensures r == [] || !IsSpace(r[|r| - 1])
  {
    if |s| > 0 && IsSpace(s[|s| - 1]) then TrimEnd(s[..|s| - 1]) else s
  }

  /** `str.strip()`. */
  function Strip(s: string): (r: string)
    ensures Trimmed(r)
    ensures |r| <= |s|
  {
    var front := TrimStart(s);
    var r := TrimEnd(front);
    assert r != [] ==> r[0] == front[0];
    r
  }

  /** A piece cut from the front of the suffix `s[i..]`, followed there only
      by whitespace, is followed by only whitespace in `s` too. */
  lemma TrailingSpace(s: string, i: nat, r: string)
    requires i <= |s| && |r| <= |s| - i && r == s[i..][..|r|]
    requires forall j :: |r| <= j < |s| - i ==> IsSpace(s[i..][j])
    ensures forall k :: i + |r| <= k < |s| ==> IsSpace(s[k])
  {
    forall k | i + |r| <= k < |s| ensures IsSpace(s[k]) {
      assert s[k] == s[i..][k - i];
    }
  }

  /** `str.strip()` removes only whitespace: the result is a contiguous piece
      of the text, and everything before and after it is whitespace. */
  lemma StripRemovesOnlySpace(s: string)
    ensures var r := Strip(s);
      exists i :: 0 <= i <= |s| - |r| && r == s[i..][..|r|]
        && (forall k :: 0 <= k < i ==> IsSpace(s[k]))
        && (forall k :: i + |r| <= k < |s| ==> IsSpace(s[k]))
  {
    var front := TrimStart(s);
    var r := TrimEnd(front);
    assert Strip(s) == r;
    var i := |s| - |front|;
    TrimStartDropsSpace(s);
    assert front == s[i..];
    TrailingSpace(s, i, r);
  }

  /** Stripping leaves a text alone exactly when it has no surrounding whitespace. */
  lemma StripIdentity(s: string)
    ensures Strip(s) == s <==> Trimmed(s)
  {
    if Trimmed(s) && s != [] {
      assert TrimStart(s) == s;
      assert TrimEnd(s) == s;
    }
  }

  /** `str.lower()` on ASCII letters; every other character is kept. */
  function Lower(s: string): (r: string)
    ensures |r| == |s|
    ensures forall i :: 0 <= i < |r| ==> !('A' <= r[i] <= 'Z')
    ensures forall i :: 0 <= i < |s| && !('A' <= s[i] <= 'Z') ==> r[i] == s[i]
    ensures forall i :: 0 <= i < |s| && 'A' <= s[i] <= 'Z' ==>
      'a' <= r[i] <= 'z' && r[i] as int - 'a' as int == s[i] as int - 'A' as int
  {
    seq(|s|, i requires 0 <= i < |s| => if 'A' <= s[i] <= 'Z' then (s[i] as int + 32) as char else s[i])
  }

  // ---------------------------------------------------------------------
  // Import

  /** `str(row.get("paid", "")).strip().lower() in {"true", "1", "yes"}`. */
  predicate IsTruthy(cell: string)
    ensures Strip(cell) == [] ==> !IsTruthy(cell)
  {
    Lower(Strip(cell)) in TruthyWords
  }

  /** `str(bool(paid))`, the export encoding of the flag. */
  function PaidCell(paid: bool): (cell: string)
    ensures Trimmed(cell)
  {
    if paid then "True" else "False"
  }

  /** The export encoding has no surrounding whitespace to strip. */
  lemma PaidCellStripped(paid: bool)
    ensures Strip(PaidCell(paid)) == PaidCell(paid)
  {
    StripIdentity(PaidCell(paid));
  }

  /** The exported flag imports as the same flag. */
  lemma PaidRoundTrip(paid: bool)
    ensures IsTruthy(PaidCell(paid)) == paid
  {
    PaidCellStripped(paid);
    if paid {
      assert Lower("True") == "true";
    } else {
      assert Lower("False") == "false";
      assert "false" !in TruthyWords;
    }
  }

  /** Required columns the header lacks: `required - set(reader.fieldnames or [])`. */
  function MissingColumns(header: seq<string>): (m: set<string>)
    ensures m <= RequiredColumns
    ensures forall c :: c in RequiredColumns ==> (c in m <==> c !in header)
  {
    RequiredColumns - set c | c in header
  }

  /** The bill one data row yields, or None when the row is skipped: a
      required cell is absent, or `due_day` or `amount` does not parse. */
  function ParseRow(row: Row, p: NumberParsers): (r: Option<BillCreate>)
    ensures r.Some? <==>
      && "name" in row && "recipient" in row && "due_day" in row && "amount" in row
      && p.parseInt(row["due_day"]).Some? && p.parseAmount(row["amount"]).Some?
    ensures r.Some? ==> r.value == BillCreate(Strip(row["name"]), Strip(row["recipient"]),
      p.parseInt(row["due_day"]).value, p.parseAmount(row["amount"]).value,
      IsTruthy(if "paid" in row then row["paid"] else ""))
  {
    if "name" !in row || "recipient" !in row || "due_day" !in row || "amount" !in row then None
    else
      var name := Strip(row["name"]);
      var recipient := Strip(row["recipient"]);
      match p.parseInt(row["due_day"])
      case None => None
      case Some(dueDay) =>
        match p.parseAmount(row["amount"])
        case None => None
        case Some(amount) =>
          var paid := IsTruthy(if "paid" in row then row["paid"] else "");
          Some(BillCreate(name, recipient, dueDay, amount, paid))
  }

  /** The bills an import adds, in row order: one per row that parses. */
  function Imported(rows: seq<Row>, p: NumberParsers): (r: seq<BillCreate>)
    ensures |r| <= |rows|
  {
    if rows == [] then []
    else
      Imported(rows[..|rows| - 1], p)
      + match ParseRow(rows[|rows| - 1], p) case None => [] case Some(c) => [c]
  }

  /** The number of rows an import skips. */
  function Skipped(rows: seq<Row>, p: NumberParsers): (n: nat)
    ensures n <= |rows|
  {
    if rows == [] then 0
    else Skipped(rows[..|rows| - 1], p) + if ParseRow(rows[|rows| - 1], p).None? then 1 else 0
  }

  /** Every data row is either added or skipped: `added + skipped` is the row count. */
  lemma {:induction false} ImportAccounts(rows: seq<Row>, p: NumberParsers)
    ensures |Imported(rows, p)| + Skipped(rows, p) == |rows|
  {
    if rows != [] {
      ImportAccounts(rows[..|rows| - 1], p);
    }
  }

  /** A data set in which every row parses imports all its rows and skips none. */
  lemma {:induction false} ImportAllValid(rows: seq<Row>, p: NumberParsers)
    requires forall i :: 0 <= i < |rows| ==> ParseRow(rows[i], p).Some?
    ensures |Imported(rows, p)| == |rows| && Skipped(rows, p) == 0
  {
    if rows != [] {
      ImportAllValid(rows[..|rows| - 1], p);
    }
  }

  /** A row that fails to parse adds nothing and counts as one skipped row. */
  lemma SkippedRowAddsNothing(rows: seq<Row>, row: Row, p: NumberParsers)
    requires ParseRow(row, p).None?
    ensures Imported(rows + [row], p) == Imported(rows, p)
    ensures Skipped(rows + [row], p) == Skipped(rows, p) + 1
  {
    assert (rows + [row])[..|rows|] == rows;
  }

  // ---------------------------------------------------------------------
  // Export

  /** The row `export-csv` writes for a bill. */
  function ExportRow(b: Bill): (row: Row)
    ensures row.Keys == set c | c in ExportHeader
  {
    map["name" := b.name, "recipient" := b.recipient, "due_day" := Format.IntToString(b.dueDay),
        "amount" := Format.FormatCents(b.amount), "paid" := PaidCell(b.paid)]
  }

  function ExportRows(t: seq<Bill>): (rows: seq<Row>)
    ensures |rows| == |t|
  {
    seq(|t|, i requires 0 <= i < |t| => ExportRow(t[i]))
  }

  /** An exported file has every column an import requires. */
  lemma ExportHeaderComplete()
    ensures MissingColumns(ExportHeader) == {}
  {
    assert forall c :: c in RequiredColumns ==> c in ExportHeader;
  }

  /** The parsers read back the exported text of the bill's numbers: `int(str(d)) == d`
      and `float(f"{a:.2f}")` is `a` again, for an amount held in cents. */
  predicate ReadsBack(p: NumberParsers, b: Bill)
  {
    && p.parseInt(Format.IntToString(b.dueDay)) == Some(b.dueDay)
    && p.parseAmount(Format.FormatCents(b.amount)) == Some(b.amount)
  }

  /** An exported row imports as the bill's own fields when its name and
      recipient have no surrounding whitespace. */
  lemma RowRoundTrip(b: Bill, p: NumberParsers)
    requires ReadsBack(p, b) && Trimmed(b.name) && Trimmed(b.recipient)
    ensures ParseRow(ExportRow(b), p) == Some(Fields(b))
  {
    var row := ExportRow(b);
    assert row["name"] == b.name && row["recipient"] == b.recipient;
    assert row["due_day"] == Format.IntToString(b.dueDay) && row["amount"] == Format.FormatCents(b.amount);
    assert "paid" in row && row["paid"] == PaidCell(b.paid);
    StripIdentity(b.name);
    StripIdentity(b.recipient);
    PaidRoundTrip(b.paid);
    assert ParseRow(row, p).Some?;
  }

  /** ... and only then: surrounding whitespace in a name is lost on the way back. */
  lemma RowRoundTripLosesWhitespace(b: Bill, p: NumberParsers)
    requires ReadsBack(p, b) && !Trimmed(b.name)
    ensures ParseRow(ExportRow(b), p).Some?
    ensures ParseRow(ExportRow(b), p).value.name != b.name
  {
    StripIdentity(b.name);
  }

  /** What an exported bill needs for its row to import unchanged. */
  predicate Exportable(p: NumberParsers, b: Bill)
  {
    ReadsBack(p, b) && Trimmed(b.name) && Trimmed(b.recipient)
  }

  /** Importing one more row that parses adds its bill at the end. */
  lemma ImportedSnoc(rows: seq<Row>, row: Row, p: NumberParsers, c: BillCreate)
    requires ParseRow(row, p) == Some(c)
    ensures Imported(rows + [row], p) == Imported(rows, p) + [c]
    ensures Skipped(rows + [row], p) == Skipped(rows, p)
  {
    assert (rows + [row])[..|rows|] == rows;
  }

  /** The same step on a prefix of the data: row `i` parses, so the first
      `i + 1` rows import as the first `i` rows followed by its bill. */
  lemma ImportedPrefixSnoc(rows: seq<Row>, i: nat, p: NumberParsers, c: BillCreate)
    requires i < |rows| && ParseRow(rows[i], p) == Some(c)
    ensures Imported(rows[..i + 1], p) == Imported(rows[..i], p) + [c]
    ensures Skipped(rows[..i + 1], p) == Skipped(rows[..i], p)
  {
    assert rows[..i + 1][..i] == rows[..i];
  }

  /** Row `i` does not parse: the first `i + 1` rows import as the first `i`, with one more skip. */
  lemma SkippedPrefixSnoc(rows: seq<Row>, i: nat, p: NumberParsers)
    requires i < |rows| && ParseRow(rows[i], p).None?
    ensures Imported(rows[..i + 1], p) == Imported(rows[..i], p)
    ensures Skipped(rows[..i + 1], p) == Skipped(rows[..i], p) + 1
  {
    assert rows[..i + 1][..i] == rows[..i];
  }

  /** Exporting a table and importing the file gives back every bill's
      fields, in table order, and skips no row. */
  lemma {:induction false} ExportImportRoundTrip(t: seq<Bill>, p: NumberParsers)
    requires forall b :: b in t ==> Exportable(p, b)
    ensures Imported(ExportRows(t), p) == Table.FieldsOf(t)
    ensures Skipped(ExportRows(t), p) == 0
  {
    if t != [] {
      var init, last := t[..|t| - 1], t[|t| - 1];
      assert t == init + [last];
      assert ExportRows(t) == ExportRows(init) + [ExportRow(last)];
      assert forall b :: b in init ==> b in t;
      ExportImportRoundTrip(init, p);
      assert last in t;
      RowRoundTrip(last, p);
      ImportedSnoc(ExportRows(init), ExportRow(last), p, Fields(last));
      Table.FieldsOfAppend(init, last);
    }
  }
}
