/** The commands of nmba/cli.py over an open database. A command that the
    source ends with "exit 1" returns an error outcome instead; prompts,
    the clock and files are parameters; console output is left out. */
module Cli {
  import opened Models
  import Table
  import CsvRows
  import Notify
  import Crud

  /** Result of a command on one bill id: done, or "No bill found with ID" and exit 1. */
  datatype Outcome = Done | NotFound(billId: int)

  /** The options of `edit-bill`; None is an option left out. */
  datatype BillEdit = BillEdit(
    name: Option<string>, recipient: Option<string>, dueDay: Option<int>,
    amount: Option<int>, paid: Option<bool>)

  /** Result of `edit-bill`. */
  datatype EditOutcome = EditNotFound(billId: int) | Updated | NoFieldsUpdated

  /** Result of `import-csv` once any `--overwrite` deletion is done. */
  datatype ImportOutcome = MissingColumnsError(missing: set<string>) | ImportDone(added: nat, skipped: nat)

  /** Result of `notify`: nothing due, or the reminder sent to the configured targets. */
  datatype NotifyOutcome =
    | NoBillsDue
    | Reminder(due: seq<Bill>, targets: seq<string>, title: string, body: string)

  // ---------------------------------------------------------------------
  // notify

  /** `notify --lookahead-days n` on day `today` of the month: the unpaid
      bills due within the window, and the reminder built from them. */
  method NotifyDue(db: Crud.Database, today: int, lookaheadDays: int) returns (o: NotifyOutcome)
    requires db.Valid() && 1 <= today <= 31
    ensures o.NoBillsDue? <==> Notify.DueSoon(db.bills, Notify.DueDays(today, lookaheadDays)) == []
    ensures lookaheadDays <= 0 ==> o.NoBillsDue?
    ensures o.Reminder? ==> o.due == Notify.DueSoon(db.bills, Notify.DueDays(today, lookaheadDays))
    ensures o.Reminder? ==> forall b :: b in o.due <==> b in db.bills && !b.paid && b.dueDay in Notify.DueDays(today, lookaheadDays)
    ensures o.Reminder? ==> Table.Ordered(o.due)
    ensures o.Reminder? ==> o.title == Notify.ReminderTitle
    ensures o.Reminder? ==> o.body == Notify.JoinLines(Notify.Digest(o.due))
    ensures o.Reminder? ==> o.targets == Notify.NotifyTargets(db.config)
  {
    var dueDays := Notify.DueDays(today, lookaheadDays);
    var bills := Notify.DueSoon(db.bills, dueDays);
    if bills == [] {
      return NoBillsDue;
    }
    Notify.DueSoonOrdered(db.bills, dueDays);
    var targets := Notify.NotifyTargets(db.config);
    var msg := Notify.JoinLines(Notify.Digest(bills));
    o := Reminder(bills, targets, Notify.ReminderTitle, msg);
  }

  // ---------------------------------------------------------------------
  // Single-bill commands

  /** `add-bill`: the prompted fields become a new unpaid bill. */
  method AddBill(db: Crud.Database, name: string, recipient: string, dueDay: int, amount: int)
    returns (b: Bill)
    requires db.Valid()
    modifies db
    ensures db.Valid() && db.config == old(db.config)
    ensures Fields(b) == BillCreate(name, recipient, dueDay, amount, false)
    ensures db.bills == old(db.bills) + [b]
    ensures forall x :: x in old(db.bills) ==> x.id != b.id
  {
    b := db.CreateBill(BillCreate(name, recipient, dueDay, amount, false));
  }

  /** `remove-bill ID`. */
  method RemoveBill(db: Crud.Database, billId: int) returns (o: Outcome)
    requires db.Valid()
    modifies db
    ensures db.Valid() && db.config == old(db.config)
    ensures o == if Table.Lookup(old(db.bills), billId).Some? then Done else NotFound(billId)
    ensures o.NotFound? ==> db.bills == old(db.bills)
    ensures o.Done? ==> |db.bills| == |old(db.bills)| - 1
    ensures Table.Lookup(db.bills, billId) == None
    ensures forall b :: b in db.bills <==> b in old(db.bills) && b.id != billId
  {
    var bill := db.GetBill(billId);
    if bill.None? {
      return NotFound(billId);
    }
    var deleted := db.DeleteBill(billId);
    o := Done;
  }

  /** `mark-paid ID`. */
  method MarkPaid(db: Crud.Database, billId: int) returns (o: Outcome)
    requires db.Valid()
    modifies db
    ensures db.Valid() && db.config == old(db.config)
    ensures o == if Table.Lookup(old(db.bills), billId).Some? then Done else NotFound(billId)
    ensures db.bills == Table.SetPaid(old(db.bills), billId, true)
    ensures o.NotFound? ==> db.bills == old(db.bills)
    ensures o.Done? ==> Table.Lookup(db.bills, billId) == Some(Table.Lookup(old(db.bills), billId).value.(paid := true))
    ensures forall other :: other != billId ==> Table.Lookup(db.bills, other) == Table.Lookup(old(db.bills), other)
  {
    var bill := db.MarkBillPaid(billId, true);
    o := if bill.None? then NotFound(billId) else Done;
  }

  /** `mark-unpaid ID`. */
  method MarkUnpaid(db: Crud.Database, billId: int) returns (o: Outcome)
    requires db.Valid()
    modifies db
    ensures db.Valid() && db.config == old(db.config)
    ensures o == if Table.Lookup(old(db.bills), billId).Some? then Done else NotFound(billId)
    ensures db.bills == Table.SetPaid(old(db.bills), billId, false)
    ensures o.NotFound? ==> db.bills == old(db.bills)
    ensures o.Done? ==> Table.Lookup(db.bills, billId) == Some(Table.Lookup(old(db.bills), billId).value.(paid := false))
    ensures forall other :: other != billId ==> Table.Lookup(db.bills, other) == Table.Lookup(old(db.bills), other)
  {
    var bill := db.MarkBillPaid(billId, false);
    o := if bill.None? then NotFound(billId) else Done;
  }

  /** At least one option of `edit-bill` was given. */
  predicate Supplies(e: BillEdit)
  {
    e.name.Some? || e.recipient.Some? || e.dueDay.Some? || e.amount.Some? || e.paid.Some?
  }

  /** The bill after `edit-bill`: each given option replaces its field,
      every other field and the id stay. */
  function ApplyEdit(b: Bill, e: BillEdit): (r: Bill)
    ensures r.id == b.id
    ensures !Supplies(e) ==> r == b
    ensures r.name == (if e.name.Some? then e.name.value else b.name)
    ensures r.recipient == (if e.recipient.Some? then e.recipient.value else b.recipient)
    ensures r.dueDay == (if e.dueDay.Some? then e.dueDay.value else b.dueDay)
    ensures r.amount == (if e.amount.Some? then e.amount.value else b.amount)
    ensures r.paid == (if e.paid.Some? then e.paid.value else b.paid)
  {
    b.(name := if e.name.Some? then e.name.value else b.name,
       recipient := if e.recipient.Some? then e.recipient.value else b.recipient,
       dueDay := if e.dueDay.Some? then e.dueDay.value else b.dueDay,
       amount := if e.amount.Some? then e.amount.value else b.amount,
       paid := if e.paid.Some? then e.paid.value else b.paid)
  }

  /** Applying the same edit again changes nothing more. */
  lemma ApplyEditIdempotent(b: Bill, e: BillEdit)
    ensures ApplyEdit(ApplyEdit(b, e), e) == ApplyEdit(b, e)
  {
  }

  /** `edit-bill ID [--name ...] [--recipient ...] [--due-day ...] [--amount ...] [--paid ...]`:
      assigns the given fields one by one, remembering whether any was given. */
  method EditBill(db: Crud.Database, billId: int, e: BillEdit) returns (o: EditOutcome)
    requires db.Valid()
    modifies db
    ensures db.Valid() && db.config == old(db.config)
    ensures o.EditNotFound? <==> Table.Lookup(old(db.bills), billId).None?
    ensures o.EditNotFound? ==> o.billId == billId && db.bills == old(db.bills)
    ensures o.Updated? <==> !o.EditNotFound? && Supplies(e)
    ensures o.NoFieldsUpdated? ==> db.bills == old(db.bills)
    ensures !o.EditNotFound? ==>
      Table.Lookup(db.bills, billId) == Some(ApplyEdit(Table.Lookup(old(db.bills), billId).value, e))
    ensures |db.bills| == |old(db.bills)|
    ensures forall other :: other != billId ==> Table.Lookup(db.bills, other) == Table.Lookup(old(db.bills), other)
  {
    var found := db.GetBill(billId);
    if found.None? {
      return EditNotFound(billId);
    }
    var bill := found.value;
    Table.LookupIff(db.bills, billId, bill);
    var updated := false;
    if e.name.Some? {
      bill := bill.(name := e.name.value);
      updated := true;
    }
    if e.recipient.Some? {
      bill := bill.(recipient := e.recipient.value);
      updated := true;
    }
    if e.dueDay.Some? {
      bill := bill.(dueDay := e.dueDay.value);
      updated := true;
    }
    if e.amount.Some? {
      bill := bill.(amount := e.amount.value);
      updated := true;
    }
    if e.paid.Some? {
      bill := bill.(paid := e.paid.value);
      updated := true;
    }
    assert bill == ApplyEdit(found.value, e);
    if updated {
      Table.ReplaceSpec(db.bills, bill);
      db.bills := Table.Replace(db.bills, bill);
      o := Updated;
    } else {
      o := NoFieldsUpdated;
    }
  }

  // ---------------------------------------------------------------------
  // Bulk commands

  /** `mark-all-paid`: reports how many rows the update touched. */
  method MarkAllPaid(db: Crud.Database) returns (updated: nat)
    requires db.Valid()
    modifies db
    ensures db.Valid() && db.config == old(db.config)
    ensures db.bills == Table.SetAllPaid(old(db.bills), true)
    ensures updated == |old(db.bills)| == |db.bills|
    ensures forall b :: b in db.bills ==> b.paid
  {
    Table.SetAllPaidSpec(db.bills, true);
    updated := |db.bills|;
    db.bills := Table.SetAllPaid(db.bills, true);
  }

  /** `mark-all-unpaid`. */
  method MarkAllUnpaid(db: Crud.Database) returns (updated: nat)
    requires db.Valid()
    modifies db
    ensures db.Valid() && db.config == old(db.config)
    ensures db.bills == Table.SetAllPaid(old(db.bills), false)
    ensures updated == |old(db.bills)| == |db.bills|
    ensures forall b :: b in db.bills ==> !b.paid
  {
    Table.SetAllPaidSpec(db.bills, false);
    updated := |db.bills|;
    db.bills := Table.SetAllPaid(db.bills, false);
  }

  /** `remove-all-bills`: empties the table and reports how many rows it held. */
  method RemoveAllBills(db: Crud.Database) returns (deleted: nat)
    requires db.Valid()
    modifies db
    ensures db.Valid() && db.config == old(db.config)
    ensures db.bills == []
    ensures deleted == |old(db.bills)|
  {
    deleted := |db.bills|;
    db.bills := [];
  }

  // ---------------------------------------------------------------------
  // CSV

  /** `import-csv PATH [--overwrite]` on a file with the given header and
      data rows. With `--overwrite` the table is emptied first, and stays
      emptied when the header then lacks a required column. */
  method ImportCsv(db: Crud.Database, header: seq<string>, rows: seq<CsvRows.Row>, overwrite: bool,
                   p: CsvRows.NumberParsers)
    returns (deleted: nat, o: ImportOutcome)
    requires db.Valid()
    modifies db
    ensures db.Valid() && db.config == old(db.config)
    ensures deleted == if overwrite then |old(db.bills)| else 0
    ensures o.MissingColumnsError? <==> CsvRows.MissingColumns(header) != {}
    ensures o.MissingColumnsError? ==> o.missing == CsvRows.MissingColumns(header)
    ensures o.MissingColumnsError? ==> db.bills == if overwrite then [] else old(db.bills)
    ensures o.ImportDone? ==> o.added + o.skipped == |rows|
    ensures o.ImportDone? ==> o.added == |CsvRows.Imported(rows, p)| && o.skipped == CsvRows.Skipped(rows, p)
    ensures o.ImportDone? ==>
      var base := if overwrite then [] else old(db.bills);
      && |db.bills| == |base| + o.added
      && db.bills[..|base|] == base
      && Table.FieldsOf(db.bills[|base|..]) == CsvRows.Imported(rows, p)
  {
    deleted := 0;
    if overwrite {
      deleted := |db.bills|;
      db.bills := [];
    }
    var missing := CsvRows.MissingColumns(header);
    if missing != {} {
      return deleted, MissingColumnsError(missing);
    }
    var added, skipped := AddRows(db, rows, p);
    o := ImportDone(added, skipped);
  }

  /** The row loop of `import-csv`: each row that parses is added after the
      existing rows and counted; every other row is skipped and counted. */
  method AddRows(db: Crud.Database, rows: seq<CsvRows.Row>, p: CsvRows.NumberParsers)
    returns (added: nat, skipped: nat)
    requires db.Valid()
    modifies db
    ensures db.Valid() && db.config == old(db.config)
    ensures added + skipped == |rows|
    ensures added == |CsvRows.Imported(rows, p)| && skipped == CsvRows.Skipped(rows, p)
    ensures |db.bills| == |old(db.bills)| + added
    ensures db.bills[..|old(db.bills)|] == old(db.bills)
    ensures Table.FieldsOf(db.bills[|old(db.bills)|..]) == CsvRows.Imported(rows, p)
  {
    ghost var base := db.bills;
    added, skipped := 0, 0;
    var i := 0;
    while i < |rows|
      invariant 0 <= i <= |rows|
      invariant db.Valid() && db.config == old(db.config)
      invariant |db.bills| == |base| + added && db.bills[..|base|] == base
      invariant Table.FieldsOf(db.bills[|base|..]) == CsvRows.Imported(rows[..i], p)
      invariant skipped == CsvRows.Skipped(rows[..i], p)
      invariant added + skipped == i
    {
      match CsvRows.ParseRow(rows[i], p) {
        case Some(c) =>
          ghost var before := db.bills;
          var b := db.CreateBill(c);
          AppendedFields(base, before, b);
          CsvRows.ImportedPrefixSnoc(rows, i, p, c);
          added := added + 1;
        case None =>
          CsvRows.SkippedPrefixSnoc(rows, i, p);
          skipped := skipped + 1;
      }
      i := i + 1;
    }
    assert rows[..i] == rows;
  }

  /** Appending a bill after the imported part of the table extends that part's fields by the bill's. */
  lemma AppendedFields(base: seq<Bill>, before: seq<Bill>, b: Bill)
    requires |base| <= |before| && before[..|base|] == base
    ensures (before + [b])[..|base|] == base
    ensures Table.FieldsOf((before + [b])[|base|..]) == Table.FieldsOf(before[|base|..]) + [Fields(b)]
  {
    assert (before + [b])[|base|..] == before[|base|..] + [b];
    Table.FieldsOfAppend(before[|base|..], b);
  }

  /** `export-csv PATH`: the header and one row per bill, in table order. */
  method ExportCsv(db: Crud.Database) returns (header: seq<string>, rows: seq<CsvRows.Row>)
    requires db.Valid()
    ensures header == CsvRows.ExportHeader && CsvRows.MissingColumns(header) == {}
    ensures rows == CsvRows.ExportRows(db.bills)
    ensures |rows| == |db.bills|
  {
    CsvRows.ExportHeaderComplete();
    header := CsvRows.ExportHeader;
    rows := CsvRows.ExportRows(db.bills);
  }

  // ---------------------------------------------------------------------
  // Notification targets

  /** `config-set-notify-target URL`: one more `notify_target` row. */
  method ConfigSetNotifyTarget(db: Crud.Database, url: string)
    modifies db
    ensures db.bills == old(db.bills)
    ensures db.config == old(db.config) + [ConfigEntry(Notify.NotifyTargetKey, url)]
    ensures Notify.NotifyTargets(db.config) == Notify.NotifyTargets(old(db.config)) + [url]
  {
    Notify.NotifyTargetsAppend(db.config, url);
    db.config := db.config + [ConfigEntry(Notify.NotifyTargetKey, url)];
  }

  /** `config-show`: every configured target, in the order they were added
      (an empty list prints "No notification targets set."). */
  method ConfigShow(db: Crud.Database) returns (targets: seq<string>)
    ensures targets == Notify.NotifyTargets(db.config)
    ensures forall v :: v in targets <==> ConfigEntry(Notify.NotifyTargetKey, v) in db.config
  {
    targets := Notify.NotifyTargets(db.config);
  }
}
