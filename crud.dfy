/** The database session and the repository functions of nmba/data/crud.py.
    Every change is treated as committed when the method returns. */
module Crud {
  import opened Models
  import Table

  class Database {
    /** The `bills` table, in the order a full scan returns it. */
    var bills: seq<Bill>
    /** The `config` table, in insertion order. */
    var config: seq<ConfigEntry>

    predicate Valid()
      reads this
    {
      Table.Ordered(bills)
    }

    /** A freshly initialised database: both tables empty. */
    constructor ()
      ensures Valid() && bills == [] && config == []
    {
      bills := [];
      config := [];
    }

    /** crud.get_bills: every stored bill, in ascending id order. */
    method GetBills() returns (r: seq<Bill>)
      requires Valid()
      ensures r == bills
      ensures Table.Ordered(r)
    {
      r := bills;
    }

    /** crud.get_bill: the bill with the id, or None when no bill has it. */
    method GetBill(billId: int) returns (r: Option<Bill>)
      requires Valid()
      ensures r.Some? ==> r.value in bills && r.value.id == billId
      ensures r.None? <==> forall b :: b in bills ==> b.id != billId
    {
      r := Table.Lookup(bills, billId);
    }

    /** crud.create_bill: stores one new bill with a fresh id and the given
        fields and returns it; existing rows are untouched. */
    method CreateBill(c: BillCreate) returns (b: Bill)
      requires Valid()
      modifies this
      ensures Valid()
      ensures Fields(b) == c
      ensures forall x :: x in old(bills) ==> x.id != b.id
      ensures bills == old(bills) + [b]
      ensures bills == Table.Insert(old(bills), c)
      ensures config == old(config)
    {
      Table.InsertSpec(bills, c);
      Table.NewIdFresh(bills);
      b := WithId(c, Table.NewId(bills));
      bills := Table.Insert(bills, c);
    }

    /** crud.delete_bill: removes and returns the bill with the id; a missing
        id gives None and changes nothing. */
    method DeleteBill(billId: int) returns (r: Option<Bill>)
      requires Valid()
      modifies this
      ensures Valid()
      ensures r == Table.Lookup(old(bills), billId)
      ensures bills == Table.Remove(old(bills), billId)
      ensures r.None? ==> bills == old(bills)
      ensures r.Some? ==> |bills| == |old(bills)| - 1
      ensures forall x :: x in bills <==> x in old(bills) && x.id != billId
      ensures forall other :: other != billId ==> Table.Lookup(bills, other) == Table.Lookup(old(bills), other)
      ensures config == old(config)
    {
      Table.RemoveSpec(bills, billId);
      r := Table.Lookup(bills, billId);
      bills := Table.Remove(bills, billId);
    }

    /** crud.mark_bill_paid: sets the flag on the bill with the id and returns
        the updated bill; a missing id gives None and changes nothing. */
    method MarkBillPaid(billId: int, paid: bool) returns (r: Option<Bill>)
      requires Valid()
      modifies this
      ensures Valid()
      ensures bills == Table.SetPaid(old(bills), billId, paid)
      ensures r == Table.WithPaid(Table.Lookup(old(bills), billId), paid)
      ensures r.None? ==> bills == old(bills)
      ensures r.Some? ==> Table.Lookup(bills, billId) == r && r.value.paid == paid
      ensures |bills| == |old(bills)|
      ensures forall other :: other != billId ==> Table.Lookup(bills, other) == Table.Lookup(old(bills), other)
      ensures config == old(config)
    {
      Table.SetPaidSpec(bills, billId, paid);
      r := Table.WithPaid(Table.Lookup(bills, billId), paid);
      bills := Table.SetPaid(bills, billId, paid);
    }
  }
}
