/** The `bills` table as a sequence of rows in the order a full scan returns
    them, with the row-level updates the store and the commands perform.
    Every update is stated twice: as a function on the sequence, and through
    `Lookup`, the id-to-bill view of the table, in the lemmas below. */
module Table {
  import opened Models

  /** Ids are positive and strictly ascending: the integer primary key is
      the row id, a new row gets one more than the largest id, and a scan
      without ORDER BY returns rows in id order. */
  predicate Ordered(t: seq<Bill>)
  {
    && (forall i :: 0 <= i < |t| ==> t[i].id >= 1)
    && (forall i, j :: 0 <= i < j < |t| ==> t[i].id < t[j].id)
  }

  /** Position of the first row whose id is `id`. */
  function IndexOf(t: seq<Bill>, id: int): (r: Option<nat>)
    ensures r.Some? ==> r.value < |t| && t[r.value].id == id
    ensures r.Some? ==> forall j :: 0 <= j < r.value ==> t[j].id != id
    ensures r.None? <==> forall j :: 0 <= j < |t| ==> t[j].id != id
  {
    if |t| == 0 then None
    else if t[0].id == id then Some(0)
    else match IndexOf(t[1..], id)
      case None => None
      case Some(k) => Some(k + 1)
  }

  /** `query(Bill).filter(Bill.id == id).first()`: the bill with that id, if any. */
  function Lookup(t: seq<Bill>, id: int): (r: Option<Bill>)
    ensures r.Some? ==> r.value in t && r.value.id == id
    ensures r.None? <==> forall b :: b in t ==> b.id != id
  {
    match IndexOf(t, id)
    case None => None
    case Some(k) => Some(t[k])
  }

  /** The id the store gives the next inserted row. */
  function NewId(t: seq<Bill>): (id: int)
    requires Ordered(t)
    ensures id >= 1
    ensures forall b :: b in t ==> b.id < id
  {
    if |t| == 0 then 1 else t[|t| - 1].id + 1
  }

  /** `db.add(Bill(...))` followed by a flush: the new row is appended with a fresh id. */
  function Insert(t: seq<Bill>, c: BillCreate): (r: seq<Bill>)
    requires Ordered(t)
    ensures |r| == |t| + 1 && r[..|t|] == t
    ensures Fields(r[|t|]) == c && forall b :: b in t ==> b.id < r[|t|].id
  {
    t + [WithId(c, NewId(t))]
  }

  /** `db.delete(bill)` on the row with the given id; no such row, no change. */
  function Remove(t: seq<Bill>, id: int): (r: seq<Bill>)
    ensures |r| == |t| || |r| == |t| - 1
    ensures forall b :: b in r ==> b in t
  {
    match IndexOf(t, id)
    case None => t
    case Some(k) => t[..k] + t[k + 1..]
  }

  /** Writing back a changed row `b` over the stored row with the same id. */
  function Replace(t: seq<Bill>, b: Bill): (r: seq<Bill>)
    ensures |r| == |t|
    ensures forall i :: 0 <= i < |t| ==> r[i] == t[i] || (r[i] == b && t[i].id == b.id)
  {
    match IndexOf(t, b.id)
    case None => t
    case Some(k) => t[k := b]
  }

  /** `bill.paid = paid` on the row with the given id (crud.mark_bill_paid). */
  function SetPaid(t: seq<Bill>, id: int, paid: bool): (r: seq<Bill>)
    ensures |r| == |t|
    ensures forall i :: 0 <= i < |t| ==> r[i] == t[i] || (t[i].id == id && r[i] == t[i].(paid := paid))
  {
    match Lookup(t, id)
    case None => t
    case Some(b) => Replace(t, b.(paid := paid))
  }

  /** `query(Bill).update({Bill.paid: paid})`: every row gets the flag. */
  function SetAllPaid(t: seq<Bill>, paid: bool): (r: seq<Bill>)
    ensures |r| == |t|
    ensures forall i :: 0 <= i < |t| ==>
      r[i].paid == paid && r[i].id == t[i].id && Fields(r[i]) == Fields(t[i]).(paid := paid)
  {
    seq(|t|, i requires 0 <= i < |t| => t[i].(paid := paid))
  }

  /** A looked-up row with its flag set to `paid`. */
  function WithPaid(o: Option<Bill>, paid: bool): Option<Bill>
  {
    match o
    case None => None
    case Some(b) => Some(b.(paid := paid))
  }

  /** The fields of every row, in table order (what an export-and-import keeps). */
  function FieldsOf(t: seq<Bill>): (r: seq<BillCreate>)
    ensures |r| == |t|
  {
    seq(|t|, i requires 0 <= i < |t| => Fields(t[i]))
  }

  // ---------------------------------------------------------------------
  // The id view

  /** In an ordered table ids are unique, so `Lookup` finds exactly the row carrying the id. */
  lemma LookupIff(t: seq<Bill>, id: int, b: Bill)
    requires Ordered(t)
    ensures Lookup(t, id) == Some(b) <==> b in t && b.id == id
  {
    if b in t && b.id == id {
      var i :| 0 <= i < |t| && t[i] == b;
    }
  }

  /** Two ordered tables holding the same rows for `id` give the same lookup for `id`. */
  lemma LookupByMembers(t: seq<Bill>, r: seq<Bill>, id: int)
    requires Ordered(t) && Ordered(r)
    requires forall b: Bill :: b.id == id ==> (b in t <==> b in r)
    ensures Lookup(t, id) == Lookup(r, id)
  {
    match Lookup(t, id)
    case Some(b) =>
      LookupIff(r, id, b);
    case None =>
  }

  /** A fresh id is not in the table. */
  lemma {:induction false} NewIdFresh(t: seq<Bill>)
    requires Ordered(t)
    ensures Lookup(t, NewId(t)) == None
    ensures forall i :: 0 <= i < |t| ==> t[i].id < NewId(t)
  {
    forall i | 0 <= i < |t| ensures t[i].id < NewId(t) {
      assert t[i] in t;
    }
  }

  /** Insertion keeps the table ordered, grows it by one row that carries the
      new id and the given fields, and changes no other id's row. */
  lemma InsertSpec(t: seq<Bill>, c: BillCreate)
    requires Ordered(t)
    ensures Ordered(Insert(t, c))
    ensures |Insert(t, c)| == |t| + 1
    ensures Lookup(Insert(t, c), NewId(t)) == Some(WithId(c, NewId(t)))
    ensures forall id :: id != NewId(t) ==> Lookup(Insert(t, c), id) == Lookup(t, id)
  {
    var r := Insert(t, c);
    NewIdFresh(t);
    assert Ordered(r);
    LookupIff(r, NewId(t), WithId(c, NewId(t)));
    forall id | id != NewId(t) ensures Lookup(r, id) == Lookup(t, id) {
      LookupByMembers(t, r, id);
    }
  }

  /** Cutting the row at position `k` out of an ordered table keeps it
      ordered and leaves exactly the rows whose id differs from that row's. */
  lemma RemoveAt(t: seq<Bill>, k: nat)
    requires Ordered(t) && k < |t|
    ensures Ordered(t[..k] + t[k + 1..])
    ensures forall b :: b in t[..k] + t[k + 1..] <==> b in t && b.id != t[k].id
  {
    var r := t[..k] + t[k + 1..];
    assert forall j :: 0 <= j < |r| ==> r[j] == (if j < k then t[j] else t[j + 1]);
    forall b ensures b in r <==> b in t && b.id != t[k].id {
      if b in t && b.id != t[k].id {
        var j :| 0 <= j < |t| && t[j] == b;
        if j < k { assert r[j] == b; } else { assert j != k && r[j - 1] == b; }
      }
      if b in r {
        var j :| 0 <= j < |r| && r[j] == b;
        if j < k {
          assert t[j] == b && t[j].id < t[k].id;
        } else {
          assert t[j + 1] == b && t[k].id < t[j + 1].id;
        }
      }
    }
  }

  /** Removal keeps the table ordered, drops exactly the row with the id
      (one row fewer when it was there, none otherwise) and leaves every
      other id's row as it was. */
  lemma RemoveSpec(t: seq<Bill>, id: int)
    requires Ordered(t)
    ensures Ordered(Remove(t, id))
    ensures Lookup(Remove(t, id), id) == None
    ensures |Remove(t, id)| == if Lookup(t, id).Some? then |t| - 1 else |t|
    ensures forall b :: b in Remove(t, id) <==> b in t && b.id != id
    ensures forall other :: other != id ==> Lookup(Remove(t, id), other) == Lookup(t, other)
  {
    var r := Remove(t, id);
    match IndexOf(t, id)
    case None =>
      assert r == t && Lookup(t, id).None?;
    case Some(k) =>
      RemoveAt(t, k);
      assert t[k].id == id && Lookup(t, id).Some? && |r| == |t| - 1;
    assert forall b :: b in r ==> b.id != id;
    forall other | other != id ensures Lookup(r, other) == Lookup(t, other) {
      LookupByMembers(t, r, other);
    }
  }

  /** Writing back a row whose id is stored puts exactly that row under its
      id; rows of other ids, the length and the order are unchanged. */
  lemma ReplaceSpec(t: seq<Bill>, b: Bill)
    requires Ordered(t)
    ensures Ordered(Replace(t, b))
    ensures |Replace(t, b)| == |t|
    ensures Lookup(Replace(t, b), b.id) == if Lookup(t, b.id).Some? then Some(b) else None
    ensures forall other :: other != b.id ==> Lookup(Replace(t, b), other) == Lookup(t, other)
  {
    var r := Replace(t, b);
    match IndexOf(t, b.id)
    case None =>
    case Some(k) =>
      assert r == t[k := b];
      assert Ordered(r);
      assert r[k] == b;
      LookupIff(r, b.id, b);
      forall other | other != b.id ensures Lookup(r, other) == Lookup(t, other) {
        forall x: Bill | x.id == other ensures x in t <==> x in r {
          if x in t {
            var j :| 0 <= j < |t| && t[j] == x;
            assert j != k && r[j] == x;
          }
          if x in r {
            var j :| 0 <= j < |r| && r[j] == x;
            assert j != k && t[j] == x;
          }
        }
        LookupByMembers(t, r, other);
      }
  }

  /** `SetPaid` changes the flag of the target row only; a missing id changes nothing. */
  lemma SetPaidSpec(t: seq<Bill>, id: int, paid: bool)
    requires Ordered(t)
    ensures Ordered(SetPaid(t, id, paid))
    ensures |SetPaid(t, id, paid)| == |t|
    ensures Lookup(t, id).None? ==> SetPaid(t, id, paid) == t
    ensures Lookup(t, id).Some? ==> Lookup(SetPaid(t, id, paid), id) == Some(Lookup(t, id).value.(paid := paid))
    ensures forall other :: other != id ==> Lookup(SetPaid(t, id, paid), other) == Lookup(t, other)
  {
    if Lookup(t, id).Some? {
      ReplaceSpec(t, Lookup(t, id).value.(paid := paid));
    }
  }

  /** Setting the same flag on the same row a second time changes nothing. */
  lemma SetPaidIdempotent(t: seq<Bill>, id: int, paid: bool)
    requires Ordered(t)
    ensures SetPaid(SetPaid(t, id, paid), id, paid) == SetPaid(t, id, paid)
  {
    var once := SetPaid(t, id, paid);
    SetPaidSpec(t, id, paid);
    match Lookup(t, id)
    case None =>
    case Some(b) =>
      var k := IndexOf(t, id).value;
      assert once == t[k := b.(paid := paid)];
      assert Lookup(once, id) == Some(b.(paid := paid));
      assert IndexOf(once, id) == Some(k) by {
        assert once[k].id == id;
        assert forall j :: 0 <= j < k ==> once[j].id == t[j].id;
      }
      assert once[k := b.(paid := paid)] == once;
  }

  /** The bulk update keeps ids and order, sets the flag on every row and
      changes no other field. */
  lemma SetAllPaidSpec(t: seq<Bill>, paid: bool)
    requires Ordered(t)
    ensures Ordered(SetAllPaid(t, paid))
    ensures |SetAllPaid(t, paid)| == |t|
    ensures forall b :: b in SetAllPaid(t, paid) ==> b.paid == paid
    ensures forall id :: Lookup(SetAllPaid(t, paid), id) == WithPaid(Lookup(t, id), paid)
  {
    var r := SetAllPaid(t, paid);
    assert Ordered(r);
    forall id ensures Lookup(r, id) == WithPaid(Lookup(t, id), paid) {
      match Lookup(t, id)
      case None =>
      case Some(b) =>
        var j :| 0 <= j < |t| && t[j] == b;
        assert r[j] == b.(paid := paid);
        LookupIff(r, id, b.(paid := paid));
    }
  }

  /** Setting every flag twice is the same as once. */
  lemma SetAllPaidIdempotent(t: seq<Bill>, paid: bool)
    ensures SetAllPaid(SetAllPaid(t, paid), paid) == SetAllPaid(t, paid)
  {
    var once := SetAllPaid(t, paid);
    assert forall i :: 0 <= i < |once| ==> once[i].(paid := paid) == once[i];
  }

  /** Appending a row appends its fields. */
  lemma FieldsOfAppend(t: seq<Bill>, b: Bill)
    ensures FieldsOf(t + [b]) == FieldsOf(t) + [Fields(b)]
  {
    assert forall i :: 0 <= i < |t| ==> (t + [b])[i] == t[i];
  }
}
