/** Records of the bill tracker's database: the `bills` and `config` tables
    (nmba/data/models.py) and the fields a new bill is created from
    (nmba/data/schemas.py). Amounts are integer cents. */
module Models {

  datatype Option<+T> = None | Some(value: T)

  /** The caller-supplied fields of a bill (schemas.BillCreate): everything but the id. */
  datatype BillCreate = BillCreate(name: string, recipient: string, dueDay: int, amount: int, paid: bool)

  /** One row of the `bills` table. `dueDay` is whatever integer was stored: no write path checks 1..31. */
  datatype Bill = Bill(id: int, name: string, recipient: string, dueDay: int, amount: int, paid: bool)

  /** One row of the `config` table. */
  datatype ConfigEntry = ConfigEntry(key: string, value: string)

  /** The fields of a stored bill, without its id. */
  function Fields(b: Bill): BillCreate
  {
    BillCreate(b.name, b.recipient, b.dueDay, b.amount, b.paid)
  }

  /** The row the store writes for `c` once it has chosen the id `id`. */
  function WithId(c: BillCreate, id: int): (b: Bill)
    ensures b.id == id && Fields(b) == c
  {
    Bill(id, c.name, c.recipient, c.dueDay, c.amount, c.paid)
  }
}
