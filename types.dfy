/** Values shared by the debt-simplification engine: members, groups,
    expenses, settlements and the transfers it suggests. */
module SimplifyTypes {

  datatype Option<T> = None | Some(value: T)
  {
    function GetOr(default: T): T
    {
      match this
      case Some(v) => v
      case None => default
    }
  }

  /** A member document of a group. `id` is its `$id`, which may be missing
      (`undefined`) in loosely typed data. */
  datatype Member = Member(id: Option<string>, name: string)

  function IdOf(m: Member): Option<string> { m.id }

  function NameOf(m: Member): string { m.name }

  /** The names of `ms`, in order. */
  function Names(ms: seq<Member>): seq<string>
  {
    seq(|ms|, k requires 0 <= k < |ms| => ms[k].name)
  }

  /** An expense document. `ref` stands for the object's identity: two
      entries with the same `ref` are the same JavaScript object. `paidBy` is
      the payer's `$id`, `amount` the expense's `Amout` field and
      `splitMember` the `$id`s of the members who share it, in order. */
  datatype Expense = Expense(ref: nat, paidBy: string, amount: real, splitMember: seq<string>)

  function RefOf(e: Expense): nat { e.ref }

  /** A group document: its `Members` (None when it is not an array) and its
      `activity` list of expenses. */
  datatype Group = Group(members: Option<seq<Member>>, activity: seq<Expense>)

  /** A recorded settlement: `payerId` paid `receiverId`. `amount` is the
      numeric value of its amount field; None when the field is missing or
      not a number, which the source reads as 0. */
  datatype Settlement = Settlement(payerId: string, receiverId: string, amount: Option<real>)

  /** A suggested or pairwise payment between two member names. */
  datatype Transfer = Transfer(from: string, to: string, amount: real)
}
