/** The ledger entry document and the schema validation that guards its insertion. */
module TransactionSchema {
  import opened Wrappers
  import opened ObjectIds

  /**
   * A stored ledger entry. `kind` is the schema's `type` path: a TypeScript union that
   * Mongoose stores as a plain String, with no enum check at run time.
   */
  datatype Entry = Entry(
    id: ObjectId,
    kind: string,
    amount: int,
    categoryId: ObjectId,
    accountId: ObjectId,
    date: int,
    note: Option<string>,
    userId: ObjectId)

  /** The `Partial<Transaction>` handed to `create`: any field may be missing. Ids are still strings. */
  datatype Draft = Draft(
    kind: Option<string>,
    amount: Option<int>,
    categoryId: Option<string>,
    accountId: Option<string>,
    date: Option<int>,
    note: Option<string>,
    userId: Option<string>)

  /** The entry's effect on its account's balance: `+amount` for income, `-amount` otherwise. */
  function Signed(e: Entry): int {
    if e.kind == "income" then e.amount else -e.amount
  }

  /** Mongoose's `required` on a String path: present and non-empty. */
  predicate StringPresent(v: Option<string>) {
    v.Some? && v.value != ""
  }

  /** `required` on an ObjectId path: present and castable to an object id. */
  predicate IdPresent(v: Option<string>) {
    v.Some? && FromString(v.value).Some?
  }

  /** The schema paths that fail validation; `note` is the one path without `required`. */
  function MissingFields(d: Draft): set<string> {
    (if StringPresent(d.kind) then {} else {"type"})
    + (if d.amount.Some? then {} else {"amount"})
    + (if IdPresent(d.categoryId) then {} else {"categoryId"})
    + (if IdPresent(d.accountId) then {} else {"accountId"})
    + (if d.date.Some? then {} else {"date"})
    + (if IdPresent(d.userId) then {} else {"userId"})
  }

  /** Schema validation of a draft, giving the document to insert under `id`, or the failing paths. */
  function Validate(d: Draft, id: ObjectId): (r: Result<Entry, set<string>>)
    ensures r.Success? <==>
      StringPresent(d.kind) && d.amount.Some? && IdPresent(d.categoryId) && IdPresent(d.accountId)
      && d.date.Some? && IdPresent(d.userId)
    ensures r.Failure? ==> r.error == MissingFields(d) && r.error != {}
    ensures r.Success? ==>
      && r.value.id == id
      && Some(r.value.kind) == d.kind && Some(r.value.amount) == d.amount
      && Some(r.value.categoryId) == FromString(d.categoryId.value)
      && Some(r.value.accountId) == FromString(d.accountId.value)
      && Some(r.value.date) == d.date && r.value.note == d.note
      && Some(r.value.userId) == FromString(d.userId.value)
  {
    if MissingFields(d) != {} then Failure(MissingFields(d))
    else
      assert "type" !in MissingFields(d) && "amount" !in MissingFields(d) && "date" !in MissingFields(d);
      assert "categoryId" !in MissingFields(d) && "accountId" !in MissingFields(d) && "userId" !in MissingFields(d);
      Success(Entry(
        id, d.kind.value, d.amount.value,
        FromString(d.categoryId.value).value, FromString(d.accountId.value).value,
        d.date.value, d.note, FromString(d.userId.value).value))
  }

  /** Whether a draft validates does not depend on its note, and the note is stored as given. */
  lemma NoteIsOptional(d: Draft, id: ObjectId, note: Option<string>)
    ensures Validate(d.(note := note), id).Success? == Validate(d, id).Success?
    ensures Validate(d.(note := note), id).Success? ==> Validate(d.(note := note), id).value.note == note
  {
  }
}
