/**
 * The `POST /transaction` route as it calls the service: the validated DTO becomes the
 * service's `data` argument, and the caller's id is passed as a second argument that
 * `create` does not declare.
 */
module TransactionController {
  import opened Wrappers
  import opened ObjectIds
  import opened TransactionSchema
  import opened TransactionDto
  import opened Ledger

  /**
   * The schema paths a validated DTO still fails once it reaches `create`: always `userId`,
   * an id string that does not cast to an object id, and `date` when the body has none
   * (the schema gives it no default) or has one the date cast refuses.
   */
  function DtoGaps(dto: CreateTransactionDto, toDate: string -> Option<int>): set<string> {
    {"userId"}
    + (if IsValid(dto.categoryId) then {} else {"categoryId"})
    + (if IsValid(dto.accountId) then {} else {"accountId"})
    + (if dto.date.Some? && toDate(dto.date.value).Some? then {} else {"date"})
  }

  /** The draft of a validated DTO misses exactly the paths `DtoGaps` names. */
  lemma DraftMissingFields(dto: CreateTransactionDto, toDate: string -> Option<int>)
    ensures MissingFields(ToDraft(dto, toDate)) == DtoGaps(dto, toDate)
  {
    assert TypeName(dto.kind) != "";
  }

  /**
   * The route handler. `userId` is the authenticated caller; it never reaches the draft, so
   * schema validation always reports `userId` as missing and nothing is written.
   */
  function CreateRoute(db: Db, dto: CreateTransactionDto, userId: ObjectId, toDate: string -> Option<int>,
                       newId: ObjectId, fault: Fault): (r: (Db, Result<Entry, LedgerError>))
    ensures r.0 == db
    ensures r.1 == Failure(ValidationFailed(DtoGaps(dto, toDate)))
    ensures "userId" in r.1.error.fields
  {
    var data := ToDraft(dto, toDate);
    DraftMissingFields(dto, toDate);
    Create(db, data, newId, fault)
  }
}
