/** The request body accepted when a ledger entry is created, and what the controller makes of it. */
module TransactionDto {
  import opened Wrappers
  import opened Json
  import TransactionSchema

  datatype EntryType = Income | Expense

  function TypeName(t: EntryType): string {
    match t
    case Income => "income"
    case Expense => "expense"
  }

  /** A body that passed validation. */
  datatype CreateTransactionDto = CreateTransactionDto(
    kind: EntryType,
    amount: int,
    categoryId: string,
    accountId: string,
    date: Option<string>,
    note: Option<string>)

  /** `@IsEnum(['income', 'expense'])` */
  predicate TypeOk(v: Value) {
    v == Str("income") || v == Str("expense")
  }

  /** `@IsNumber() @IsPositive()` */
  predicate AmountOk(v: Value) {
    v.Num? && v.n > 0
  }

  /** `@IsOptional() @IsDateString()`; `isIsoDate` stands for the library's ISO 8601 check. */
  predicate DateOk(v: Value, isIsoDate: string -> bool) {
    Missing(v) || (v.Str? && isIsoDate(v.s))
  }

  /** `@IsOptional() @IsString()` */
  predicate NoteOk(v: Value) {
    Missing(v) || v.Str?
  }

  /** The names of the properties that fail their decorators. */
  function Errors(body: Body, isIsoDate: string -> bool): set<string> {
    (if TypeOk(Get(body, "type")) then {} else {"type"})
    + (if AmountOk(Get(body, "amount")) then {} else {"amount"})
    + (if Get(body, "categoryId").Str? then {} else {"categoryId"})
    + (if Get(body, "accountId").Str? then {} else {"accountId"})
    + (if DateOk(Get(body, "date"), isIsoDate) then {} else {"date"})
    + (if NoteOk(Get(body, "note")) then {} else {"note"})
  }

  /** Validation of a create-transaction body: the typed DTO, or every failing property. */
  function Validate(body: Body, isIsoDate: string -> bool): (r: Result<CreateTransactionDto, set<string>>)
    ensures r.Success? <==> Errors(body, isIsoDate) == {}
    ensures r.Failure? ==> r.error == Errors(body, isIsoDate) && r.error != {}
    ensures r.Success? ==> Get(body, "type") == Str(TypeName(r.value.kind))
    ensures r.Success? ==> Get(body, "amount") == Num(r.value.amount) && r.value.amount > 0
    ensures r.Success? ==>
      Get(body, "categoryId") == Str(r.value.categoryId) && Get(body, "accountId") == Str(r.value.accountId)
    ensures r.Success? ==> match r.value.date
                           case None => Missing(Get(body, "date"))
                           case Some(s) => Get(body, "date") == Str(s) && isIsoDate(s)
    ensures r.Success? ==> match r.value.note
                           case None => Missing(Get(body, "note"))
                           case Some(s) => Get(body, "note") == Str(s)
  {
    if Errors(body, isIsoDate) != {} then Failure(Errors(body, isIsoDate))
    else
      assert "type" !in Errors(body, isIsoDate) && "amount" !in Errors(body, isIsoDate);
      assert "categoryId" !in Errors(body, isIsoDate) && "accountId" !in Errors(body, isIsoDate);
      assert "date" !in Errors(body, isIsoDate) && "note" !in Errors(body, isIsoDate);
      var date := Get(body, "date");
      var note := Get(body, "note");
      Success(CreateTransactionDto(
        if Get(body, "type") == Str("income") then Income else Expense,
        Get(body, "amount").n,
        Get(body, "categoryId").s,
        Get(body, "accountId").s,
        if date.Str? then Some(date.s) else None,
        if note.Str? then Some(note.s) else None))
  }

  /**
   * The object the controller passes to `create`: the DTO's own fields, the date string
   * cast to a date by `toDate` (`None` for a string the date cast refuses). The caller's id
   * goes in a second argument that `create` does not declare, so no `userId` reaches the draft.
   */
  function ToDraft(dto: CreateTransactionDto, toDate: string -> Option<int>): (d: TransactionSchema.Draft)
    ensures d.userId.None?
    ensures d.date.Some? <==> dto.date.Some? && toDate(dto.date.value).Some?
    ensures d.date.Some? ==> d.date == toDate(dto.date.value)
    ensures d.kind == Some(TypeName(dto.kind)) && d.amount == Some(dto.amount)
  {
    TransactionSchema.Draft(
      Some(TypeName(dto.kind)),
      Some(dto.amount),
      Some(dto.categoryId),
      Some(dto.accountId),
      if dto.date.Some? then toDate(dto.date.value) else None,
      dto.note,
      None)
  }
}
