/** The request body accepted when an account is created. */
module AccountDto {
  import opened Wrappers
  import opened Json
  import opened Currencies

  /** A body that passed validation. `balance` is `None` when the body omits it. */
  datatype CreateAccountDto = CreateAccountDto(name: string, balance: Option<int>, currency: Currency)

  /** `@IsString() @IsNotEmpty()` */
  predicate NameOk(v: Value) {
    v.Str? && v.s != ""
  }

  /** `@IsOptional() @IsNumber() @Min(0)` */
  predicate BalanceOk(v: Value) {
    Missing(v) || (v.Num? && v.n >= 0)
  }

  /** `@IsEnum(Currency)` */
  predicate CurrencyOk(v: Value) {
    v.Str? && FromCode(v.s).Some?
  }

  /** The names of the properties that fail their decorators. */
  function Errors(body: Body): set<string> {
    (if NameOk(Get(body, "name")) then {} else {"name"})
    + (if BalanceOk(Get(body, "balance")) then {} else {"balance"})
    + (if CurrencyOk(Get(body, "currency")) then {} else {"currency"})
  }

  /** Validation of a create-account body: the typed DTO, or every failing property. */
  function Validate(body: Body): (r: Result<CreateAccountDto, set<string>>)
    ensures r.Success? <==> Errors(body) == {}
    ensures r.Failure? ==> r.error == Errors(body) && r.error != {}
    ensures r.Success? ==> Get(body, "name") == Str(r.value.name) && r.value.name != ""
    ensures r.Success? ==> Get(body, "currency") == Str(Code(r.value.currency))
    ensures r.Success? ==> match r.value.balance
                           case None => Missing(Get(body, "balance"))
                           case Some(b) => Get(body, "balance") == Num(b) && b >= 0
  {
    if Errors(body) != {} then Failure(Errors(body))
    else
      assert "name" !in Errors(body) && "balance" !in Errors(body) && "currency" !in Errors(body);
      var balance := Get(body, "balance");
      Success(CreateAccountDto(
        Get(body, "name").s,
        if balance.Num? then Some(balance.n) else None,
        FromCode(Get(body, "currency").s).value))
  }
}
