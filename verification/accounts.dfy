/** The account store: creation with a default opening balance, owner-scoped listing and deletion. */
module Accounts {
  import opened Wrappers
  import opened ObjectIds
  import opened Currencies
  import opened Seqs
  import AccountDto

  /** A stored account document. */
  datatype Account = Account(id: ObjectId, name: string, balance: int, currency: Currency, userId: ObjectId)

  /** The account as the API returns it (timestamps are not modelled). */
  datatype AccountResponse = AccountResponse(id: string, name: string, balance: int, currency: string)

  datatype AccountError =
    | ValidationFailed(fields: set<string>)   // Mongoose schema validation
    | DuplicateKey                            // the generated `_id` is already taken
    | NotFound(message: string)               // NotFoundException

  const AccessDeniedMessage: string := "Access denied: Account belongs to another user"
  const NotFoundMessage: string := "Account not found"

  predicate HasId(store: seq<Account>, id: ObjectId) {
    exists i :: 0 <= i < |store| && store[i].id == id
  }

  /** The `_id` index: no two accounts share an id. */
  predicate UniqueIds(store: seq<Account>) {
    forall i, j :: 0 <= i < j < |store| ==> store[i].id != store[j].id
  }

  /** `mapToDto`: the id as its printed string, the other fields as stored. */
  function MapToDto(a: Account): AccountResponse {
    AccountResponse(ToString(a.id), a.name, a.balance, Code(a.currency))
  }

  /** The response loses nothing: the id string parses back to the id and the currency code to the currency. */
  lemma MapToDtoPreserves(a: Account)
    ensures FromString(MapToDto(a).id) == Some(a.id)
    ensures MapToDto(a).name == a.name && MapToDto(a).balance == a.balance
    ensures FromCode(MapToDto(a).currency) == Some(a.currency)
  {
    ParseToString(a.id);
  }

  /**
   * `createAccount`: stores the DTO's fields with the caller as owner; a missing (or zero)
   * balance becomes 0. `newId` is the `_id` the driver generates.
   */
  function CreateAccount(store: seq<Account>, userId: ObjectId, dto: AccountDto.CreateAccountDto, newId: ObjectId)
    : (r: Result<(seq<Account>, AccountResponse), AccountError>)
    ensures r.Success? <==> dto.name != "" && !HasId(store, newId)
    ensures r.Success? ==> |r.value.0| == |store| + 1
    ensures r.Success? ==>
      var a := r.value.0[|store|];
      && r.value.0 == store + [a]
      && a.id == newId && a.userId == userId
      && a.name == dto.name && a.currency == dto.currency
      && a.balance == (if dto.balance.Some? then dto.balance.value else 0)
      && r.value.1 == MapToDto(a)
    ensures r.Success? && UniqueIds(store) ==> UniqueIds(r.value.0)
  {
    if dto.name == "" then Failure(ValidationFailed({"name"}))
    else if HasId(store, newId) then Failure(DuplicateKey)
    else
      var a := Account(newId, dto.name, dto.balance.GetOr(0), dto.currency, userId);
      Success((store + [a], MapToDto(a)))
  }

  /** The accounts owned by `userId`, in store order. */
  function Owned(store: seq<Account>, userId: ObjectId): (r: seq<Account>)
    ensures forall a :: a in r <==> a in store && a.userId == userId
    ensures forall a :: multiset(r)[a] == if a.userId == userId then multiset(store)[a] else 0
  {
    Filter(store, (a: Account) => a.userId == userId)
  }

  /** `getUserAccounts`: the caller's accounts, each as its response. */
  function GetUserAccounts(store: seq<Account>, userId: ObjectId): (r: seq<AccountResponse>)
    ensures forall a :: a in store && a.userId == userId ==> MapToDto(a) in r
    ensures forall i :: 0 <= i < |r| ==> exists a :: a in store && a.userId == userId && r[i] == MapToDto(a)
  {
    ResponsesOfOwned(store, userId);
    MapSeq(Owned(store, userId), MapToDto)
  }

  lemma ResponsesOfOwned(store: seq<Account>, userId: ObjectId)
    ensures var r := MapSeq(Owned(store, userId), MapToDto);
      && (forall a :: a in store && a.userId == userId ==> MapToDto(a) in r)
      && (forall i :: 0 <= i < |r| ==> exists a :: a in store && a.userId == userId && r[i] == MapToDto(a))
  {
    EveryOwnedResponds(store, userId);
    EveryResponseOwned(store, userId);
  }

  lemma EveryOwnedResponds(store: seq<Account>, userId: ObjectId)
    ensures forall a :: a in store && a.userId == userId ==> MapToDto(a) in MapSeq(Owned(store, userId), MapToDto)
  {
    var owned := Owned(store, userId);
    var r := MapSeq(owned, MapToDto);
    forall a | a in store && a.userId == userId ensures MapToDto(a) in r {
      var k :| 0 <= k < |owned| && owned[k] == a;
      assert r[k] == MapToDto(a);
    }
  }

  lemma EveryResponseOwned(store: seq<Account>, userId: ObjectId)
    ensures var r := MapSeq(Owned(store, userId), MapToDto);
      forall i :: 0 <= i < |r| ==> exists a :: a in store && a.userId == userId && r[i] == MapToDto(a)
  {
    var owned := Owned(store, userId);
    var r := MapSeq(owned, MapToDto);
    forall i | 0 <= i < |r| ensures exists a :: a in store && a.userId == userId && r[i] == MapToDto(a) {
      assert owned[i] in owned;
    }
  }

  /**
   * `find` without a sort returns documents in store order: the listing of an empty store is
   * empty, and adding an account appends its response exactly when the caller owns it.
   */
  lemma GetUserAccountsInStoreOrder(store: seq<Account>, a: Account, userId: ObjectId)
    ensures GetUserAccounts([], userId) == []
    ensures GetUserAccounts(store + [a], userId)
         == GetUserAccounts(store, userId) + (if a.userId == userId then [MapToDto(a)] else [])
  {
    assert |GetUserAccounts([], userId)| == 0;
    GetUserAccountsAppend(store, a, userId);
  }

  lemma GetUserAccountsAppend(store: seq<Account>, a: Account, userId: ObjectId)
    ensures GetUserAccounts(store + [a], userId)
         == GetUserAccounts(store, userId) + (if a.userId == userId then [MapToDto(a)] else [])
  {
    ResponsesAppend(store, a, userId);
    GetUserAccountsIsMap(store, userId);
    GetUserAccountsIsMap(store + [a], userId);
  }

  lemma GetUserAccountsIsMap(store: seq<Account>, userId: ObjectId)
    ensures GetUserAccounts(store, userId) == MapSeq(Owned(store, userId), MapToDto)
  {
  }

  lemma ResponsesAppend(store: seq<Account>, a: Account, userId: ObjectId)
    ensures MapSeq(Owned(store + [a], userId), MapToDto)
         == MapSeq(Owned(store, userId), MapToDto) + (if a.userId == userId then [MapToDto(a)] else [])
  {
    MapFilterAppend(store, a, (a: Account) => a.userId == userId, MapToDto);
  }

  lemma OwnedAppend(store: seq<Account>, a: Account, userId: ObjectId)
    ensures Owned(store + [a], userId) == Owned(store, userId) + (if a.userId == userId then [a] else [])
  {
    FilterAppend(store, a, (a: Account) => a.userId == userId);
  }

  /** No account of another owner ever appears among the caller's accounts (ids are unique). */
  lemma GetUserAccountsOwnerOnly(store: seq<Account>, userId: ObjectId, a: Account)
    requires UniqueIds(store)
    requires a in store && a.userId != userId
    ensures MapToDto(a) !in GetUserAccounts(store, userId)
  {
    if MapToDto(a) in GetUserAccounts(store, userId) {
      var r := GetUserAccounts(store, userId);
      var i :| 0 <= i < |r| && r[i] == MapToDto(a);
      var b :| b in store && b.userId == userId && r[i] == MapToDto(b);
      var ia :| 0 <= ia < |store| && store[ia] == a;
      var ib :| 0 <= ib < |store| && store[ib] == b;
      ToStringInjective(a.id, b.id);
    }
  }

  /**
   * `deleteAccount`: removes the account matching both id and owner; otherwise raises
   * NotFound, saying "Access denied" when the id exists under another owner.
   */
  function DeleteAccount(store: seq<Account>, userId: ObjectId, accountId: ObjectId)
    : (r: Result<seq<Account>, AccountError>)
    ensures r.Success? <==> exists i :: 0 <= i < |store| && store[i].id == accountId && store[i].userId == userId
    ensures r.Success? ==>
      exists i :: 0 <= i < |store| && store[i].id == accountId && store[i].userId == userId
        && multiset(r.value) + multiset{store[i]} == multiset(store)
    ensures r.Success? ==> forall a :: a in store && a.id != accountId ==> a in r.value
    ensures r.Success? && UniqueIds(store) ==> UniqueIds(r.value) && !HasId(r.value, accountId)
    ensures r.Failure? ==>
      r.error == NotFound(if HasId(store, accountId) then AccessDeniedMessage else NotFoundMessage)
  {
    match FindIndex(store, (a: Account) => a.id == accountId && a.userId == userId)
    case Some(i) =>
      RemoveKeepsOthers(store, i);
      assert UniqueIds(store) ==> UniqueIds(RemoveAt(store, i)) && !HasId(RemoveAt(store, i), accountId) by {
        if UniqueIds(store) { RemoveKeepsUnique(store, i); }
      }
      Success(RemoveAt(store, i))
    case None =>
      Failure(NotFound(if HasId(store, accountId) then AccessDeniedMessage else NotFoundMessage))
  }

  /** Removing one account keeps every account with a different id. */
  lemma RemoveKeepsOthers(store: seq<Account>, i: nat)
    requires i < |store|
    ensures forall a :: a in store && a.id != store[i].id ==> a in RemoveAt(store, i)
  {
    var rest := RemoveAt(store, i);
    forall a | a in store && a.id != store[i].id ensures a in rest {
      var k :| 0 <= k < |store| && store[k] == a;
      if k < i { assert rest[k] == a; } else { assert rest[k - 1] == a; }
    }
  }

  /** Removing one account from a store with unique ids keeps them unique, and its id is gone. */
  lemma RemoveKeepsUnique(store: seq<Account>, i: nat)
    requires i < |store| && UniqueIds(store)
    ensures UniqueIds(RemoveAt(store, i)) && !HasId(RemoveAt(store, i), store[i].id)
  {
    var rest := RemoveAt(store, i);
    forall k | 0 <= k < |rest| ensures rest[k].id != store[i].id {
      if k < i { assert rest[k] == store[k]; } else { assert rest[k] == store[k + 1]; }
    }
    forall j, k | 0 <= j < k < |rest| ensures rest[j].id != rest[k].id {
      var j' := if j < i then j else j + 1;
      var k' := if k < i then k else k + 1;
      assert rest[j] == store[j'] && rest[k] == store[k'];
    }
  }
}
