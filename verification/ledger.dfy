/**
 * The transaction service: creating and deleting ledger entries together with the
 * matching change to an account balance, and the filtered, date-ordered listing.
 * Each Mongo session is one state transition: its writes go to a working copy that is
 * either committed as a whole or dropped on abort.
 */
module Ledger {
  import opened Wrappers
  import opened ObjectIds
  import opened Seqs
  import opened Sorting
  import opened TransactionSchema
  import Accounts

  /** The two collections a session touches. */
  datatype Db = Db(accounts: seq<Accounts.Account>, entries: seq<Entry>)

  /** An infrastructure failure injected at one step of a session (the driver, not the service, decides it). */
  datatype Fault =
    | NoFault
    | WriteFails           // the insert (create) or the find-and-delete (delete) throws
    | BalanceUpdateFails   // the `$inc` on the account throws
    | CommitFails          // `commitTransaction` throws

  datatype LedgerError =
    | AmountNotNumber                      // thrown before the session starts
    | ValidationFailed(fields: set<string>)
    | DuplicateKey                         // the generated `_id` is already taken
    | Persistence                          // an injected fault; the session was aborted
    | InvalidObjectId                      // `new Types.ObjectId(...)` refused a filter value
    | InvalidDate                          // a date bound is an Invalid Date, which the query cast refuses

  /** A session: the state when it started and the writes made inside it so far. */
  datatype Session = Session(start: Db, work: Db)

  function StartSession(db: Db): Session {
    Session(db, db)
  }

  function Commit(s: Session): Db {
    s.work
  }

  function Abort(s: Session): Db {
    s.start
  }

  predicate HasEntry(entries: seq<Entry>, id: ObjectId) {
    exists i :: 0 <= i < |entries| && entries[i].id == id
  }

  /** `findByIdAndUpdate(id, { $inc: { balance: delta } })`: a missing id updates nothing and is no error. */
  function IncBalance(accounts: seq<Accounts.Account>, id: ObjectId, delta: int): (r: seq<Accounts.Account>)
    ensures |r| == |accounts|
    ensures forall i :: 0 <= i < |r| ==>
      r[i] == accounts[i].(balance := accounts[i].balance + (if accounts[i].id == id then delta else 0))
  {
    seq(|accounts|, i requires 0 <= i < |accounts| =>
      if accounts[i].id == id then accounts[i].(balance := accounts[i].balance + delta) else accounts[i])
  }

  /** Two increments of the same account add up. */
  lemma IncBalanceTwice(accounts: seq<Accounts.Account>, id: ObjectId, d1: int, d2: int)
    ensures IncBalance(IncBalance(accounts, id, d1), id, d2) == IncBalance(accounts, id, d1 + d2)
  {
  }

  /** The sum of all balances. */
  function TotalBalance(accounts: seq<Accounts.Account>): int {
    if |accounts| == 0 then 0
    else TotalBalance(accounts[..|accounts| - 1]) + accounts[|accounts| - 1].balance
  }

  /** How many accounts carry this id. */
  function CountId(accounts: seq<Accounts.Account>, id: ObjectId): nat {
    if |accounts| == 0 then 0
    else CountId(accounts[..|accounts| - 1], id) + (if accounts[|accounts| - 1].id == id then 1 else 0)
  }

  /**
   * `$inc` moves the total of all balances by `delta` once for every account with the id,
   * and changes nothing but balances.
   */
  lemma {:induction false} IncBalanceTotal(accounts: seq<Accounts.Account>, id: ObjectId, delta: int)
    ensures var r := IncBalance(accounts, id, delta);
      && TotalBalance(r) == TotalBalance(accounts) + delta * CountId(accounts, id)
      && forall i :: 0 <= i < |r| ==> r[i].(balance := 0) == accounts[i].(balance := 0)
  {
    var n := |accounts|;
    if n > 0 {
      var front := accounts[..n - 1];
      IncBalanceTotal(front, id, delta);
      IncBalancePrefix(accounts, id, delta);
      MulSucc(delta, CountId(front, id));
    }
  }

  lemma MulSucc(a: int, b: int)
    ensures a * (b + 1) == a * b + a
  {
  }

  lemma IncBalancePrefix(accounts: seq<Accounts.Account>, id: ObjectId, delta: int)
    requires |accounts| > 0
    ensures var n := |accounts|; var r := IncBalance(accounts, id, delta);
      && IncBalance(accounts[..n - 1], id, delta) == r[..n - 1]
      && r[n - 1].balance == accounts[n - 1].balance + (if accounts[n - 1].id == id then delta else 0)
  {
  }

  /** With unique ids at most one account carries the id, and one does exactly when it exists. */
  lemma {:induction false} CountIdUnique(accounts: seq<Accounts.Account>, id: ObjectId)
    requires Accounts.UniqueIds(accounts)
    ensures CountId(accounts, id) == if Accounts.HasId(accounts, id) then 1 else 0
  {
    var n := |accounts|;
    if n > 0 {
      var front := accounts[..n - 1];
      CountIdUnique(front, id);
      if accounts[n - 1].id == id {
        assert !Accounts.HasId(front, id) by {
          forall k | 0 <= k < n - 1 ensures front[k].id != id {
            assert front[k] == accounts[k];
          }
        }
      }
      assert Accounts.HasId(accounts, id) <==> Accounts.HasId(front, id) || accounts[n - 1].id == id by {
        if Accounts.HasId(front, id) {
          var k :| 0 <= k < n - 1 && front[k].id == id;
          assert accounts[k].id == id;
        }
      }
    }
  }

  /**
   * The update of a single account by id, as `findByIdAndUpdate` performs it: on a
   * collection with unique ids the total moves by `delta` when the account exists and by
   * nothing when it does not.
   */
  lemma IncBalanceUniqueTotal(accounts: seq<Accounts.Account>, id: ObjectId, delta: int)
    requires Accounts.UniqueIds(accounts)
    ensures TotalBalance(IncBalance(accounts, id, delta))
         == TotalBalance(accounts) + (if Accounts.HasId(accounts, id) then delta else 0)
  {
    IncBalanceTotal(accounts, id, delta);
    CountIdUnique(accounts, id);
  }

  /** The delta `create` applies: `+amount` when the draft's type is "income", `-amount` otherwise. */
  function CreateDelta(data: Draft): int
    requires data.amount.Some?
  {
    if data.kind == Some("income") then data.amount.value else -data.amount.value
  }

  /**
   * `create`: rejects a non-number amount up front; otherwise, in one session, inserts the
   * validated entry and adds the signed amount to the balance of `data.accountId`.
   * `newId` is the `_id` the driver generates for the entry.
   */
  function Create(db: Db, data: Draft, newId: ObjectId, fault: Fault): (r: (Db, Result<Entry, LedgerError>))
    ensures r.1.Failure? ==> r.0 == db
    ensures data.amount.None? ==> r.1 == Failure(AmountNotNumber)
    ensures data.amount.Some? && Validate(data, newId).Failure? ==>
      r.1 == Failure(ValidationFailed(MissingFields(data)))
    ensures r.1.Success? <==>
      data.amount.Some? && Validate(data, newId).Success? && fault == NoFault && !HasEntry(db.entries, newId)
    ensures r.1.Success? ==>
      var e := r.1.value;
      && e == Validate(data, newId).value
      && r.0.entries == db.entries + [e]
      && r.0.accounts == IncBalance(db.accounts, e.accountId, Signed(e))
  {
    if data.amount.None? then (db, Failure(AmountNotNumber))
    else
      var s := StartSession(db);
      match Validate(data, newId)
      case Failure(fields) => (Abort(s), Failure(ValidationFailed(fields)))
      case Success(e) =>
        assert Validate(data, newId).Success?;
        if fault == WriteFails then (Abort(s), Failure(Persistence))
        else if HasEntry(s.work.entries, newId) then (Abort(s), Failure(DuplicateKey))
        else
          var s1 := s.(work := s.work.(entries := s.work.entries + [e]));
          var delta := CreateDelta(data);
          if fault == BalanceUpdateFails then (Abort(s1), Failure(Persistence))
          else
            var s2 := s1.(work := s1.work.(accounts := IncBalance(s1.work.accounts, e.accountId, delta)));
            if fault == CommitFails then (Abort(s2), Failure(Persistence))
            else
              assert fault == NoFault;
              (Commit(s2), Success(e))
  }

  /** The delta `delete` applies: `-amount` for an income entry, `+amount` otherwise. */
  function DeleteDelta(e: Entry): int {
    if e.kind == "income" then -e.amount else e.amount
  }

  /** The filter `{ _id: id, userId }` of `findOneAndDelete`. */
  predicate Targets(e: Entry, id: ObjectId, userId: ObjectId) {
    e.id == id && e.userId == userId
  }

  /** The position of the first entry with this id that belongs to this owner. */
  function FindOwned(entries: seq<Entry>, id: ObjectId, userId: ObjectId): (r: Option<nat>)
    ensures r.Some? ==> r.value < |entries| && Targets(entries[r.value], id, userId)
    ensures r.Some? ==> forall j :: 0 <= j < r.value ==> !Targets(entries[j], id, userId)
    ensures r.None? <==> forall j :: 0 <= j < |entries| ==> !Targets(entries[j], id, userId)
  {
    if |entries| == 0 then None
    else if Targets(entries[0], id, userId) then Some(0)
    else
      match FindOwned(entries[1..], id, userId)
      case None =>
        assert forall j :: 1 <= j < |entries| ==> entries[j] == entries[1..][j - 1];
        None
      case Some(k) =>
        assert forall j :: 1 <= j < k + 1 ==> entries[j] == entries[1..][j - 1];
        Some(k + 1)
  }

  /**
   * `delete`: in one session, removes the entry matching both id and owner and applies
   * the inverse delta to its account. With no match it returns null and writes nothing.
   */
  function Delete(db: Db, id: ObjectId, userId: ObjectId, fault: Fault): (r: (Db, Result<Option<Entry>, LedgerError>))
    ensures r.1.Failure? ==> r.0 == db
    ensures r.1 == Success(None) ==> r.0 == db
    ensures r.1 == Success(None) <==>
      fault != WriteFails && forall i :: 0 <= i < |db.entries| ==> !Targets(db.entries[i], id, userId)
    ensures (r.1.Success? && r.1.value.Some?) <==> fault == NoFault && FindOwned(db.entries, id, userId).Some?
    ensures r.1.Success? && r.1.value.Some? ==>
      var i := FindOwned(db.entries, id, userId).value;
      && r.1.value.value == db.entries[i]
      && r.0.entries == RemoveAt(db.entries, i)
      && r.0.accounts == IncBalance(db.accounts, db.entries[i].accountId, -Signed(db.entries[i]))
  {
    var s := StartSession(db);
    if fault == WriteFails then (Abort(s), Failure(Persistence))
    else
      match FindOwned(s.work.entries, id, userId)
      case None => (db, Success(None))
      case Some(i) =>
        var e := s.work.entries[i];
        var s1 := s.(work := s.work.(entries := RemoveAt(s.work.entries, i)));
        var delta := DeleteDelta(e);
        if fault == BalanceUpdateFails then (Abort(s1), Failure(Persistence))
        else
          var s2 := s1.(work := s1.work.(accounts := IncBalance(s1.work.accounts, e.accountId, delta)));
          if fault == CommitFails then (Abort(s2), Failure(Persistence))
          else
            assert fault == NoFault;
            (Commit(s2), Success(Some(e)))
  }

  /** The optional query-string filters of `findAll`; an absent or empty value is no filter. */
  datatype Filters = Filters(kind: Option<string>, categoryId: Option<string>, from: Option<string>, to: Option<string>)

  predicate Truthy(v: Option<string>) {
    v.Some? && v.value != ""
  }

  /**
   * A date filter that `new Date(...)` turns into an Invalid Date. `toDate` stands for
   * `new Date(...)`, with `None` for an Invalid Date.
   */
  predicate BadDate(v: Option<string>, toDate: string -> Option<int>) {
    Truthy(v) && toDate(v.value).None?
  }

  /**
   * The entries the caller asked for, stated filter by filter. Both date bounds are inclusive;
   * a bound is only meaningful when it is not a `BadDate`.
   */
  predicate Selected(e: Entry, userId: ObjectId, f: Filters, category: Option<ObjectId>, toDate: string -> Option<int>) {
    && e.userId == userId
    && (Truthy(f.kind) ==> e.kind == f.kind.value)
    && (category.Some? ==> e.categoryId == category.value)
    && (Truthy(f.from) && toDate(f.from.value).Some? ==> e.date >= toDate(f.from.value).value)
    && (Truthy(f.to) && toDate(f.to.value).Some? ==> e.date <= toDate(f.to.value).value)
  }

  /** The Mongo query object `findAll` builds. */
  datatype Query = Query(userId: ObjectId, kind: Option<string>, categoryId: Option<ObjectId>,
                         from: Option<int>, to: Option<int>)

  /**
   * The query object, or the error running it raises. The category cast throws while the
   * query is built; an Invalid Date bound only fails when Mongoose casts the query.
   */
  function BuildQuery(userId: ObjectId, f: Filters, toDate: string -> Option<int>): Result<Query, LedgerError> {
    var kind := if Truthy(f.kind) then Some(f.kind.value) else None;
    var from := if Truthy(f.from) then toDate(f.from.value) else None;
    var to := if Truthy(f.to) then toDate(f.to.value) else None;
    var category := if Truthy(f.categoryId) then FromString(f.categoryId.value) else None;
    if Truthy(f.categoryId) && category.None? then Failure(InvalidObjectId)
    else if BadDate(f.from, toDate) || BadDate(f.to, toDate) then Failure(InvalidDate)
    else Success(Query(userId, kind, category, from, to))
  }

  /** A document matches a query when it equals every equality field and lies within the date range. */
  predicate Matches(q: Query, e: Entry) {
    && e.userId == q.userId
    && (q.kind.Some? ==> e.kind == q.kind.value)
    && (q.categoryId.Some? ==> e.categoryId == q.categoryId.value)
    && (q.from.Some? ==> e.date >= q.from.value)
    && (q.to.Some? ==> e.date <= q.to.value)
  }

  /** Orders entries by date, newest first. */
  function NewestFirst(): (Entry, Entry) -> bool {
    (a: Entry, b: Entry) => a.date >= b.date
  }

  /** The category the caller filters on, once cast; `None` when there is no category filter. */
  function CategoryFilter(f: Filters): Option<ObjectId> {
    if Truthy(f.categoryId) then FromString(f.categoryId.value) else None
  }

  /** `findAll`: the caller's entries that pass every supplied filter, newest first. */
  function FindAll(db: Db, userId: ObjectId, f: Filters, toDate: string -> Option<int>): (r: Result<seq<Entry>, LedgerError>)
    ensures r == Failure(InvalidObjectId) <==> Truthy(f.categoryId) && FromString(f.categoryId.value).None?
    ensures r == Failure(InvalidDate) <==>
      !(Truthy(f.categoryId) && FromString(f.categoryId.value).None?) && (BadDate(f.from, toDate) || BadDate(f.to, toDate))
    ensures r.Failure? ==> r.error == InvalidObjectId || r.error == InvalidDate
    ensures r.Success? ==>
      forall e :: e in r.value <==> e in db.entries && Selected(e, userId, f, CategoryFilter(f), toDate)
    ensures r.Success? ==>
      multiset(r.value) == multiset(Filter(db.entries, (e: Entry) => Selected(e, userId, f, CategoryFilter(f), toDate)))
    ensures r.Success? ==> forall i, j :: 0 <= i < j < |r.value| ==> r.value[i].date >= r.value[j].date
  {
    match BuildQuery(userId, f, toDate)
    case Failure(err) => Failure(err)
    case Success(q) =>
      ListingSelected(db, userId, f, toDate);
      Success(Listing(db.entries, q))
  }

  /** The documents a query finds, in the order of its `sort({ date: -1 })`. */
  function Listing(entries: seq<Entry>, q: Query): seq<Entry> {
    SortBy(Filter(entries, (e: Entry) => Matches(q, e)), NewestFirst())
  }

  /** The listing of the query `findAll` builds holds exactly the selected entries, newest first. */
  lemma ListingSelected(db: Db, userId: ObjectId, f: Filters, toDate: string -> Option<int>)
    requires BuildQuery(userId, f, toDate).Success?
    ensures var r := Listing(db.entries, BuildQuery(userId, f, toDate).value);
      && (forall e :: e in r <==> e in db.entries && Selected(e, userId, f, CategoryFilter(f), toDate))
      && multiset(r) == multiset(Filter(db.entries, (e: Entry) => Selected(e, userId, f, CategoryFilter(f), toDate)))
      && (forall i, j :: 0 <= i < j < |r| ==> r[i].date >= r[j].date)
  {
    ListingMultiset(db, userId, f, toDate);
    ListingMembers(db, userId, f, toDate);
    NewestFirstDates(Listing(db.entries, BuildQuery(userId, f, toDate).value));
  }

  lemma ListingMultiset(db: Db, userId: ObjectId, f: Filters, toDate: string -> Option<int>)
    requires BuildQuery(userId, f, toDate).Success?
    ensures multiset(Listing(db.entries, BuildQuery(userId, f, toDate).value))
         == multiset(Filter(db.entries, (e: Entry) => Selected(e, userId, f, CategoryFilter(f), toDate)))
  {
    var q := BuildQuery(userId, f, toDate).value;
    QueryMeansSelected(userId, f, toDate);
    SameFilter(db.entries, (e: Entry) => Matches(q, e), (e: Entry) => Selected(e, userId, f, CategoryFilter(f), toDate));
  }

  lemma ListingMembers(db: Db, userId: ObjectId, f: Filters, toDate: string -> Option<int>)
    requires BuildQuery(userId, f, toDate).Success?
    ensures forall e :: e in Listing(db.entries, BuildQuery(userId, f, toDate).value)
                     <==> e in db.entries && Selected(e, userId, f, CategoryFilter(f), toDate)
  {
    var q := BuildQuery(userId, f, toDate).value;
    var found := Filter(db.entries, (e: Entry) => Matches(q, e));
    QueryMeansSelected(userId, f, toDate);
    assert forall e :: e in Listing(db.entries, q) <==> e in multiset(found);
  }

  /** The query `findAll` builds matches exactly the entries `Selected` describes. */
  lemma QueryMeansSelected(userId: ObjectId, f: Filters, toDate: string -> Option<int>)
    requires BuildQuery(userId, f, toDate).Success?
    ensures forall e :: Matches(BuildQuery(userId, f, toDate).value, e) == Selected(e, userId, f, CategoryFilter(f), toDate)
  {
  }

  /** A sequence sorted newest first has non-increasing dates. */
  lemma NewestFirstDates(s: seq<Entry>)
    requires Sorted(s, NewestFirst())
    ensures forall i, j :: 0 <= i < j < |s| ==> s[i].date >= s[j].date
  {
    forall i, j | 0 <= i < j < |s| ensures s[i].date >= s[j].date {
      assert NewestFirst()(s[i], s[j]);
    }
  }

  /** Filtering by two predicates that agree everywhere gives the same result. */
  lemma {:induction false} SameFilter(s: seq<Entry>, p: Entry -> bool, q: Entry -> bool)
    requires forall e :: p(e) == q(e)
    ensures Filter(s, p) == Filter(s, q)
  {
    if |s| > 0 {
      SameFilter(s[1..], p, q);
    }
  }
}
