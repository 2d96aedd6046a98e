/**
 * The bookkeeping invariant: every account's balance is its opening balance plus the
 * signed amounts of the entries on that account, and every entry's account exists.
 */
module LedgerInvariant {
  import opened Wrappers
  import opened ObjectIds
  import opened Seqs
  import opened TransactionSchema
  import opened Ledger
  import Accounts
  import AccountDto

  /** The sum of the signed amounts of the entries on account `a`. */
  function SumFor(entries: seq<Entry>, a: ObjectId): int {
    if |entries| == 0 then 0
    else
      var last := entries[|entries| - 1];
      SumFor(entries[..|entries| - 1], a) + (if last.accountId == a then Signed(last) else 0)
  }

  predicate AccountExists(accounts: seq<Accounts.Account>, id: ObjectId) {
    exists k :: 0 <= k < |accounts| && accounts[k].id == id
  }

  /** The invariant, relative to each account's balance when it was opened. */
  predicate Consistent(db: Db, opening: map<ObjectId, int>) {
    && (forall i :: 0 <= i < |db.entries| ==> AccountExists(db.accounts, db.entries[i].accountId))
    && (forall k :: 0 <= k < |db.accounts| ==>
          db.accounts[k].id in opening
          && db.accounts[k].balance == opening[db.accounts[k].id] + SumFor(db.entries, db.accounts[k].id))
  }

  /** The side condition for `create`: an account id the draft names, once cast, exists. */
  predicate TargetsExistingAccount(db: Db, data: Draft) {
    IdPresent(data.accountId) ==> AccountExists(db.accounts, FromString(data.accountId.value).value)
  }

  lemma SumForAppend(entries: seq<Entry>, e: Entry, a: ObjectId)
    ensures SumFor(entries + [e], a) == SumFor(entries, a) + (if e.accountId == a then Signed(e) else 0)
  {
    assert (entries + [e])[..|entries|] == entries;
  }

  /** Removing one entry takes exactly its signed amount out of its own account's sum. */
  lemma {:induction false} SumForRemove(entries: seq<Entry>, i: nat, a: ObjectId)
    requires i < |entries|
    ensures SumFor(RemoveAt(entries, i), a)
         == SumFor(entries, a) - (if entries[i].accountId == a then Signed(entries[i]) else 0)
  {
    var n := |entries|;
    var front := entries[..n - 1];
    if i == n - 1 {
      assert RemoveAt(entries, i) == front;
    } else {
      SumForRemove(front, i, a);
      RemoveBeforeLast(entries, i);
      SumForAppend(RemoveAt(front, i), entries[n - 1], a);
    }
  }

  /** Removing an element before the last one commutes with splitting off the last one. */
  lemma RemoveBeforeLast<T>(s: seq<T>, i: nat)
    requires i < |s| - 1
    ensures RemoveAt(s, i) == RemoveAt(s[..|s| - 1], i) + [s[|s| - 1]]
  {
    var dropped := RemoveAt(s, i);
    var rebuilt := RemoveAt(s[..|s| - 1], i) + [s[|s| - 1]];
    forall j | 0 <= j < |dropped| ensures dropped[j] == rebuilt[j] {
      if j < |s| - 2 {
        assert rebuilt[j] == RemoveAt(s[..|s| - 1], i)[j];
      }
    }
  }

  /** No entry on an account means a zero sum. */
  lemma {:induction false} SumForUnused(entries: seq<Entry>, a: ObjectId)
    requires forall i :: 0 <= i < |entries| ==> entries[i].accountId != a
    ensures SumFor(entries, a) == 0
  {
    if |entries| > 0 {
      SumForUnused(entries[..|entries| - 1], a);
    }
  }

  lemma IncBalanceZero(accounts: seq<Accounts.Account>, id: ObjectId)
    ensures IncBalance(accounts, id, 0) == accounts
  {
  }

  /** Incrementing balances keeps every account id, so existence is unaffected. */
  lemma IncBalanceKeepsIds(accounts: seq<Accounts.Account>, id: ObjectId, delta: int, x: ObjectId)
    ensures AccountExists(IncBalance(accounts, id, delta), x) == AccountExists(accounts, x)
  {
    var r := IncBalance(accounts, id, delta);
    if AccountExists(accounts, x) {
      var k :| 0 <= k < |accounts| && accounts[k].id == x;
      assert r[k].id == x;
    }
    if AccountExists(r, x) {
      var k :| 0 <= k < |r| && r[k].id == x;
      assert accounts[k].id == x;
    }
  }

  /** `create` keeps the invariant whenever the account it names exists. */
  lemma CreatePreservesConsistency(db: Db, opening: map<ObjectId, int>, data: Draft, newId: ObjectId, fault: Fault)
    requires Consistent(db, opening)
    requires TargetsExistingAccount(db, data)
    ensures Consistent(Create(db, data, newId, fault).0, opening)
  {
    var (db1, r) := Create(db, data, newId, fault);
    if r.Success? {
      var e := r.value;
      forall i | 0 <= i < |db1.entries| ensures AccountExists(db1.accounts, db1.entries[i].accountId) {
        IncBalanceKeepsIds(db.accounts, e.accountId, Signed(e), db1.entries[i].accountId);
        if i < |db.entries| {
          assert db1.entries[i] == db.entries[i];
        }
      }
      forall k | 0 <= k < |db1.accounts|
        ensures db1.accounts[k].id in opening
        ensures db1.accounts[k].balance == opening[db1.accounts[k].id] + SumFor(db1.entries, db1.accounts[k].id)
      {
        SumForAppend(db.entries, e, db.accounts[k].id);
      }
    }
  }

  /** `delete` always keeps the invariant: the entry leaves together with its effect. */
  lemma DeletePreservesConsistency(db: Db, opening: map<ObjectId, int>, id: ObjectId, userId: ObjectId, fault: Fault)
    requires Consistent(db, opening)
    ensures Consistent(Delete(db, id, userId, fault).0, opening)
  {
    var r := Delete(db, id, userId, fault);
    if r.1.Success? && r.1.value.Some? {
      var i := FindOwned(db.entries, id, userId).value;
      DeleteFound(db, id, userId, i);
      RemoveEntryPreservesConsistency(db, opening, i);
    }
  }

  /** Removing entry `i` and reversing its delta on its account keeps the invariant. */
  lemma RemoveEntryPreservesConsistency(db: Db, opening: map<ObjectId, int>, i: nat)
    requires Consistent(db, opening)
    requires i < |db.entries|
    ensures Consistent(Db(IncBalance(db.accounts, db.entries[i].accountId, -Signed(db.entries[i])),
                          RemoveAt(db.entries, i)), opening)
  {
    var e := db.entries[i];
    var db1 := Db(IncBalance(db.accounts, e.accountId, -Signed(e)), RemoveAt(db.entries, i));
    forall j | 0 <= j < |db1.entries| ensures AccountExists(db1.accounts, db1.entries[j].accountId) {
      var j' := if j < i then j else j + 1;
      assert db1.entries[j] == db.entries[j'];
      IncBalanceKeepsIds(db.accounts, e.accountId, -Signed(e), db1.entries[j].accountId);
    }
    forall k | 0 <= k < |db1.accounts|
      ensures db1.accounts[k].id in opening
      ensures db1.accounts[k].balance == opening[db1.accounts[k].id] + SumFor(db1.entries, db1.accounts[k].id)
    {
      SumForRemove(db.entries, i, db.accounts[k].id);
    }
  }

  /** Deleting the last-appended entry, whose id is fresh, undoes the append and its balance change. */
  lemma DeleteUndoesAppend(db: Db, e: Entry)
    requires !HasEntry(db.entries, e.id)
    ensures Delete(Db(IncBalance(db.accounts, e.accountId, Signed(e)), db.entries + [e]), e.id, e.userId, NoFault)
         == (db, Success(Some(e)))
  {
    var es := db.entries + [e];
    var db1 := Db(IncBalance(db.accounts, e.accountId, Signed(e)), es);
    FindOwnedAppended(db.entries, e);
    DeleteFound(db1, e.id, e.userId, |db.entries|);
    assert es[|db.entries|] == e;
    RemoveAppended(db.entries, e);
    IncBalanceTwice(db.accounts, e.accountId, Signed(e), -Signed(e));
    IncBalanceZero(db.accounts, e.accountId);
  }

  /** With a match at `i` and no fault, `delete` removes entry `i` and reverses its delta. */
  lemma DeleteFound(db: Db, id: ObjectId, userId: ObjectId, i: nat)
    requires FindOwned(db.entries, id, userId) == Some(i)
    ensures i < |db.entries|
    ensures Delete(db, id, userId, NoFault)
         == (Db(IncBalance(db.accounts, db.entries[i].accountId, -Signed(db.entries[i])), RemoveAt(db.entries, i)),
             Success(Some(db.entries[i])))
  {
    var r := Delete(db, id, userId, NoFault);
    assert r.1.Success? && r.1.value.Some?;
  }

  lemma RemoveAppended<T>(s: seq<T>, x: T)
    ensures RemoveAt(s + [x], |s|) == s
  {
    assert (s + [x])[..|s|] == s;
  }

  lemma FindOwnedAppended(entries: seq<Entry>, e: Entry)
    requires !HasEntry(entries, e.id)
    ensures FindOwned(entries + [e], e.id, e.userId) == Some(|entries|)
  {
    var es := entries + [e];
    assert Targets(es[|entries|], e.id, e.userId);
    assert forall j :: 0 <= j < |entries| ==> es[j] == entries[j] && !Targets(es[j], e.id, e.userId);
    assert FindOwned(es, e.id, e.userId).Some?;
  }

  /** Deleting the entry `create` just made, as its owner, restores the state exactly: every balance and every entry. */
  lemma CreateThenDeleteRestores(db: Db, data: Draft, newId: ObjectId, fault: Fault)
    requires Create(db, data, newId, fault).1.Success?
    ensures var (db1, r) := Create(db, data, newId, fault);
      Delete(db1, newId, r.value.userId, NoFault) == (db, Success(Some(r.value)))
  {
    var e := Create(db, data, newId, fault).1.value;
    DeleteUndoesAppend(db, e);
  }

  /**
   * Without the side condition the invariant fails: `create` on an account id that does not
   * exist still inserts the entry, while the balance update finds nothing to change.
   */
  lemma CreateOnMissingAccountBreaksConsistency()
    ensures var db := Db([], []);
      var data := Draft(Some("income"), Some(5), Some("aaaaaaaaaaaa"), Some("aaaaaaaaaaaa"),
                        Some(0), None, Some("aaaaaaaaaaaa"));
      var (db1, r) := Create(db, data, ObjectId([0, 0, 0, 0, 0, 0, 0, 0, 0, 0, 0, 0]), NoFault);
      && Consistent(db, map[])
      && r.Success?
      && !Consistent(db1, map[])
  {
    var s := "aaaaaaaaaaaa";
    assert IsByteString(s);
    var data := Draft(Some("income"), Some(5), Some(s), Some(s), Some(0), None, Some(s));
    var (db1, r) := Create(Db([], []), data, ObjectId([0, 0, 0, 0, 0, 0, 0, 0, 0, 0, 0, 0]), NoFault);
    assert r.Success?;
    assert |db1.entries| == 1 && |db1.accounts| == 0;
    assert !AccountExists(db1.accounts, db1.entries[0].accountId);
  }

  /** Opening a new account extends the invariant, with the account's balance as its opening balance. */
  lemma CreateAccountPreservesConsistency(
    db: Db, opening: map<ObjectId, int>, userId: ObjectId, dto: AccountDto.CreateAccountDto, newId: ObjectId)
    requires Consistent(db, opening)
    requires Accounts.CreateAccount(db.accounts, userId, dto, newId).Success?
    ensures var store := Accounts.CreateAccount(db.accounts, userId, dto, newId).value.0;
      Consistent(db.(accounts := store), opening[newId := store[|db.accounts|].balance])
  {
    var store := Accounts.CreateAccount(db.accounts, userId, dto, newId).value.0;
    var opening' := opening[newId := store[|db.accounts|].balance];
    assert !Accounts.HasId(db.accounts, newId);
    forall i | 0 <= i < |db.entries| ensures db.entries[i].accountId != newId {
      assert AccountExists(db.accounts, db.entries[i].accountId);
    }
    SumForUnused(db.entries, newId);
    forall i | 0 <= i < |db.entries| ensures AccountExists(store, db.entries[i].accountId) {
      assert AccountExists(db.accounts, db.entries[i].accountId);
      var k :| 0 <= k < |db.accounts| && db.accounts[k].id == db.entries[i].accountId;
      assert store[k] == db.accounts[k];
    }
    forall k | 0 <= k < |store|
      ensures store[k].id in opening'
      ensures store[k].balance == opening'[store[k].id] + SumFor(db.entries, store[k].id)
    {
      if k < |db.accounts| {
        assert store[k] == db.accounts[k];
        assert store[k].id != newId;
      }
    }
  }

  /** Deleting an account keeps the invariant when no entry is on that account. */
  lemma DeleteAccountPreservesConsistency(db: Db, opening: map<ObjectId, int>, userId: ObjectId, accountId: ObjectId)
    requires Consistent(db, opening)
    requires forall i :: 0 <= i < |db.entries| ==> db.entries[i].accountId != accountId
    requires Accounts.DeleteAccount(db.accounts, userId, accountId).Success?
    ensures Consistent(db.(accounts := Accounts.DeleteAccount(db.accounts, userId, accountId).value), opening)
  {
    var rest := Accounts.DeleteAccount(db.accounts, userId, accountId).value;
    var j :| 0 <= j < |db.accounts| && multiset(rest) + multiset{db.accounts[j]} == multiset(db.accounts);
    forall a | a in rest ensures a in db.accounts {
      assert a in multiset(db.accounts);
    }
    forall i | 0 <= i < |db.entries| ensures AccountExists(rest, db.entries[i].accountId) {
      KeptAccountExists(db.accounts, rest, accountId, db.entries[i].accountId);
    }
    KeptAccountsConsistent(db, opening, rest);
  }

  /** An account other than the deleted one is still there after the delete. */
  lemma KeptAccountExists(accounts: seq<Accounts.Account>, rest: seq<Accounts.Account>, gone: ObjectId, x: ObjectId)
    requires forall a :: a in accounts && a.id != gone ==> a in rest
    requires AccountExists(accounts, x) && x != gone
    ensures AccountExists(rest, x)
  {
    var k :| 0 <= k < |accounts| && accounts[k].id == x;
    assert accounts[k] in rest;
    var k' :| 0 <= k' < |rest| && rest[k'] == accounts[k];
  }

  /** Keeping only some of the accounts keeps the invariant as long as every entry's account stays. */
  lemma KeptAccountsConsistent(db: Db, opening: map<ObjectId, int>, rest: seq<Accounts.Account>)
    requires Consistent(db, opening)
    requires forall a :: a in rest ==> a in db.accounts
    requires forall i :: 0 <= i < |db.entries| ==> AccountExists(rest, db.entries[i].accountId)
    ensures Consistent(db.(accounts := rest), opening)
  {
    forall k | 0 <= k < |rest|
      ensures rest[k].id in opening
      ensures rest[k].balance == opening[rest[k].id] + SumFor(db.entries, rest[k].id)
    {
      assert rest[k] in db.accounts;
      var m :| 0 <= m < |db.accounts| && db.accounts[m] == rest[k];
    }
  }

  /** Deleting an account that still has entries breaks the invariant: those entries lose their account. */
  lemma DeleteAccountWithEntriesBreaksConsistency(
    db: Db, opening: map<ObjectId, int>, userId: ObjectId, accountId: ObjectId, i: nat)
    requires Accounts.UniqueIds(db.accounts)
    requires i < |db.entries| && db.entries[i].accountId == accountId
    requires Accounts.DeleteAccount(db.accounts, userId, accountId).Success?
    ensures !Consistent(db.(accounts := Accounts.DeleteAccount(db.accounts, userId, accountId).value), opening)
  {
    var rest := Accounts.DeleteAccount(db.accounts, userId, accountId).value;
    assert !Accounts.HasId(rest, accountId);
    assert !AccountExists(rest, db.entries[i].accountId);
  }
}
