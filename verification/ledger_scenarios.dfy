/** Owner isolation of `delete`, and a worked run of create, create and delete on one account. */
module LedgerScenarios {
  import opened Wrappers
  import opened ObjectIds
  import opened TransactionSchema
  import opened Ledger
  import Accounts

  /** The `_id` index of the entry collection. */
  predicate UniqueEntryIds(entries: seq<Entry>) {
    forall i, j :: 0 <= i < j < |entries| ==> entries[i].id != entries[j].id
  }

  /**
   * Deleting another owner's entry finds nothing: the result is `null` and neither the
   * entry nor any balance changes.
   */
  lemma DeleteForeignEntryIsNoop(db: Db, i: nat, userId: ObjectId, fault: Fault)
    requires UniqueEntryIds(db.entries)
    requires i < |db.entries| && db.entries[i].userId != userId
    requires fault != WriteFails
    ensures Delete(db, db.entries[i].id, userId, fault) == (db, Success(None))
  {
    var id := db.entries[i].id;
    forall j | 0 <= j < |db.entries| ensures !(db.entries[j].id == id && db.entries[j].userId == userId) {
      if j != i {
        assert db.entries[j].id != id by {
          if j < i {} else {}
        }
      }
    }
  }

  /**
   * An account opened at 100: an income of 50 brings it to 150, an expense of 30 to 120,
   * and deleting the income entry to 70, leaving only the expense entry.
   */
  lemma IncomeExpenseDeleteScenario(acct: Accounts.Account, account: string, category: string, user: string,
                                    n1: ObjectId, n2: ObjectId)
    requires acct.balance == 100
    requires FromString(account) == Some(acct.id)
    requires IsValid(category) && IsValid(user)
    requires n1 != n2
    ensures
      var income := Draft(Some("income"), Some(50), Some(category), Some(account), Some(0), None, Some(user));
      var expense := Draft(Some("expense"), Some(30), Some(category), Some(account), Some(0), None, Some(user));
      var (db1, r1) := Create(Db([acct], []), income, n1, NoFault);
      var (db2, r2) := Create(db1, expense, n2, NoFault);
      var (db3, r3) := Delete(db2, n1, Parse(user), NoFault);
      && r1.Success? && r1.value.kind == "income" && |db1.accounts| == 1 && db1.accounts[0].balance == 150
      && r2.Success? && |db2.accounts| == 1 && db2.accounts[0].balance == 120
      && r3 == Success(Some(r1.value)) && |db3.accounts| == 1 && db3.accounts[0].balance == 70
      && db3.entries == [r2.value]
  {
    var income := Draft(Some("income"), Some(50), Some(category), Some(account), Some(0), None, Some(user));
    var expense := Draft(Some("expense"), Some(30), Some(category), Some(account), Some(0), None, Some(user));
    var db0 := Db([acct], []);
    var (db1, r1) := Create(db0, income, n1, NoFault);
    assert r1.Success?;
    var e1 := r1.value;
    assert e1.accountId == acct.id && Signed(e1) == 50;
    assert db1.accounts[0].balance == 150;
    var (db2, r2) := Create(db1, expense, n2, NoFault);
    assert !HasEntry(db1.entries, n2) by {
      assert db1.entries == [e1];
    }
    assert r2.Success?;
    var e2 := r2.value;
    assert e2.accountId == acct.id && Signed(e2) == -30;
    assert db2.accounts[0].balance == 120;
    assert db2.entries == [e1, e2];
    assert FindOwned(db2.entries, n1, Parse(user)) == Some(0) by {
      assert db2.entries[0] == e1 && e1.id == n1 && e1.userId == Parse(user);
    }
    var (db3, r3) := Delete(db2, n1, Parse(user), NoFault);
    assert r3 == Success(Some(e1));
    assert db3.entries == [e2] by {
      assert Seqs.RemoveAt(db2.entries, 0) == [e2];
    }
    assert db3.accounts[0].balance == 70;
  }
}
