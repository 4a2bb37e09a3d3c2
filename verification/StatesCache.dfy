/**
 The position cache as the program keeps it: its methods change the user records and the cToken totals in place.
 */
module StatesCache {

  import opened Basics
  import opened UserStates
  import EventSync

  function EmptyOf(records: map<Address, Reserve>): set<Address> {
    set a | a in records && Empty(records[a])
  }

  lemma WithoutEmpty(records: map<Address, Reserve>)
    ensures records - EmptyOf(records) == TrimRecords(records)
  {
  }

  class States {
    var users: Users
    var ctokens: map<Address, CToken>
    var lastUpdate: int

    constructor (users: Users, ctokens: map<Address, CToken>, lastUpdate: int)
      ensures View() == Cache(users, ctokens) && this.lastUpdate == lastUpdate
    {
      this.users, this.ctokens, this.lastUpdate := users, ctokens, lastUpdate;
    }

    function View(): Cache
      reads this
    {
      Cache(users, ctokens)
    }

    /** Returns 1 when the record was there and 2 when it, or the user, is new. */
    method CheckUserAndReserve(user: Address, reserve: Address) returns (change: ChangeType)
      modifies this`users
      ensures users == WithRecord(old(users), user, reserve)
      ensures change == Change(old(users), user, reserve)
    {
      change := 1;
      if user !in users {
        users := users[user := map[]];
        change := 2;
      }
      if reserve !in users[user] {
        users := users[user := users[user][reserve := NEW_RESERVE]];
        change := 2;
      }
      assert users == WithRecord(old(users), user, reserve);
    }

    method AddCollateral(user: Address, reserve: Address, amount: int)
      requires user in users && reserve in users[user]
      modifies this`users
      ensures users == AddCol(old(users), user, reserve, amount)
    {
      var record := users[user][reserve];
      users := users[user := users[user][reserve := record.(colAmount := record.colAmount + amount)]];
    }

    method ChangeSupply(reserve: Address, amount: int) returns (raised: bool)
      modifies this`ctokens
      ensures raised <==> reserve !in old(ctokens)
      ensures raised ==> ctokens == old(ctokens)
      ensures !raised ==> View() == AddSupply(old(View()), reserve, amount)
    {
      raised := reserve !in ctokens;
      if !raised {
        var t := ctokens[reserve];
        ctokens := ctokens[reserve := t.(totalSupply := t.totalSupply + amount)];
      }
    }

    /** A transfer from or to the cToken's own account changes the supply. */
    method ChangeSupplies(reserve: Address, from: Address, to: Address, amount: int) returns (raised: bool)
      modifies this`ctokens
      ensures raised <==> (from == reserve || to == reserve) && reserve !in old(ctokens)
      ensures ctokens == if raised || (from != reserve && to != reserve) then old(ctokens)
                         else AddSupply(old(View()), reserve, SupplyDelta(reserve, from, to, amount)).ctokens
    {
      raised := false;
      if from == reserve {
        raised := ChangeSupply(reserve, amount);
        if raised { return; }
      }
      if to == reserve {
        raised := ChangeSupply(reserve, -amount);
      }
    }

    method OnTransfer(reserve: Address, from: Address, to: Address, amount: int)
      returns (raised: bool, changed: map<Address, ChangeType>)
      modifies this`users, this`ctokens
      ensures Outcome(View(), raised, changed) == ApplyTransfer(old(View()), reserve, from, to, amount)
    {
      changed := map[];
      var change1 := CheckUserAndReserve(from, reserve);
      var change2 := CheckUserAndReserve(to, reserve);
      raised := ChangeSupplies(reserve, from, to, amount);
      if raised { return; }
      TransferApplied(old(View()), reserve, from, to, amount, ctokens);
      AddCollateral(from, reserve, -amount);
      AddCollateral(to, reserve, amount);
      changed := map[from := change1][to := change2];
    }

    /** Borrow and RepayBorrow run the same assignments. */
    method OnDebt(reserve: Address, borrower: Address, debt: nat, totalBorrow: nat)
      returns (raised: bool, changed: map<Address, ChangeType>)
      modifies this`users, this`ctokens
      ensures Outcome(View(), raised, changed) == ApplyDebt(old(View()), reserve, borrower, debt, totalBorrow)
    {
      changed := map[];
      var change := CheckUserAndReserve(borrower, reserve);
      var record := users[borrower][reserve].(debtAmount := debt);
      users := users[borrower := users[borrower][reserve := record]];
      raised := reserve !in ctokens;
      if raised { return; }
      var t := ctokens[reserve];
      ghost var owed := users;
      users := users[borrower := users[borrower][reserve := record.(debtInterest := t.borrowIndex)]];
      ctokens := ctokens[reserve := t.(totalBorrow := totalBorrow)];
      changed := map[borrower := change];
      assert owed[borrower][reserve := record.(debtInterest := t.borrowIndex)]
          == WithRecord(old(users), borrower, reserve)[borrower][reserve := record.(debtInterest := t.borrowIndex)];
    }

    method Update(log: Log) returns (raised: bool, changed: map<Address, ChangeType>)
      modifies this`users, this`ctokens
      ensures Outcome(View(), raised, changed) == UserStates.Update(old(View()), log)
    {
      raised, changed := false, map[];
      if log.removed { return; }
      var reserve := log.address;
      match log.event {
        case Unknown =>
        case Ignored =>
        case Malformed => raised := true;
        case Transfer(from, to, amount) => raised, changed := OnTransfer(reserve, from, to, amount);
        case RepayBorrow(borrower, debt, total) => raised, changed := OnDebt(reserve, borrower, debt, total);
        case Borrow(borrower, debt, total) => raised, changed := OnDebt(reserve, borrower, debt, total);
        case AccrueInterest(interest, index, total) =>
          raised := reserve !in ctokens;
          if !raised {
            var t := ctokens[reserve].(borrowIndex := index);
            t := t.(totalBorrow := total);
            t := t.(totalReserve := t.totalReserve + FloorDiv(t.reserveFactor * interest, EXP_SCALE));
            ctokens := ctokens[reserve := t];
          }
        case ReservesChanged(total) =>
          raised := reserve !in ctokens;
          if !raised {
            ctokens := ctokens[reserve := ctokens[reserve].(totalReserve := total)];
          }
      }
    }

    /** Marks the empty records of every user, then drops them. */
    method Trim()
      modifies this`users
      ensures View() == UserStates.Trim(old(View()))
    {
      var marked := MarkEmpty();
      var rest := users.Keys;
      while rest != {}
        invariant rest <= users.Keys && users.Keys == old(users.Keys)
        invariant forall u :: u in rest ==> users[u] == old(users)[u]
        invariant forall u :: u in users && u !in rest ==> users[u] == TrimRecords(old(users)[u])
        decreases |rest|
      {
        var user :| user in rest;
        WithoutEmpty(users[user]);
        users := users[user := users[user] - marked[user]];
        rest := rest - {user};
      }
    }

    method MarkEmpty() returns (marked: map<Address, set<Address>>)
      ensures marked.Keys == users.Keys
      ensures forall u :: u in marked ==> marked[u] == EmptyOf(users[u])
    {
      marked := map[];
      var rest := users.Keys;
      while rest != {}
        invariant rest <= users.Keys && marked.Keys == users.Keys - rest
        invariant forall u :: u in marked ==> marked[u] == EmptyOf(users[u])
        decreases |rest|
      {
        var user :| user in rest;
        marked := marked[user := EmptyOf(users[user])];
        rest := rest - {user};
      }
    }

    /** `query_events_loop_liq` over this cache. */
    method QueryEventsLoop(target: int, chain: EventSync.Chain, fails: nat -> bool) returns (ending: EventSync.Ending)
      modifies this
      ensures EventSync.Attempted(EventSync.Sync(View(), lastUpdate), ending)
           == EventSync.Attempt(EventSync.Sync(old(View()), old(lastUpdate)), target, chain, fails, 0)
    {
      ghost var start := EventSync.Sync(View(), lastUpdate);
      var fetch := 0;
      while lastUpdate < target
        invariant EventSync.Attempt(EventSync.Sync(View(), lastUpdate), target, chain, fails, fetch)
               == EventSync.Attempt(start, target, chain, fails, 0)
        decreases target - lastUpdate
      {
        var fromBlock := lastUpdate + 1;
        var toBlock := fromBlock + EventSync.WINDOW_SPAN;
        if toBlock > target {
          toBlock := target;
        }
        if fails(fetch) {
          ending := EventSync.FetchFailed;
          return;
        }
        var logs := EventSync.LogsIn(chain, fromBlock, toBlock);
        var raised := UpdateAll(logs);
        if raised {
          ending := EventSync.UpdateRaised;
          return;
        }
        lastUpdate := toBlock;
        fetch := fetch + 1;
      }
      ending := EventSync.Reached;
    }

    /** The inner loop over the logs of one window. */
    method UpdateAll(logs: seq<Log>) returns (raised: bool)
      modifies this`users, this`ctokens
      ensures View() == EventSync.ApplyLogs(old(View()), logs).cache
      ensures raised == EventSync.ApplyLogs(old(View()), logs).raised
    {
      var i := 0;
      raised := false;
      while i < |logs|
        invariant 0 <= i <= |logs|
        invariant EventSync.ApplyLogs(View(), logs[i..]) == EventSync.ApplyLogs(old(View()), logs)
      {
        assert logs[i..][0] == logs[i] && logs[i..][1..] == logs[i + 1..];
        var changed;
        raised, changed := Update(logs[i]);
        if raised { return; }
        i := i + 1;
      }
    }
  }
}
