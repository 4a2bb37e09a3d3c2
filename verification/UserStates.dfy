/**
 The cache of on-chain positions: replaying the event logs of the cTokens, dropping empty records, and the
 conservation of balances in every run. Addresses are numbers; a cToken's own account is a user like any other.
 */
module UserStates {

  import opened Basics

  datatype Address = Address(number: nat)

  datatype Reserve = Reserve(colAmount: int, debtAmount: int, debtInterest: int)

  const NEW_RESERVE := Reserve(0, 0, 0)

  datatype CToken = CToken(borrowIndex: int, reserveFactor: int, totalReserve: int, totalBorrow: int, totalSupply: int)

  type Users = map<Address, map<Address, Reserve>>

  datatype Cache = Cache(users: Users, ctokens: map<Address, CToken>)

  /** The events the cache knows, with the arguments it uses; Ignored ones are known but change nothing. */
  datatype Event =
    | Transfer(from: Address, to: Address, amount: nat)
    | RepayBorrow(borrower: Address, accountBorrows: nat, totalBorrows: nat)
    | Borrow(borrower: Address, accountBorrows: nat, totalBorrows: nat)
    | AccrueInterest(interestAccumulated: nat, borrowIndex: nat, totalBorrows: nat)
    | ReservesChanged(newTotalReserves: nat)
    | Ignored
    | Unknown
    | Malformed

  datatype Log = Log(removed: bool, address: Address, event: Event)

  /** 1 for a user and record that existed, 2 for a new one. */
  type ChangeType = int

  /** The cache after a log, whether handling it raised, and the users it changed. */
  datatype Outcome = Outcome(cache: Cache, raised: bool, changed: map<Address, ChangeType>)

  // ----- One log -----

  function RecordsOf(users: Users, user: Address): map<Address, Reserve> {
    if user in users then users[user] else map[]
  }

  /** `check_user_and_reserve`: makes sure that the user has a record for the reserve. */
  function WithRecord(users: Users, user: Address, reserve: Address): (r: Users)
    ensures user in r && reserve in r[user]
  {
    var records := RecordsOf(users, user);
    users[user := if reserve in records then records else records[reserve := NEW_RESERVE]]
  }

  function Change(users: Users, user: Address, reserve: Address): ChangeType {
    if user in users && reserve in users[user] then 1 else 2
  }

  function SetRecord(users: Users, user: Address, reserve: Address, r: Reserve): Users
    requires user in users
  {
    users[user := users[user][reserve := r]]
  }

  function AddCol(users: Users, user: Address, reserve: Address, amount: int): (r: Users)
    requires user in users && reserve in users[user]
    ensures forall u :: u in users ==> u in r && r[u].Keys == users[u].Keys
  {
    SetRecord(users, user, reserve, users[user][reserve].(colAmount := users[user][reserve].colAmount + amount))
  }

  function AddSupply(c: Cache, reserve: Address, amount: int): Cache
    requires reserve in c.ctokens
  {
    c.(ctokens := c.ctokens[reserve := c.ctokens[reserve].(totalSupply := c.ctokens[reserve].totalSupply + amount)])
  }

  /** A transfer from or to the cToken's own account mints or burns supply. */
  function SupplyDelta(reserve: Address, from: Address, to: Address, amount: int): int {
    (if from == reserve then amount else 0) - (if to == reserve then amount else 0)
  }

  function ApplyTransfer(c: Cache, reserve: Address, from: Address, to: Address, amount: int): Outcome {
    var withFrom := WithRecord(c.users, from, reserve);
    var users := WithRecord(withFrom, to, reserve);
    if (from == reserve || to == reserve) && reserve !in c.ctokens then Outcome(c.(users := users), true, map[])
    else
      var supplied := if from == reserve || to == reserve
                      then AddSupply(c, reserve, SupplyDelta(reserve, from, to, amount)) else c;
      Outcome(supplied.(users := AddCol(AddCol(users, from, reserve, -amount), to, reserve, amount)), false,
              map[from := Change(c.users, from, reserve)][to := Change(withFrom, to, reserve)])
  }

  /** A transfer that does not raise, field by field. */
  lemma TransferApplied(c: Cache, reserve: Address, from: Address, to: Address, amount: int,
                        ctokens: map<Address, CToken>)
    requires from == reserve || to == reserve ==> reserve in c.ctokens
    requires ctokens == if from != reserve && to != reserve then c.ctokens
                        else AddSupply(c, reserve, SupplyDelta(reserve, from, to, amount)).ctokens
    ensures var withFrom := WithRecord(c.users, from, reserve);
            var users := WithRecord(withFrom, to, reserve);
            ApplyTransfer(c, reserve, from, to, amount)
            == Outcome(Cache(AddCol(AddCol(users, from, reserve, -amount), to, reserve, amount), ctokens), false,
                       map[from := Change(c.users, from, reserve)][to := Change(withFrom, to, reserve)])
  {
  }

  /** Borrow and RepayBorrow: the record takes over the debt and the current index, the cToken its total. */
  function ApplyDebt(c: Cache, reserve: Address, borrower: Address, debt: nat, totalBorrow: nat): Outcome {
    var users := WithRecord(c.users, borrower, reserve);
    var owed := users[borrower][reserve].(debtAmount := debt);
    if reserve !in c.ctokens then Outcome(c.(users := SetRecord(users, borrower, reserve, owed)), true, map[])
    else
      var t := c.ctokens[reserve];
      Outcome(
        Cache(SetRecord(users, borrower, reserve, owed.(debtInterest := t.borrowIndex)),
              c.ctokens[reserve := t.(totalBorrow := totalBorrow)]),
        false, map[borrower := Change(c.users, borrower, reserve)])
  }

  function UpdateCToken(c: Cache, reserve: Address, t: CToken): Outcome {
    Outcome(c.(ctokens := c.ctokens[reserve := t]), false, map[])
  }

  /** `States.update`. */
  function Update(c: Cache, log: Log): Outcome {
    var reserve := log.address;
    if log.removed then Outcome(c, false, map[])
    else
      match log.event
      case Unknown => Outcome(c, false, map[])
      case Malformed => Outcome(c, true, map[])
      case Ignored => Outcome(c, false, map[])
      case Transfer(from, to, amount) => ApplyTransfer(c, reserve, from, to, amount)
      case RepayBorrow(borrower, debt, total) => ApplyDebt(c, reserve, borrower, debt, total)
      case Borrow(borrower, debt, total) => ApplyDebt(c, reserve, borrower, debt, total)
      case AccrueInterest(interest, index, total) =>
        if reserve !in c.ctokens then Outcome(c, true, map[])
        else
          var t := c.ctokens[reserve];
          UpdateCToken(c, reserve, t.(borrowIndex := index, totalBorrow := total,
                                      totalReserve := t.totalReserve + FloorDiv(t.reserveFactor * interest, EXP_SCALE)))
      case ReservesChanged(total) =>
        if reserve !in c.ctokens then Outcome(c, true, map[])
        else UpdateCToken(c, reserve, c.ctokens[reserve].(totalReserve := total))
  }

  /** The guard of the failing branches: a malformed log, or one that needs a cToken the cache does not hold. */
  predicate Raises(ctokens: set<Address>, log: Log) {
    && !log.removed
    && match log.event
       case Malformed => true
       case Unknown => false
       case Ignored => false
       case Transfer(from, to, _) => (from == log.address || to == log.address) && log.address !in ctokens
       case _ => log.address !in ctokens
  }

  /** Handling a log raises exactly when the guard says so, and never changes which cTokens the cache holds. */
  lemma UpdateRaisesIff(c: Cache, log: Log)
    ensures Update(c, log).raised <==> Raises(c.ctokens.Keys, log)
    ensures Update(c, log).cache.ctokens.Keys == c.ctokens.Keys
  {
  }

  // ----- Dropping empty records -----

  predicate Empty(r: Reserve) {
    r.colAmount == 0 && r.debtAmount == 0
  }

  function TrimRecords(records: map<Address, Reserve>): map<Address, Reserve> {
    map a | a in records && !Empty(records[a]) :: records[a]
  }

  /** `States.trim`: empty records go; a user stays even without records, because the user object is never falsy. */
  function Trim(c: Cache): Cache {
    c.(users := map u | u in c.users :: TrimRecords(c.users[u]))
  }

  // ----- Balances -----

  function Col(users: Users, user: Address, reserve: Address): int {
    if user in users && reserve in users[user] then users[user][reserve].colAmount else 0
  }

  /** The sum of a function over a set of users. */
  ghost function SumOver(holders: set<Address>, f: Address -> int): int
    decreases |holders|
  {
    if holders == {} then 0
    else
      var u :| u in holders;
      f(u) + SumOver(holders - {u}, f)
  }

  lemma {:induction false} SumSplit(holders: set<Address>, f: Address -> int, u: Address)
    requires u in holders
    ensures SumOver(holders, f) == f(u) + SumOver(holders - {u}, f)
    decreases |holders|
  {
    var p :| p in holders && SumOver(holders, f) == f(p) + SumOver(holders - {p}, f);
    if p != u {
      SumSplit(holders - {p}, f, u);
      SumSplit(holders - {u}, f, p);
      assert holders - {p} - {u} == holders - {u} - {p};
    }
  }

  lemma {:induction false} SumAgree(holders: set<Address>, f: Address -> int, g: Address -> int)
    requires forall u :: u in holders ==> f(u) == g(u)
    ensures SumOver(holders, f) == SumOver(holders, g)
    decreases |holders|
  {
    if holders != {} {
      var u :| u in holders;
      SumSplit(holders, f, u);
      SumSplit(holders, g, u);
      SumAgree(holders - {u}, f, g);
    }
  }

  function ColOf(users: Users, reserve: Address): Address -> int {
    u => Col(users, u, reserve)
  }

  /** The balances of all users in one cToken, the cToken's own account included. */
  ghost function TotalCol(users: Users, reserve: Address): int {
    SumOver(users.Keys, ColOf(users, reserve))
  }

  /** Users without a balance may be counted or not. */
  lemma {:induction false} SumIgnoresZeros(holders: set<Address>, more: set<Address>, f: Address -> int)
    requires forall u :: u in more && u !in holders ==> f(u) == 0
    ensures SumOver(holders + more, f) == SumOver(holders, f)
    decreases |more|
  {
    if more == {} {
      assert holders + more == holders;
    } else {
      var u :| u in more;
      SumIgnoresZeros(holders, more - {u}, f);
      if u in holders {
        assert holders + more == holders + (more - {u});
      } else {
        SumSplit(holders + more, f, u);
        assert holders + more - {u} == holders + (more - {u});
      }
    }
  }

  /** Moving an amount from one holder to another keeps the sum. */
  lemma SumKeptByMove(holders: set<Address>, f: Address -> int, g: Address -> int, from: Address, to: Address,
      amount: int)
    requires from in holders && to in holders
    requires forall u :: u in holders ==> g(u) == f(u) + Received(from, to, amount, u)
    ensures SumOver(holders, g) == SumOver(holders, f)
  {
    if from == to {
      SumAgree(holders, f, g);
    } else {
      var others := holders - {from};
      SumSplit(holders, f, from);
      SumSplit(holders, g, from);
      SumSplit(others, f, to);
      SumSplit(others, g, to);
      SumAgree(others - {to}, f, g);
    }
  }

  function Received(from: Address, to: Address, amount: int, user: Address): int {
    (if user == to then amount else 0) - (if user == from then amount else 0)
  }

  /** What a log does to the balance of a user: nothing unless it is a transfer of that cToken that is applied. */
  function Net(ctokens: set<Address>, log: Log, user: Address, reserve: Address): int {
    if log.address == reserve && !log.removed && !Raises(ctokens, log) && log.event.Transfer?
    then Received(log.event.from, log.event.to, log.event.amount, user)
    else 0
  }

  lemma NewRecordHoldsNothing(users: Users, u: Address, r: Address, user: Address, reserve: Address)
    ensures Col(WithRecord(users, u, r), user, reserve) == Col(users, user, reserve)
  {
  }

  lemma AddColMoves(users: Users, u: Address, r: Address, amount: int, user: Address, reserve: Address)
    requires u in users && r in users[u]
    ensures Col(AddCol(users, u, r, amount), user, reserve)
         == Col(users, user, reserve) + if user == u && reserve == r then amount else 0
  {
  }

  lemma DebtMovesNothing(c: Cache, r: Address, borrower: Address, debt: nat, total: nat, user: Address,
      reserve: Address)
    ensures Col(ApplyDebt(c, r, borrower, debt, total).cache.users, user, reserve) == Col(c.users, user, reserve)
  {
    NewRecordHoldsNothing(c.users, borrower, r, user, reserve);
  }

  lemma TransferMoves(c: Cache, r: Address, from: Address, to: Address, amount: int, user: Address, reserve: Address)
    ensures var o := ApplyTransfer(c, r, from, to, amount);
            Col(o.cache.users, user, reserve) == Col(c.users, user, reserve)
              + if reserve == r && !o.raised then Received(from, to, amount, user) else 0
  {
    var withFrom := WithRecord(c.users, from, r);
    var users := WithRecord(withFrom, to, r);
    NewRecordHoldsNothing(c.users, from, r, user, reserve);
    NewRecordHoldsNothing(withFrom, to, r, user, reserve);
    AddColMoves(users, from, r, -amount, user, reserve);
    AddColMoves(AddCol(users, from, r, -amount), to, r, amount, user, reserve);
  }

  lemma UpdateMovesNet(c: Cache, log: Log, user: Address, reserve: Address)
    ensures Col(Update(c, log).cache.users, user, reserve)
         == Col(c.users, user, reserve) + Net(c.ctokens.Keys, log, user, reserve)
  {
    if !log.removed {
      match log.event
      case Transfer(from, to, amount) => TransferMoves(c, log.address, from, to, amount, user, reserve);
      case RepayBorrow(b, debt, total) => DebtMovesNothing(c, log.address, b, debt, total, user, reserve);
      case Borrow(b, debt, total) => DebtMovesNothing(c, log.address, b, debt, total, user, reserve);
      case _ =>
    }
  }

  lemma UpdateKeepsUsers(c: Cache, log: Log)
    ensures c.users.Keys <= Update(c, log).cache.users.Keys
    ensures log.event.Transfer? && !log.removed ==>
      log.event.from in Update(c, log).cache.users && log.event.to in Update(c, log).cache.users
  {
  }

  lemma UpdateKeepsTotal(c: Cache, log: Log, reserve: Address)
    ensures TotalCol(Update(c, log).cache.users, reserve) == TotalCol(c.users, reserve)
  {
    var after := Update(c, log).cache.users;
    var f, g := ColOf(c.users, reserve), ColOf(after, reserve);
    UpdateKeepsUsers(c, log);
    assert c.users.Keys + after.Keys == after.Keys;
    SumIgnoresZeros(c.users.Keys, after.Keys, f);
    forall u ensures g(u) == f(u) + Net(c.ctokens.Keys, log, u, reserve) {
      UpdateMovesNet(c, log, u, reserve);
    }
    if log.event.Transfer? && !log.removed {
      var moved := if log.address == reserve && !Raises(c.ctokens.Keys, log) then log.event.amount else 0;
      SumKeptByMove(after.Keys, f, g, log.event.from, log.event.to, moved);
    } else {
      SumAgree(after.Keys, f, g);
    }
  }

  // ----- Conservation -----

  /** Balances cancel out in every cToken, and what a cToken's own account lacks is the supply. */
  ghost predicate Conserved(c: Cache) {
    && (forall r :: TotalCol(c.users, r) == 0)
    && (forall r :: r in c.ctokens ==> c.ctokens[r].totalSupply == -Col(c.users, r, r))
  }

  /** So the supply is exactly what all the others hold. */
  lemma SupplyIsHeldByOthers(c: Cache, reserve: Address)
    requires Conserved(c) && reserve in c.ctokens
    ensures c.ctokens[reserve].totalSupply == SumOver(c.users.Keys - {reserve}, ColOf(c.users, reserve))
  {
    assert TotalCol(c.users, reserve) == 0;
    if reserve in c.users {
      SumSplit(c.users.Keys, ColOf(c.users, reserve), reserve);
    } else {
      assert c.users.Keys - {reserve} == c.users.Keys;
    }
  }

  lemma UpdateMovesSupply(c: Cache, log: Log, reserve: Address)
    requires reserve in c.ctokens
    ensures reserve in Update(c, log).cache.ctokens
    ensures Update(c, log).cache.ctokens[reserve].totalSupply
         == c.ctokens[reserve].totalSupply - Net(c.ctokens.Keys, log, reserve, reserve)
  {
  }

  lemma UpdateKeepsConserved(c: Cache, log: Log)
    requires Conserved(c)
    ensures Conserved(Update(c, log).cache)
  {
    var after := Update(c, log).cache;
    UpdateRaisesIff(c, log);
    forall r ensures TotalCol(after.users, r) == 0 {
      UpdateKeepsTotal(c, log, r);
      assert TotalCol(c.users, r) == 0;
    }
    forall r | r in after.ctokens ensures after.ctokens[r].totalSupply == -Col(after.users, r, r) {
      UpdateMovesSupply(c, log, r);
      UpdateMovesNet(c, log, r, r);
    }
  }

  /** Trimming loses no balance and no debt, keeps every user, and leaves no empty record. */
  lemma TrimDropsOnlyEmpty(c: Cache, user: Address, reserve: Address)
    ensures Trim(c).users.Keys == c.users.Keys && Trim(c).ctokens == c.ctokens
    ensures Col(Trim(c).users, user, reserve) == Col(c.users, user, reserve)
    ensures reserve in RecordsOf(Trim(c).users, user)
       <==> reserve in RecordsOf(c.users, user) && !Empty(c.users[user][reserve])
    ensures reserve in RecordsOf(Trim(c).users, user) ==> Trim(c).users[user][reserve] == c.users[user][reserve]
  {
  }

  lemma TrimKeepsConserved(c: Cache)
    requires Conserved(c)
    ensures Conserved(Trim(c))
  {
    assert Trim(c).users.Keys == c.users.Keys;
    forall r ensures TotalCol(Trim(c).users, r) == 0 {
      forall u ensures ColOf(Trim(c).users, r)(u) == ColOf(c.users, r)(u) {
        TrimDropsOnlyEmpty(c, u, r);
      }
      SumAgree(c.users.Keys, ColOf(Trim(c).users, r), ColOf(c.users, r));
      assert TotalCol(c.users, r) == 0;
    }
    forall r | r in c.ctokens ensures c.ctokens[r].totalSupply == -Col(Trim(c).users, r, r) {
      TrimDropsOnlyEmpty(c, r, r);
    }
  }

  // ----- Whole runs -----

  datatype Op = Replay(log: Log) | DropEmpty

  function Step(c: Cache, op: Op): Cache {
    match op
    case Replay(log) => Update(c, log).cache
    case DropEmpty => Trim(c)
  }

  function Run(c: Cache, ops: seq<Op>): Cache
    decreases |ops|
  {
    if ops == [] then c else Run(Step(c, ops[0]), ops[1..])
  }

  ghost predicate Unused(c: Cache) {
    c.users == map[] && forall r :: r in c.ctokens ==> c.ctokens[r].totalSupply == 0
  }

  lemma UnusedIsConserved(c: Cache)
    requires Unused(c)
    ensures Conserved(c)
  {
    forall r ensures TotalCol(c.users, r) == 0 {
      assert c.users.Keys == {};
    }
  }

  lemma {:induction false} RunKeepsConserved(c: Cache, ops: seq<Op>)
    requires Conserved(c)
    ensures Conserved(Run(c, ops))
    decreases |ops|
  {
    if ops != [] {
      match ops[0] {
        case Replay(log) => UpdateKeepsConserved(c, log);
        case DropEmpty => TrimKeepsConserved(c);
      }
      RunKeepsConserved(Step(c, ops[0]), ops[1..]);
    }
  }

  /** From an empty cache, whatever is replayed and trimmed, the supply is what the other accounts hold. */
  lemma EveryRunConserves(c: Cache, ops: seq<Op>, reserve: Address)
    requires Unused(c)
    ensures var end := Run(c, ops);
            && TotalCol(end.users, reserve) == 0
            && (reserve in end.ctokens ==>
                && end.ctokens[reserve].totalSupply == -Col(end.users, reserve, reserve)
                && end.ctokens[reserve].totalSupply
                   == SumOver(end.users.Keys - {reserve}, ColOf(end.users, reserve)))
  {
    UnusedIsConserved(c);
    RunKeepsConserved(c, ops);
    if reserve in Run(c, ops).ctokens {
      SupplyIsHeldByOthers(Run(c, ops), reserve);
    }
  }

  /** What the applied transfers among the operations bring a user, added up. */
  function Ledger(ctokens: set<Address>, ops: seq<Op>, user: Address, reserve: Address): int {
    if ops == [] then 0
    else
      (if ops[0].Replay? then Net(ctokens, ops[0].log, user, reserve) else 0)
      + Ledger(ctokens, ops[1..], user, reserve)
  }

  /** Each balance is the sum of the transfers to the user less those from it, trims or not. */
  lemma {:induction false} RunKeepsLedger(c: Cache, ops: seq<Op>, user: Address, reserve: Address)
    ensures Col(Run(c, ops).users, user, reserve)
         == Col(c.users, user, reserve) + Ledger(c.ctokens.Keys, ops, user, reserve)
    decreases |ops|
  {
    if ops != [] {
      match ops[0] {
        case Replay(log) =>
          UpdateMovesNet(c, log, user, reserve);
          UpdateRaisesIff(c, log);
        case DropEmpty => TrimDropsOnlyEmpty(c, user, reserve);
      }
      RunKeepsLedger(Step(c, ops[0]), ops[1..], user, reserve);
    }
  }

  function Debt(users: Users, user: Address, reserve: Address): int {
    if user in users && reserve in users[user] then users[user][reserve].debtAmount else 0
  }

  function DebtInterest(users: Users, user: Address, reserve: Address): int {
    if user in users && reserve in users[user] then users[user][reserve].debtInterest else 0
  }

  /** The debt that the latest borrow or repayment of the user reports, and `debt` before the first. */
  function Reported(log: Log, user: Address, reserve: Address, debt: int): int {
    if log.removed || log.address != reserve then debt
    else
      match log.event
      case RepayBorrow(borrower, reported, _) => if borrower == user then reported else debt
      case Borrow(borrower, reported, _) => if borrower == user then reported else debt
      case _ => debt
  }

  function LastReported(ops: seq<Op>, user: Address, reserve: Address, debt: int): int {
    if ops == [] then debt
    else
      LastReported(ops[1..], user, reserve, if ops[0].Replay? then Reported(ops[0].log, user, reserve, debt) else debt)
  }

  ghost predicate SameDebt(users: Users, users': Users, user: Address, reserve: Address) {
    && Debt(users', user, reserve) == Debt(users, user, reserve)
    && DebtInterest(users', user, reserve) == DebtInterest(users, user, reserve)
  }

  lemma TransferUsers(c: Cache, r: Address, from: Address, to: Address, amount: int, users: Users, less: Users)
    requires users == WithRecord(WithRecord(c.users, from, r), to, r) && less == AddCol(users, from, r, -amount)
    ensures ApplyTransfer(c, r, from, to, amount).cache.users
         == if ApplyTransfer(c, r, from, to, amount).raised then users else AddCol(less, to, r, amount)
  {
  }

  lemma TransferKeepsDebt(c: Cache, r: Address, from: Address, to: Address, amount: int, user: Address,
      reserve: Address)
    ensures SameDebt(c.users, ApplyTransfer(c, r, from, to, amount).cache.users, user, reserve)
  {
    var withFrom := WithRecord(c.users, from, r);
    var users := WithRecord(withFrom, to, r);
    var less := AddCol(users, from, r, -amount);
    TransferUsers(c, r, from, to, amount, users, less);
    WithRecordKeepsDebt(c.users, from, r, user, reserve);
    WithRecordKeepsDebt(withFrom, to, r, user, reserve);
    AddColKeepsDebt(users, from, r, -amount, user, reserve);
    AddColKeepsDebt(less, to, r, amount, user, reserve);
  }

  lemma WithRecordKeepsDebt(users: Users, u: Address, r: Address, user: Address, reserve: Address)
    ensures SameDebt(users, WithRecord(users, u, r), user, reserve)
  {
  }

  lemma AddColKeepsDebt(users: Users, u: Address, r: Address, amount: int, user: Address, reserve: Address)
    requires u in users && r in users[u]
    ensures SameDebt(users, AddCol(users, u, r, amount), user, reserve)
  {
  }

  lemma DebtIsReported(c: Cache, r: Address, borrower: Address, debt: nat, total: nat, user: Address, reserve: Address)
    ensures var users := ApplyDebt(c, r, borrower, debt, total).cache.users;
            if user == borrower && reserve == r
            then
              && Debt(users, user, reserve) == debt
              && (r in c.ctokens ==> DebtInterest(users, user, reserve) == c.ctokens[r].borrowIndex)
            else SameDebt(c.users, users, user, reserve)
  {
    WithRecordKeepsDebt(c.users, borrower, r, user, reserve);
  }

  lemma UpdateReportsDebt(c: Cache, log: Log, user: Address, reserve: Address)
    ensures Debt(Update(c, log).cache.users, user, reserve)
         == Reported(log, user, reserve, Debt(c.users, user, reserve))
  {
    if !log.removed {
      match log.event
      case Transfer(from, to, amount) => TransferKeepsDebt(c, log.address, from, to, amount, user, reserve);
      case RepayBorrow(b, debt, total) => DebtIsReported(c, log.address, b, debt, total, user, reserve);
      case Borrow(b, debt, total) => DebtIsReported(c, log.address, b, debt, total, user, reserve);
      case _ =>
    }
  }

  /** Each debt is the one last reported on chain; dropping empty records loses none. */
  lemma {:induction false} RunKeepsLastReported(c: Cache, ops: seq<Op>, user: Address, reserve: Address)
    ensures Debt(Run(c, ops).users, user, reserve) == LastReported(ops, user, reserve, Debt(c.users, user, reserve))
    decreases |ops|
  {
    if ops != [] {
      match ops[0] {
        case Replay(log) => UpdateReportsDebt(c, log, user, reserve);
        case DropEmpty => TrimDropsOnlyEmpty(c, user, reserve);
      }
      RunKeepsLastReported(Step(c, ops[0]), ops[1..], user, reserve);
    }
  }

  // ----- What a log touches -----

  /** The users whose records a log is about. */
  function Touched(log: Log): set<Address> {
    if log.removed then {}
    else
      match log.event
      case Transfer(from, to, _) => {from, to}
      case RepayBorrow(borrower, _, _) => {borrower}
      case Borrow(borrower, _, _) => {borrower}
      case _ => {}
  }

  /** A record as it is, if there is one. */
  function Record(users: Users, user: Address, reserve: Address): Option<Reserve> {
    if user in users && reserve in users[user] then Some(users[user][reserve]) else None
  }

  lemma WithRecordTouchesOnly(users: Users, u: Address, r: Address, user: Address, reserve: Address)
    ensures WithRecord(users, u, r).Keys == users.Keys + {u}
    ensures user != u || reserve != r ==>
              Record(WithRecord(users, u, r), user, reserve) == Record(users, user, reserve)
  {
  }

  lemma TransferTouchesOnly(c: Cache, r: Address, from: Address, to: Address, amount: int, user: Address,
      reserve: Address)
    ensures user !in {from, to} || reserve != r ==>
              Record(ApplyTransfer(c, r, from, to, amount).cache.users, user, reserve)
              == Record(c.users, user, reserve)
  {
    var withFrom := WithRecord(c.users, from, r);
    var users := WithRecord(withFrom, to, r);
    var less := AddCol(users, from, r, -amount);
    TransferUsers(c, r, from, to, amount, users, less);
    WithRecordTouchesOnly(c.users, from, r, user, reserve);
    WithRecordTouchesOnly(withFrom, to, r, user, reserve);
    AddColTouchesOnly(users, from, r, -amount, user, reserve);
    AddColTouchesOnly(less, to, r, amount, user, reserve);
  }

  lemma AddColTouchesOnly(users: Users, u: Address, r: Address, amount: int, user: Address, reserve: Address)
    requires u in users && r in users[u]
    ensures AddCol(users, u, r, amount).Keys == users.Keys
    ensures user != u || reserve != r ==>
              Record(AddCol(users, u, r, amount), user, reserve) == Record(users, user, reserve)
  {
  }

  lemma TransferAddsUsers(c: Cache, r: Address, from: Address, to: Address, amount: int)
    ensures ApplyTransfer(c, r, from, to, amount).cache.users.Keys == c.users.Keys + {from, to}
  {
    var users := WithRecord(WithRecord(c.users, from, r), to, r);
    var less := AddCol(users, from, r, -amount);
    TransferUsers(c, r, from, to, amount, users, less);
    assert users.Keys == c.users.Keys + {from, to} && less.Keys == users.Keys;
  }

  lemma DebtTouchesOnly(c: Cache, r: Address, borrower: Address, debt: nat, total: nat, user: Address,
      reserve: Address)
    ensures ApplyDebt(c, r, borrower, debt, total).cache.users.Keys == c.users.Keys + {borrower}
    ensures user != borrower || reserve != r ==>
              Record(ApplyDebt(c, r, borrower, debt, total).cache.users, user, reserve)
              == Record(c.users, user, reserve)
  {
    WithRecordTouchesOnly(c.users, borrower, r, user, reserve);
  }

  /** A log can change only the records of the users it touches, in its own reserve. */
  lemma UpdateTouchesOnly(c: Cache, log: Log, user: Address, reserve: Address)
    ensures Update(c, log).cache.users.Keys == c.users.Keys + Touched(log)
    ensures user !in Touched(log) || reserve != log.address ==>
              Record(Update(c, log).cache.users, user, reserve) == Record(c.users, user, reserve)
  {
    if !log.removed {
      match log.event
      case Transfer(from, to, amount) =>
        TransferAddsUsers(c, log.address, from, to, amount);
        TransferTouchesOnly(c, log.address, from, to, amount, user, reserve);
      case RepayBorrow(b, d, total) => DebtTouchesOnly(c, log.address, b, d, total, user, reserve);
      case Borrow(b, d, total) => DebtTouchesOnly(c, log.address, b, d, total, user, reserve);
      case _ =>
    }
  }

  /**
   A log that does not raise reports the users it touches: 2 for one that had no record in the reserve, unless the log
   names it twice, and 1 for any other. One that raises reports nobody.
   */
  lemma ChangedAreTheTouched(c: Cache, log: Log)
    ensures Update(c, log).raised ==> Update(c, log).changed == map[]
    ensures !Update(c, log).raised ==>
              && Update(c, log).changed.Keys == Touched(log)
              && forall user :: user in Touched(log) ==>
                   Update(c, log).changed[user]
                   == if log.address in RecordsOf(c.users, user) then 1
                      else if log.event.Transfer? && log.event.from == log.event.to then 1 else 2
  {
  }

  // ----- The totals of a cToken -----

  /** The last of the values that the operations set, or the one from before. */
  function Latest(ops: seq<Op>, sets: Op -> Option<int>, before: int): int
    decreases |ops|
  {
    if ops == [] then before
    else Latest(ops[1..], sets, match sets(ops[0]) case Some(v) => v case None => before)
  }

  predicate LogOf(op: Op, reserve: Address) {
    op.Replay? && !op.log.removed && op.log.address == reserve
  }

  /** An accrual sets the borrow index. */
  function IndexSet(reserve: Address): Op -> Option<int> {
    op => if LogOf(op, reserve) && op.log.event.AccrueInterest? then Some(op.log.event.borrowIndex) else None
  }

  /** An accrual, a borrow and a repayment set the total borrowed. */
  function BorrowSet(reserve: Address): Op -> Option<int> {
    op =>
      if !LogOf(op, reserve) then None
      else
        match op.log.event
        case AccrueInterest(_, _, total) => Some(total)
        case Borrow(_, _, total) => Some(total)
        case RepayBorrow(_, _, total) => Some(total)
        case _ => None
  }

  /** The total that is set, or the reserve factor's share of the interest accrued added to the one from before. */
  function ReserveAfter(op: Op, reserve: Address, factor: int, total: int): int {
    if !LogOf(op, reserve) then total
    else
      match op.log.event
      case ReservesChanged(newTotal) => newTotal
      case AccrueInterest(interest, _, _) => total + FloorDiv(factor * interest, EXP_SCALE)
      case _ => total
  }

  /** The total last set, and the reserve factor's share of the interest accrued since. */
  function ReservesAfter(ops: seq<Op>, reserve: Address, factor: int, total: int): int
    decreases |ops|
  {
    if ops == [] then total
    else ReservesAfter(ops[1..], reserve, factor, ReserveAfter(ops[0], reserve, factor, total))
  }

  lemma StepKeepsTotals(c: Cache, op: Op, reserve: Address)
    requires reserve in c.ctokens
    ensures reserve in Step(c, op).ctokens
    ensures var before, after := c.ctokens[reserve], Step(c, op).ctokens[reserve];
            && after.borrowIndex == (match IndexSet(reserve)(op) case Some(v) => v case None => before.borrowIndex)
            && after.totalBorrow == (match BorrowSet(reserve)(op) case Some(v) => v case None => before.totalBorrow)
            && after.totalReserve == ReserveAfter(op, reserve, before.reserveFactor, before.totalReserve)
            && after.reserveFactor == before.reserveFactor
  {
  }

  lemma {:induction false} RunKeepsTotals(c: Cache, ops: seq<Op>, reserve: Address)
    requires reserve in c.ctokens
    ensures reserve in Run(c, ops).ctokens
    ensures var before, after := c.ctokens[reserve], Run(c, ops).ctokens[reserve];
            && after.borrowIndex == Latest(ops, IndexSet(reserve), before.borrowIndex)
            && after.totalBorrow == Latest(ops, BorrowSet(reserve), before.totalBorrow)
            && after.totalReserve == ReservesAfter(ops, reserve, before.reserveFactor, before.totalReserve)
            && after.reserveFactor == before.reserveFactor
    decreases |ops|
  {
    if ops != [] {
      StepKeepsTotals(c, ops[0], reserve);
      RunKeepsTotals(Step(c, ops[0]), ops[1..], reserve);
    }
  }

  /** The index in force when the user last borrowed or repaid. */
  function DebtIndex(ops: seq<Op>, user: Address, reserve: Address, index: int, before: int): int
    decreases |ops|
  {
    if ops == [] then before
    else
      var now := match IndexSet(reserve)(ops[0]) case Some(v) => v case None => index;
      var debt := if LogOf(ops[0], reserve) && (ops[0].log.event.Borrow? || ops[0].log.event.RepayBorrow?)
                     && ops[0].log.event.borrower == user then index else before;
      DebtIndex(ops[1..], user, reserve, now, debt)
  }

  /** Each debt bears the index in force at the latest borrow or repayment, so that interest accrues from there. */
  lemma {:induction false} RunKeepsDebtIndex(c: Cache, ops: seq<Op>, user: Address, reserve: Address, before: int)
    requires reserve in c.ctokens
    requires Debt(c.users, user, reserve) != 0 ==> DebtInterest(c.users, user, reserve) == before
    ensures Debt(Run(c, ops).users, user, reserve) != 0 ==>
              DebtInterest(Run(c, ops).users, user, reserve)
              == DebtIndex(ops, user, reserve, c.ctokens[reserve].borrowIndex, before)
    decreases |ops|
  {
    if ops != [] {
      var now := match IndexSet(reserve)(ops[0]) case Some(v) => v case None => c.ctokens[reserve].borrowIndex;
      var debt := if LogOf(ops[0], reserve) && (ops[0].log.event.Borrow? || ops[0].log.event.RepayBorrow?)
                     && ops[0].log.event.borrower == user then c.ctokens[reserve].borrowIndex else before;
      StepKeepsDebtIndex(c, ops[0], user, reserve, before, now, debt);
      RunKeepsDebtIndex(Step(c, ops[0]), ops[1..], user, reserve, debt);
    }
  }

  lemma StepKeepsDebtIndex(c: Cache, op: Op, user: Address, reserve: Address, before: int, now: int, debt: int)
    requires reserve in c.ctokens
    requires Debt(c.users, user, reserve) != 0 ==> DebtInterest(c.users, user, reserve) == before
    requires now == match IndexSet(reserve)(op) case Some(v) => v case None => c.ctokens[reserve].borrowIndex
    requires debt == if LogOf(op, reserve) && (op.log.event.Borrow? || op.log.event.RepayBorrow?)
                        && op.log.event.borrower == user then c.ctokens[reserve].borrowIndex else before
    ensures reserve in Step(c, op).ctokens && Step(c, op).ctokens[reserve].borrowIndex == now
    ensures Debt(Step(c, op).users, user, reserve) != 0 ==> DebtInterest(Step(c, op).users, user, reserve) == debt
  {
    if op.Replay? && !op.log.removed {
      match op.log.event
      case Transfer(from, to, amount) => TransferKeepsDebt(c, op.log.address, from, to, amount, user, reserve);
      case RepayBorrow(b, d, total) => DebtIsReported(c, op.log.address, b, d, total, user, reserve);
      case Borrow(b, d, total) => DebtIsReported(c, op.log.address, b, d, total, user, reserve);
      case _ =>
    }
  }

  // ----- Users without records -----

  /** What trimming is for: no user is kept without a record. */
  ghost predicate NoBareUser(c: Cache) {
    forall u :: u in c.users ==> c.users[u] != map[]
  }

  ghost predicate HoldsSomething(c: Cache, user: Address) {
    exists r :: r in RecordsOf(c.users, user) && !Empty(c.users[user][r])
  }

  lemma BareAfterTrimIff(c: Cache, user: Address)
    requires user in c.users
    ensures user in Trim(c).users
    ensures Trim(c).users[user] == map[] <==> !HoldsSomething(c, user)
  {
    if HoldsSomething(c, user) {
      var r :| r in RecordsOf(c.users, user) && !Empty(c.users[user][r]);
      assert r in Trim(c).users[user];
    } else {
      assert forall r :: r !in Trim(c).users[user];
    }
  }

  /** Trimming leaves no user without records if and only if every user held something before. */
  lemma TrimLeavesNoBareUserIff(c: Cache)
    ensures NoBareUser(Trim(c)) <==> forall u :: u in c.users ==> HoldsSomething(c, u)
  {
    forall u | u in c.users ensures u in Trim(c).users && (Trim(c).users[u] == map[] <==> !HoldsSomething(c, u)) {
      BareAfterTrimIff(c, u);
    }
  }

  /** By the logs replayed, the user has neither a balance nor a debt in the reserve. */
  predicate Settled(ctokens: set<Address>, ops: seq<Op>, user: Address, reserve: Address) {
    Ledger(ctokens, ops, user, reserve) == 0 && LastReported(ops, user, reserve, 0) == 0
  }

  lemma SettledIff(c: Cache, ops: seq<Op>, user: Address, reserve: Address)
    requires Unused(c)
    ensures Settled(c.ctokens.Keys, ops, user, reserve)
       <==> reserve in RecordsOf(Run(c, ops).users, user) ==> Empty(Run(c, ops).users[user][reserve])
  {
    RunKeepsLedger(c, ops, user, reserve);
    RunKeepsLastReported(c, ops, user, reserve);
  }

  /** In a run from an empty cache, the users kept without records are those settled in every reserve. */
  lemma BareAfterRunIff(c: Cache, ops: seq<Op>, user: Address)
    requires Unused(c) && user in Run(c, ops).users
    ensures user in Trim(Run(c, ops)).users
    ensures Trim(Run(c, ops)).users[user] == map[] <==> forall r :: Settled(c.ctokens.Keys, ops, user, r)
  {
    BareAfterTrimIff(Run(c, ops), user);
    forall r
      ensures Settled(c.ctokens.Keys, ops, user, r)
         <==> r in RecordsOf(Run(c, ops).users, user) ==> Empty(Run(c, ops).users[user][r])
    {
      SettledIff(c, ops, user, r);
    }
  }

  function TwoHold(a: Address, b: Address, reserve: Address, colA: int, colB: int): Users {
    map[a := map[reserve := Reserve(colA, 0, 0)], b := map[reserve := Reserve(colB, 0, 0)]]
  }

  lemma TransferThere(c: Cache, reserve: Address, from: Address, to: Address, amount: int)
    requires c.users == map[] && from != to && from != reserve && to != reserve
    ensures ApplyTransfer(c, reserve, from, to, amount).cache.users == TwoHold(from, to, reserve, -amount, amount)
  {
    var users := WithRecord(WithRecord(c.users, from, reserve), to, reserve);
    assert users == TwoHold(from, to, reserve, 0, 0);
    assert users[from][reserve := Reserve(-amount, 0, 0)] == map[reserve := Reserve(-amount, 0, 0)];
    assert users[to][reserve := Reserve(amount, 0, 0)] == map[reserve := Reserve(amount, 0, 0)];
  }

  lemma TransferBack(c: Cache, reserve: Address, from: Address, to: Address, amount: int)
    requires from != to && from != reserve && to != reserve
    requires c.users == TwoHold(from, to, reserve, -amount, amount)
    ensures ApplyTransfer(c, reserve, to, from, amount).cache.users == TwoHold(from, to, reserve, 0, 0)
  {
    assert WithRecord(WithRecord(c.users, to, reserve), from, reserve) == c.users;
    assert c.users[to][reserve := NEW_RESERVE] == c.users[from][reserve := NEW_RESERVE] == map[reserve := NEW_RESERVE];
  }

  lemma BothTrimmed(c: Cache, reserve: Address, from: Address, to: Address)
    requires from != to && c.users == TwoHold(from, to, reserve, 0, 0)
    ensures Trim(c).users == map[from := map[], to := map[]]
  {
    assert TrimRecords(c.users[from]) == map[] && TrimRecords(c.users[to]) == map[];
  }

  lemma RunThree(c: Cache, a: Op, b: Op, d: Op)
    ensures Run(c, [a, b, d]) == Step(Step(Step(c, a), b), d)
  {
    var ops := [a, b, d];
    assert ops[1..] == [b, d] && [b, d][1..] == [d] && [d][1..] == [];
    assert Run(Step(c, a), [b, d]) == Run(Step(Step(c, a), b), [d]);
  }

  /** An amount transferred and transferred back leaves two users whom trimming keeps without records. */
  lemma TrimKeepsBareUsers(c: Cache, reserve: Address, from: Address, to: Address, amount: nat)
    requires Unused(c) && from != to && from != reserve && to != reserve
    ensures Run(c, [Replay(Log(false, reserve, Transfer(from, to, amount))),
                    Replay(Log(false, reserve, Transfer(to, from, amount))), DropEmpty]).users
         == map[from := map[], to := map[]]
  {
    var there, back := Log(false, reserve, Transfer(from, to, amount)), Log(false, reserve, Transfer(to, from, amount));
    var c1 := Update(c, there).cache;
    TransferThere(c, reserve, from, to, amount);
    TransferBack(c1, reserve, from, to, amount);
    BothTrimmed(Update(c1, back).cache, reserve, from, to);
    RunThree(c, Replay(there), Replay(back), DropEmpty);
  }
}
