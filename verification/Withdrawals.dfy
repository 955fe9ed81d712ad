/** A withdrawal desk: the payout table of one kind of account (operators or
    agents) together with the request handlers that are still running on it.
    A request reads the account's credit, then what is already reserved, then
    inserts its row, so other work may happen between any two of its statements. */
module Withdrawals {
  import opened Money
  import opened Tally

  datatype Status = Pending | Approved | Paid | Rejected

  datatype Claim = Claim(account: nat, amount: int, status: Status)

  /** How far a running request has come. */
  datatype Stage = Opened | Priced(credit: int) | Cleared | Closed

  datatype Flight = Flight(account: nat, amount: int, stage: Stage)

  datatype Desk = Desk(claims: seq<Claim>, flights: seq<Flight>)

  datatype DeskStep =
    | Open(account: nat, amount: int)
    | ReadCredit(flight: nat)
    | ReadReserved(flight: nat)
    | Insert(flight: nat)
    | Approve(claim: nat)
    | Reject(claim: nat)
    | MarkPaid(claim: nat)

  /** Operator payouts may be rejected after approval, agent requests may not. */
  datatype Rules = OperatorRules | AgentRules

  predicate Rejectable(rules: Rules, status: Status) {
    status == Pending || (rules == OperatorRules && status == Approved)
  }

  /** What a row withholds from the balance: everything not rejected does. */
  function Holding(c: Claim): Entry {
    Entry(c.account, if c.status == Rejected then 0 else c.amount)
  }

  function Holdings(claims: seq<Claim>): (rows: seq<Entry>)
    ensures |rows| == |claims|
    ensures forall i :: 0 <= i < |claims| ==> rows[i] == Holding(claims[i])
  {
    seq(|claims|, i requires 0 <= i < |claims| => Holding(claims[i]))
  }

  function Reserved(claims: seq<Claim>, account: nat): int {
    Of(Holdings(claims), account)
  }

  /** The sum of an account's rows in one status. */
  function SumIn(claims: seq<Claim>, account: nat, status: Status): int {
    if claims == [] then 0
    else
      var last := claims[|claims| - 1];
      SumIn(claims[..|claims| - 1], account, status) +
        if last.account == account && last.status == status then last.amount else 0
  }

  /** What the balance queries ask for: SUM(amount_ugx) over the rows of an account that are
      pending, approved or paid. */
  function TiedUp(claims: seq<Claim>, account: nat): int {
    SumIn(claims, account, Pending) + SumIn(claims, account, Approved) + SumIn(claims, account, Paid)
  }

  /** The sum of all rows in one status. */
  function TotalIn(claims: seq<Claim>, status: Status): int {
    if claims == [] then 0
    else
      var last := claims[|claims| - 1];
      TotalIn(claims[..|claims| - 1], status) + if last.status == status then last.amount else 0
  }

  /** Everything promised or paid out. */
  function AllTiedUp(claims: seq<Claim>): int {
    TotalIn(claims, Pending) + TotalIn(claims, Approved) + TotalIn(claims, Paid)
  }

  /** Money counts as spoken for while its row is pending, approved or paid, and only then. */
  lemma {:induction false} ReservedIsTiedUp(claims: seq<Claim>, account: nat)
    ensures Reserved(claims, account) == TiedUp(claims, account)
    ensures Total(Holdings(claims)) == AllTiedUp(claims)
  {
    if claims != [] {
      var n := |claims| - 1;
      ReservedIsTiedUp(claims[..n], account);
      assert Holdings(claims)[..n] == Holdings(claims[..n]);
    }
  }

  predicate Live(f: Flight) {
    !f.stage.Closed?
  }

  function WithStage(d: Desk, i: nat, stage: Stage): Desk
    requires i < |d.flights|
  {
    d.(flights := d.flights[i := d.flights[i].(stage := stage)])
  }

  function WithStatus(d: Desk, id: nat, status: Status): Desk
    requires id < |d.claims|
  {
    d.(claims := d.claims[id := d.claims[id].(status := status)])
  }

  /** One atomic statement. `credit` is what each account has earned at that moment. */
  function Next(d: Desk, step: DeskStep, credit: nat -> int, rules: Rules): Desk {
    match step
    case Open(account, amount) =>
      if amount < MIN_PAYOUT then d else d.(flights := d.flights + [Flight(account, amount, Opened)])
    case ReadCredit(i) =>
      if i < |d.flights| && d.flights[i].stage.Opened? then
        WithStage(d, i, Priced(credit(d.flights[i].account)))
      else d
    case ReadReserved(i) =>
      if i < |d.flights| && d.flights[i].stage.Priced? then
        var f := d.flights[i];
        var available := AgentAvailable(f.stage.credit, Reserved(d.claims, f.account));
        WithStage(d, i, if f.amount > available then Closed else Cleared)
      else d
    case Insert(i) =>
      if i < |d.flights| && d.flights[i].stage.Cleared? then
        var f := d.flights[i];
        WithStage(d, i, Closed).(claims := d.claims + [Claim(f.account, f.amount, Pending)])
      else d
    case Approve(id) =>
      if id < |d.claims| && d.claims[id].status == Pending then WithStatus(d, id, Approved) else d
    case Reject(id) =>
      if id < |d.claims| && Rejectable(rules, d.claims[id].status) then WithStatus(d, id, Rejected) else d
    case MarkPaid(id) =>
      if id < |d.claims| && d.claims[id].status == Approved then WithStatus(d, id, Paid) else d
  }

  /** At most one running request per account. */
  predicate Serial(d: Desk, step: DeskStep) {
    step.Open? ==> forall i :: 0 <= i < |d.flights| && Live(d.flights[i]) ==> d.flights[i].account != step.account
  }

  ghost predicate Solvent(d: Desk, credit: nat -> int) {
    forall k: nat :: Reserved(d.claims, k) <= credit(k)
  }

  predicate OneLivePerAccount(d: Desk) {
    forall i, j :: 0 <= i < j < |d.flights| && Live(d.flights[i]) && Live(d.flights[j])
                   ==> d.flights[i].account != d.flights[j].account
  }

  predicate FloorRespected(d: Desk) {
    && (forall i :: 0 <= i < |d.claims| ==> d.claims[i].amount >= MIN_PAYOUT)
    && (forall i :: 0 <= i < |d.flights| ==> d.flights[i].amount >= MIN_PAYOUT)
  }

  /** What a running request may rely on: its reading of the credit is not above
      the present credit, and once cleared its amount still fits. */
  predicate Trusty(d: Desk, f: Flight, credit: nat -> int) {
    match f.stage
    case Opened => true
    case Priced(c) => c <= credit(f.account)
    case Cleared => f.amount + Reserved(d.claims, f.account) <= credit(f.account)
    case Closed => true
  }

  ghost predicate Inv(d: Desk, credit: nat -> int) {
    && Solvent(d, credit)
    && OneLivePerAccount(d)
    && FloorRespected(d)
    && (forall i :: 0 <= i < |d.flights| ==> Trusty(d, d.flights[i], credit))
  }

  lemma ReservedAfterInsert(claims: seq<Claim>, c: Claim)
    ensures forall k: nat ::
              Reserved(claims + [c], k) == Reserved(claims, k) + if c.account == k then Holding(c).amount else 0
    ensures Total(Holdings(claims + [c])) == Total(Holdings(claims)) + Holding(c).amount
  {
    assert Holdings(claims + [c]) == Holdings(claims) + [Holding(c)];
    Append(Holdings(claims), Holding(c));
  }

  lemma ReservedAfterStatus(claims: seq<Claim>, id: nat, status: Status)
    requires id < |claims|
    ensures var claims' := claims[id := claims[id].(status := status)];
            forall k: nat ::
              Reserved(claims', k) == Reserved(claims, k) +
                if claims[id].account == k then Holding(claims'[id]).amount - Holding(claims[id]).amount else 0
  {
    var claims' := claims[id := claims[id].(status := status)];
    assert Holdings(claims') == Holdings(claims)[id := Holding(claims'[id])];
    Amend(Holdings(claims), id, Holding(claims'[id]).amount);
  }

  predicate Inserts(d: Desk, step: DeskStep, account: nat) {
    step.Insert? && step.flight < |d.flights| && d.flights[step.flight].stage.Cleared?
      && d.flights[step.flight].account == account
  }

  predicate Rejects(d: Desk, step: DeskStep, account: nat, rules: Rules) {
    && step.Reject? && step.claim < |d.claims| && d.claims[step.claim].account == account
    && (d.claims[step.claim].status == Pending
        || (rules == OperatorRules && d.claims[step.claim].status == Approved))
  }

  /** Guarantee: approving and paying move no account's reserved sum, an insert raises its own
      account's by its amount, a rejection gives its own account exactly its amount back. */
  lemma ReservedMoves(d: Desk, step: DeskStep, credit: nat -> int, rules: Rules)
    ensures var d' := Next(d, step, credit, rules);
            forall k: nat ::
              TiedUp(d'.claims, k) == TiedUp(d.claims, k)
                + (if Inserts(d, step, k) then d.flights[step.flight].amount else 0)
                - (if Rejects(d, step, k, rules) then d.claims[step.claim].amount else 0)
    ensures forall k: nat :: Reserved(d.claims, k) == TiedUp(d.claims, k)
    ensures forall k: nat ::
              Reserved(Next(d, step, credit, rules).claims, k) == TiedUp(Next(d, step, credit, rules).claims, k)
  {
    var d' := Next(d, step, credit, rules);
    match step {
      case Insert(i) =>
        if i < |d.flights| && d.flights[i].stage.Cleared? {
          ReservedAfterInsert(d.claims, Claim(d.flights[i].account, d.flights[i].amount, Pending));
        }
      case Approve(id) => if id < |d.claims| { ReservedAfterStatus(d.claims, id, Approved); }
      case Reject(id) => if id < |d.claims| { ReservedAfterStatus(d.claims, id, Rejected); }
      case MarkPaid(id) => if id < |d.claims| { ReservedAfterStatus(d.claims, id, Paid); }
      case _ =>
    }
    forall k: nat
      ensures Reserved(d.claims, k) == TiedUp(d.claims, k) && Reserved(d'.claims, k) == TiedUp(d'.claims, k)
    {
      ReservedIsTiedUp(d.claims, k);
      ReservedIsTiedUp(d'.claims, k);
    }
  }

  lemma InsertKeepsInv(d: Desk, k: nat, credit: nat -> int, rules: Rules)
    requires Inv(d, credit) && k < |d.flights| && d.flights[k].stage.Cleared?
    ensures Inv(Next(d, Insert(k), credit, rules), credit)
  {
    var d' := Next(d, Insert(k), credit, rules);
    ReservedMoves(d, Insert(k), credit, rules);
    assert Trusty(d, d.flights[k], credit);
    assert forall i :: 0 <= i < |d'.flights| && i != k ==> d'.flights[i] == d.flights[i];
    forall i | 0 <= i < |d'.flights| ensures Trusty(d', d'.flights[i], credit) {
      if i != k {
        assert Trusty(d, d.flights[i], credit);
      }
    }
  }

  /** Every other statement leaves a running request at least the room it had. */
  lemma OthersStayTrusty(d: Desk, step: DeskStep, credit: nat -> int, rules: Rules, i: nat)
    requires Inv(d, credit) && i < |d.flights|
    requires forall k: nat :: !Inserts(d, step, k)
    ensures Trusty(Next(d, step, credit, rules), Next(d, step, credit, rules).flights[i], credit)
  {
    var k := d.flights[i].account;
    ReservedMoves(d, step, credit, rules);
    assert Trusty(d, d.flights[i], credit);
    assert Reserved(Next(d, step, credit, rules).claims, k) <= Reserved(d.claims, k);
  }

  /** Every statement keeps the desk's invariant, whatever runs in between. */
  lemma StepKeepsInv(d: Desk, step: DeskStep, credit: nat -> int, rules: Rules)
    requires Inv(d, credit) && Serial(d, step)
    ensures Inv(Next(d, step, credit, rules), credit)
  {
    if step.Insert? && step.flight < |d.flights| && d.flights[step.flight].stage.Cleared? {
      InsertKeepsInv(d, step.flight, credit, rules);
    } else {
      var d' := Next(d, step, credit, rules);
      ReservedMoves(d, step, credit, rules);
      forall i | 0 <= i < |d'.flights| ensures Trusty(d', d'.flights[i], credit) {
        if i < |d.flights| {
          OthersStayTrusty(d, step, credit, rules, i);
        }
      }
    }
  }

  /** Rely: earning more credit never breaks the invariant. */
  lemma MoreCreditKeepsInv(d: Desk, credit: nat -> int, credit': nat -> int)
    requires Inv(d, credit)
    requires forall k: nat :: credit(k) <= credit'(k)
    ensures Inv(d, credit')
  {
    forall i | 0 <= i < |d.flights| ensures Trusty(d, d.flights[i], credit') {
      assert Trusty(d, d.flights[i], credit);
    }
  }

  /** Without the one-at-a-time assumption an insert keeps the desk solvent exactly
      when the amount fits the balance at the moment of the insert. */
  lemma InsertSolventIff(d: Desk, i: nat, credit: nat -> int, rules: Rules)
    requires Solvent(d, credit) && FloorRespected(d)
    requires i < |d.flights| && d.flights[i].stage.Cleared?
    ensures Solvent(Next(d, Insert(i), credit, rules), credit)
            <==>
            d.flights[i].amount <=
              AgentAvailable(credit(d.flights[i].account), Reserved(d.claims, d.flights[i].account))
  {
    var f := d.flights[i];
    var d' := Next(d, Insert(i), credit, rules);
    ReservedAfterInsert(d.claims, Claim(f.account, f.amount, Pending));
    assert Reserved(d'.claims, f.account) == Reserved(d.claims, f.account) + f.amount;
  }

  /** Two overlapping requests on one account can both clear against the same balance. */
  lemma OverlapOverdraws(credit: nat -> int, rules: Rules)
    requires credit(0) == 6000
    ensures var asked := Next(Next(Desk([], []), Open(0, 6000), credit, rules), Open(0, 6000), credit, rules);
            var first := Next(Next(asked, ReadCredit(0), credit, rules), ReadReserved(0), credit, rules);
            var second := Next(Next(first, ReadCredit(1), credit, rules), ReadReserved(1), credit, rules);
            var done := Next(Next(second, Insert(0), credit, rules), Insert(1), credit, rules);
            Reserved(done.claims, 0) == 12000 && !Solvent(done, credit)
  {
    var asked := Next(Next(Desk([], []), Open(0, 6000), credit, rules), Open(0, 6000), credit, rules);
    var first := Next(Next(asked, ReadCredit(0), credit, rules), ReadReserved(0), credit, rules);
    assert first == Desk([], [Flight(0, 6000, Cleared), Flight(0, 6000, Opened)]);
    var second := Next(Next(first, ReadCredit(1), credit, rules), ReadReserved(1), credit, rules);
    assert second == Desk([], [Flight(0, 6000, Cleared), Flight(0, 6000, Cleared)]);
    ReservedAfterInsert([], Claim(0, 6000, Pending));
    ReservedAfterInsert([Claim(0, 6000, Pending)], Claim(0, 6000, Pending));
    var done := Next(Next(second, Insert(0), credit, rules), Insert(1), credit, rules);
    assert done.claims == [Claim(0, 6000, Pending)] + [Claim(0, 6000, Pending)];
    assert Reserved([], 0) == 0;
  }

  /** The four statements of a request with nothing in between. */
  function Requested(d: Desk, account: nat, amount: int, credit: nat -> int, rules: Rules): Desk {
    var n := |d.flights|;
    var priced := Next(Next(d, Open(account, amount), credit, rules), ReadCredit(n), credit, rules);
    Next(Next(priced, ReadReserved(n), credit, rules), Insert(n), credit, rules)
  }

  /** Left to itself, a request adds its pending row exactly when the amount is at least 5,000 and
      fits what is left of the credit, and changes no other row. */
  lemma RequestAlone(d: Desk, account: nat, amount: int, credit: nat -> int, rules: Rules)
    ensures Requested(d, account, amount, credit, rules).claims
              == if 5000 <= amount <= credit(account) - TiedUp(d.claims, account)
                 then d.claims + [Claim(account, amount, Pending)] else d.claims
  {
    ReservedIsTiedUp(d.claims, account);
  }

  /** Requested, approved and marked in a row, a payout that fits ends as paid, through each status
      once; no review touches it any more. */
  lemma PaidInARow(d: Desk, account: nat, amount: int, credit: nat -> int, rules: Rules)
    requires 5000 <= amount <= credit(account) - TiedUp(d.claims, account)
    ensures var id, requested := |d.claims|, Requested(d, account, amount, credit, rules);
            var approved := Next(requested, Approve(id), credit, rules);
            var paid := Next(approved, MarkPaid(id), credit, rules);
            && requested.claims == d.claims + [Claim(account, amount, Pending)]
            && approved.claims == d.claims + [Claim(account, amount, Approved)]
            && paid.claims == d.claims + [Claim(account, amount, Paid)]
            && Next(paid, Approve(id), credit, rules) == paid
            && Next(paid, Reject(id), credit, rules) == paid
            && Next(paid, MarkPaid(id), credit, rules) == paid
  {
    RequestAlone(d, account, amount, credit, rules);
  }

  // ----- the life of a claim

  predicate Forward(rules: Rules, a: Status, b: Status) {
    match a
    case Pending => true
    case Approved => b == Approved || b == Paid || (rules == OperatorRules && b == Rejected)
    case Paid => b == Paid
    case Rejected => b == Rejected
  }

  /** Rows are never dropped or rewritten: only the status moves, and only forward. */
  predicate Progressed(rules: Rules, before: seq<Claim>, after: seq<Claim>) {
    && |before| <= |after|
    && forall i :: 0 <= i < |before| ==>
         && after[i].account == before[i].account
         && after[i].amount == before[i].amount
         && Forward(rules, before[i].status, after[i].status)
  }

  /** A row of either table, before and after a statement: its status becomes approved exactly
      by approving it while pending, paid exactly by marking it while approved, rejected exactly by
      rejecting it while that is allowed, and stays what it is otherwise. */
  predicate RowMoves(rules: Rules, step: DeskStep, id: nat, before: Status, after: Status) {
    after == if step == Approve(id) && before == Pending then Approved
             else if step == MarkPaid(id) && before == Approved then Paid
             else if step == Reject(id) && (before == Pending || (rules == OperatorRules && before == Approved))
             then Rejected
             else before
  }

  lemma StepProgresses(d: Desk, step: DeskStep, credit: nat -> int, rules: Rules)
    ensures var after := Next(d, step, credit, rules).claims;
            && Progressed(rules, d.claims, after)
            && (forall i :: 0 <= i < |d.claims| ==> RowMoves(rules, step, i, d.claims[i].status, after[i].status))
            && (forall i :: |d.claims| <= i < |after| ==> after[i].status == Pending)
  {
  }
}
