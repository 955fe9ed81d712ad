/** The platform's books: payments, agent commissions, operator payouts and agent
    payout requests, with every SQL statement one atomic step and any number of
    handlers in between their statements. */
module Ledger {
  import opened Money
  import opened Tally
  import opened Withdrawals

  datatype Payment = Payment(tenant: nat, amount: int, mobile: bool)

  datatype Commission = Commission(agent: nat, amount: int, settled: bool)

  /** `commissions` is keyed by payment, as UNIQUE(payment_id) makes it. */
  datatype Books = Books(
    settings: map<nat, Setting>,
    referrals: map<nat, nat>,
    payments: seq<Payment>,
    commissions: map<nat, Commission>,
    operators: Desk,
    agents: Desk)

  datatype Step =
    | Pay(tenant: nat, amount: int, mobile: bool)
    | Refer(tenant: nat, agent: nat)
    | Credit(payment: nat)
    | Settle(agent: nat)
    | AtOperatorDesk(step: DeskStep)
    | AtAgentDesk(step: DeskStep)

  function Rate(settings: map<nat, Setting>, tenant: nat): real {
    ParseCommissionRate(if tenant in settings then settings[tenant] else Absent, DEFAULT_COMMISSION_RATE)
  }

  // ----- the sums the handlers read

  /** Only mobile money is held by the platform. */
  function Takings(payments: seq<Payment>): (rows: seq<Entry>)
    ensures |rows| == |payments|
  {
    seq(|payments|, i requires 0 <= i < |payments| =>
      Entry(payments[i].tenant, if payments[i].mobile then payments[i].amount else 0))
  }

  function Gross(payments: seq<Payment>, tenant: nat): int {
    Of(Takings(payments), tenant)
  }

  /** The agent's cut of payment `i`, or nothing while no commission row exists. */
  function CutOf(commissions: map<nat, Commission>, i: nat): Entry {
    if i in commissions then Entry(commissions[i].agent, commissions[i].amount) else Entry(0, 0)
  }

  /** The commission rows of the first `n` payments. */
  function Cuts(commissions: map<nat, Commission>, n: nat): (rows: seq<Entry>)
    ensures |rows| == n
  {
    seq(n, i requires 0 <= i < n => CutOf(commissions, i))
  }

  function Earned(l: Books, agent: nat): int {
    Of(Cuts(l.commissions, |l.payments|), agent)
  }

  function OperatorCredit(l: Books): nat -> int {
    (k: nat) => Net(Gross(l.payments, k), Rate(l.settings, k))
  }

  function AgentCredit(l: Books): nat -> int {
    (k: nat) => Earned(l, k)
  }

  /** Everything paid out or promised by the platform. */
  function Outflow(l: Books): int {
    AllTiedUp(l.operators.claims) + AllTiedUp(l.agents.claims)
  }

  function Inflow(l: Books): int {
    Total(Takings(l.payments))
  }

  // ----- steps and runs

  function Initial(settings: map<nat, Setting>): Books {
    Books(settings, map[], [], map[], Desk([], []), Desk([], []))
  }

  function SettleAll(commissions: map<nat, Commission>, agent: nat): map<nat, Commission> {
    map p | p in commissions ::
      if commissions[p].agent == agent then commissions[p].(settled := true) else commissions[p]
  }

  /** Whether payment `p` gets a commission row when its credit step runs. */
  predicate Creditable(l: Books, p: nat) {
    && p < |l.payments|
    && l.payments[p].mobile
    && p !in l.commissions
    && l.payments[p].tenant in l.referrals
    && AgentCommission(l.payments[p].amount, AGENT_COMMISSION_RATE) != 0
  }

  function Next(l: Books, step: Step): Books {
    match step
    case Pay(tenant, amount, mobile) => l.(payments := l.payments + [Payment(tenant, amount, mobile)])
    case Refer(tenant, agent) =>
      if tenant in l.referrals then l else l.(referrals := l.referrals[tenant := agent])
    case Credit(p) =>
      if Creditable(l, p) then
        var pay := l.payments[p];
        l.(commissions := l.commissions[p :=
          Commission(l.referrals[pay.tenant], AgentCommission(pay.amount, AGENT_COMMISSION_RATE), false)])
      else l
    case Settle(agent) => l.(commissions := SettleAll(l.commissions, agent))
    case AtOperatorDesk(s) => l.(operators := Withdrawals.Next(l.operators, s, OperatorCredit(l), OperatorRules))
    case AtAgentDesk(s) => l.(agents := Withdrawals.Next(l.agents, s, AgentCredit(l), AgentRules))
  }

  /** Plan prices are never negative, and no account has two requests running at once. */
  predicate Admissible(l: Books, step: Step) {
    match step
    case Pay(_, amount, _) => 0 <= amount
    case AtOperatorDesk(s) => Serial(l.operators, s)
    case AtAgentDesk(s) => Serial(l.agents, s)
    case _ => true
  }

  function Run(l: Books, steps: seq<Step>): Books
    decreases |steps|
  {
    if steps == [] then l else Run(Next(l, steps[0]), steps[1..])
  }

  predicate AdmissibleRun(l: Books, steps: seq<Step>)
    decreases |steps|
  {
    steps == [] || (Admissible(l, steps[0]) && AdmissibleRun(Next(l, steps[0]), steps[1..]))
  }

  // ----- the invariant

  /** Every commission row belongs to a recorded mobile payment and is its exact cut. */
  predicate CommissionsExact(l: Books) {
    forall p :: p in l.commissions ==>
      && p < |l.payments|
      && l.payments[p].mobile
      && l.commissions[p].amount == AgentCommission(l.payments[p].amount, AGENT_COMMISSION_RATE)
  }

  predicate PricesLegal(l: Books) {
    forall i :: 0 <= i < |l.payments| ==> 0 <= l.payments[i].amount
  }

  ghost predicate Inv(l: Books) {
    && CommissionsExact(l)
    && PricesLegal(l)
    && Withdrawals.Inv(l.operators, OperatorCredit(l))
    && Withdrawals.Inv(l.agents, AgentCredit(l))
  }

  lemma GrossAfterPay(payments: seq<Payment>, p: Payment)
    ensures forall k: nat ::
              Gross(payments + [p], k) == Gross(payments, k) + if p.tenant == k && p.mobile then p.amount else 0
    ensures Total(Takings(payments + [p])) == Total(Takings(payments)) + if p.mobile then p.amount else 0
  {
    var e := Entry(p.tenant, if p.mobile then p.amount else 0);
    assert Takings(payments + [p]) == Takings(payments) + [e];
    Append(Takings(payments), e);
  }

  lemma GrossNonNegative(l: Books, k: nat)
    requires PricesLegal(l)
    ensures 0 <= Gross(l.payments, k)
  {
    NonNegative(Takings(l.payments), k);
  }

  /** A row of amount zero may carry any key. */
  lemma {:induction false} Rekey(rows: seq<Entry>, i: nat, key: nat)
    requires i < |rows| && rows[i].amount == 0
    ensures forall k: nat :: Of(rows[i := Entry(key, 0)], k) == Of(rows, k)
  {
    var n := |rows| - 1;
    if i == n {
      assert rows[i := Entry(key, 0)][..n] == rows[..n];
    } else {
      Rekey(rows[..n], i, key);
      assert rows[i := Entry(key, 0)][..n] == rows[..n][i := Entry(key, 0)];
    }
  }

  lemma EarnedAfterCredit(l: Books, p: nat)
    requires Creditable(l, p)
    ensures var l' := Next(l, Credit(p));
            && l'.commissions[p].amount > 0
            && forall k: nat ::
                 Earned(l', k) == Earned(l, k) + if l'.commissions[p].agent == k then l'.commissions[p].amount else 0
  {
    var l' := Next(l, Credit(p));
    var n := |l.payments|;
    var before, e := Cuts(l.commissions, n), CutOf(l'.commissions, p);
    var mid := before[p := Entry(e.key, 0)];
    assert Cuts(l'.commissions, n) == mid[p := mid[p].(amount := e.amount)];
    Amend(mid, p, e.amount);
    Rekey(before, p, e.key);
  }

  lemma EarnedAfterPay(l: Books, p: Payment)
    requires CommissionsExact(l)
    ensures forall k: nat :: Earned(l.(payments := l.payments + [p]), k) == Earned(l, k)
  {
    var n := |l.payments|;
    assert Cuts(l.commissions, n + 1) == Cuts(l.commissions, n) + [Entry(0, 0)];
    Append(Cuts(l.commissions, n), Entry(0, 0));
  }

  /** Settling marks exactly this agent's commissions and takes nothing from anybody's earnings. */
  lemma EarnedAfterSettle(l: Books, agent: nat)
    ensures forall k: nat :: Earned(Next(l, Settle(agent)), k) == Earned(l, k)
    ensures var after := Next(l, Settle(agent)).commissions;
            && after.Keys == l.commissions.Keys
            && forall p :: p in after ==>
                 && after[p].agent == l.commissions[p].agent && after[p].amount == l.commissions[p].amount
                 && (after[p].settled <==> l.commissions[p].settled || l.commissions[p].agent == agent)
  {
    assert Cuts(SettleAll(l.commissions, agent), |l.payments|) == Cuts(l.commissions, |l.payments|);
  }

  lemma PayRaisesCredit(l: Books, p: Payment)
    requires PricesLegal(l) && 0 <= p.amount
    ensures forall k: nat :: OperatorCredit(l)(k) <= OperatorCredit(l.(payments := l.payments + [p]))(k)
  {
    var l' := l.(payments := l.payments + [p]);
    GrossAfterPay(l.payments, p);
    forall k: nat ensures OperatorCredit(l)(k) <= OperatorCredit(l')(k) {
      GrossNonNegative(l, k);
      RateInForce(if k in l.settings then l.settings[k] else Absent);
      MoreRevenueHelps(Gross(l.payments, k), Gross(l'.payments, k), Rate(l.settings, k));
    }
  }

  lemma StepKeepsInv(l: Books, step: Step)
    requires Inv(l) && Admissible(l, step)
    ensures Inv(Next(l, step))
  {
    var l' := Next(l, step);
    match step
    case Pay(tenant, amount, mobile) =>
      PayRaisesCredit(l, Payment(tenant, amount, mobile));
      EarnedAfterPay(l, Payment(tenant, amount, mobile));
      MoreCreditKeepsInv(l.operators, OperatorCredit(l), OperatorCredit(l'));
      MoreCreditKeepsInv(l.agents, AgentCredit(l), AgentCredit(l'));
    case Refer(_, _) =>
      MoreCreditKeepsInv(l.operators, OperatorCredit(l), OperatorCredit(l'));
      MoreCreditKeepsInv(l.agents, AgentCredit(l), AgentCredit(l'));
    case Credit(p) =>
      if Creditable(l, p) {
        EarnedAfterCredit(l, p);
        MoreCreditKeepsInv(l.operators, OperatorCredit(l), OperatorCredit(l'));
        MoreCreditKeepsInv(l.agents, AgentCredit(l), AgentCredit(l'));
      }
    case Settle(agent) =>
      EarnedAfterSettle(l, agent);
      MoreCreditKeepsInv(l.operators, OperatorCredit(l), OperatorCredit(l'));
      MoreCreditKeepsInv(l.agents, AgentCredit(l), AgentCredit(l'));
    case AtOperatorDesk(s) =>
      Withdrawals.StepKeepsInv(l.operators, s, OperatorCredit(l), OperatorRules);
      MoreCreditKeepsInv(l'.operators, OperatorCredit(l), OperatorCredit(l'));
      MoreCreditKeepsInv(l.agents, AgentCredit(l), AgentCredit(l'));
    case AtAgentDesk(s) =>
      Withdrawals.StepKeepsInv(l.agents, s, AgentCredit(l), AgentRules);
      MoreCreditKeepsInv(l'.agents, AgentCredit(l), AgentCredit(l'));
      MoreCreditKeepsInv(l.operators, OperatorCredit(l), OperatorCredit(l'));
  }

  lemma InitialInv(settings: map<nat, Setting>)
    ensures Inv(Initial(settings))
  {
    var l := Initial(settings);
    forall k: nat ensures OperatorCredit(l)(k) >= 0 && AgentCredit(l)(k) >= 0 {
      RateInForce(if k in settings then settings[k] else Absent);
      CommissionIsFloor(0, Rate(settings, k));
    }
  }

  lemma {:induction false} RunKeepsInv(l: Books, steps: seq<Step>)
    requires Inv(l) && AdmissibleRun(l, steps)
    ensures Inv(Run(l, steps))
    decreases |steps|
  {
    if steps != [] {
      StepKeepsInv(l, steps[0]);
      RunKeepsInv(Next(l, steps[0]), steps[1..]);
    }
  }

  lemma {:induction false} RunKeepsSettings(l: Books, steps: seq<Step>)
    ensures Run(l, steps).settings == l.settings
    decreases |steps|
  {
    if steps != [] {
      RunKeepsSettings(Next(l, steps[0]), steps[1..]);
    }
  }

  // ----- solvency of single accounts

  /** Operator solvency under interference: pending, approved and paid payouts together never
      exceed gross less commission, so the clamp at zero never acts and the published figures balance. */
  lemma OperatorSolvency(settings: map<nat, Setting>, steps: seq<Step>, tenant: nat)
    requires AdmissibleRun(Initial(settings), steps)
    ensures var l := Run(Initial(settings), steps);
            var gross, rate, withdrawn :=
              Gross(l.payments, tenant), Rate(settings, tenant), TiedUp(l.operators.claims, tenant);
            && 0 <= withdrawn <= gross - PlatformCommission(gross, rate)
            && gross == PlatformCommission(gross, rate) + OperatorAvailable(gross, rate, withdrawn) + withdrawn
  {
    var l := Run(Initial(settings), steps);
    InitialInv(settings);
    RunKeepsInv(Initial(settings), steps);
    RunKeepsSettings(Initial(settings), steps);
    assert Withdrawals.Reserved(l.operators.claims, tenant) <= OperatorCredit(l)(tenant);
    NonNegative(Holdings(l.operators.claims), tenant);
    ReservedIsTiedUp(l.operators.claims, tenant);
  }

  /** Agent solvency: pending, approved and paid requests never exceed the commissions earned. */
  lemma AgentSolvency(settings: map<nat, Setting>, steps: seq<Step>, agent: nat)
    requires AdmissibleRun(Initial(settings), steps)
    ensures var l := Run(Initial(settings), steps);
            var reserved := TiedUp(l.agents.claims, agent);
            && 0 <= reserved <= Earned(l, agent)
            && Earned(l, agent) == AgentAvailable(Earned(l, agent), reserved) + reserved
  {
    var l := Run(Initial(settings), steps);
    InitialInv(settings);
    RunKeepsInv(Initial(settings), steps);
    assert Withdrawals.Reserved(l.agents.claims, agent) <= AgentCredit(l)(agent);
    NonNegative(Holdings(l.agents.claims), agent);
    ReservedIsTiedUp(l.agents.claims, agent);
  }

  lemma {:induction false} RunAppend(l: Books, a: seq<Step>, b: seq<Step>)
    ensures Run(l, a + b) == Run(Run(l, a), b)
    ensures AdmissibleRun(l, a + b) <==> AdmissibleRun(l, a) && AdmissibleRun(Run(l, a), b)
    decreases |a|
  {
    if a == [] {
      assert a + b == b;
    } else {
      assert (a + b)[1..] == a[1..] + b;
      RunAppend(Next(l, a[0]), a[1..], b);
    }
  }

  lemma RunOne(l: Books, a: Step)
    ensures Run(l, [a]) == Next(l, a)
    ensures AdmissibleRun(l, [a]) <==> Admissible(l, a)
  {
    assert [a][1..] == [];
  }

  /** Paid and rejected rows are final, and no row is ever lost, over whole runs. */
  lemma {:induction false} ClaimsProgress(l: Books, steps: seq<Step>)
    ensures var l' := Run(l, steps);
            && Progressed(OperatorRules, l.operators.claims, l'.operators.claims)
            && Progressed(AgentRules, l.agents.claims, l'.agents.claims)
    decreases |steps|
  {
    if steps != [] {
      var m := Next(l, steps[0]);
      ClaimsProgress(m, steps[1..]);
      if steps[0].AtOperatorDesk? {
        StepProgresses(l.operators, steps[0].step, OperatorCredit(l), OperatorRules);
      } else if steps[0].AtAgentDesk? {
        StepProgresses(l.agents, steps[0].step, AgentCredit(l), AgentRules);
      }
      var l' := Run(m, steps[1..]);
    }
  }

  function ClaimsOf(l: Books, rules: Rules): seq<Claim> {
    if rules == OperatorRules then l.operators.claims else l.agents.claims
  }

  function AtDesk(rules: Rules, s: DeskStep): Step {
    if rules == OperatorRules then AtOperatorDesk(s) else AtAgentDesk(s)
  }

  predicate HasStatus(l: Books, rules: Rules, id: nat, status: Status) {
    id < |ClaimsOf(l, rules)| && ClaimsOf(l, rules)[id].status == status
  }

  /** Statement i of the run is this review of row id, which has this status when it runs. */
  predicate Reviewed(l: Books, steps: seq<Step>, i: nat, rules: Rules, review: DeskStep, id: nat, from: Status) {
    i < |steps| && steps[i] == AtDesk(rules, review) && HasStatus(Run(l, steps[..i]), rules, id, from)
  }

  predicate ApprovedIn(l: Books, steps: seq<Step>, rules: Rules, id: nat) {
    exists i :: 0 <= i < |steps| && Reviewed(l, steps, i, rules, Approve(id), id, Pending)
  }

  lemma RunSnoc(l: Books, steps: seq<Step>)
    requires steps != []
    ensures Run(l, steps) == Next(Run(l, steps[..|steps| - 1]), steps[|steps| - 1])
  {
    var front, last := steps[..|steps| - 1], steps[|steps| - 1];
    assert steps == front + [last];
    RunAppend(l, front, [last]);
    RunOne(Run(l, front), last);
  }

  lemma StepMovesRow(l: Books, step: Step, rules: Rules, id: nat)
    requires id < |ClaimsOf(Next(l, step), rules)|
    ensures HasStatus(Next(l, step), rules, id, Approved) ==>
              HasStatus(l, rules, id, Approved)
              || (step == AtDesk(rules, Approve(id)) && HasStatus(l, rules, id, Pending))
    ensures HasStatus(Next(l, step), rules, id, Paid) ==>
              HasStatus(l, rules, id, Paid)
              || (step == AtDesk(rules, MarkPaid(id)) && HasStatus(l, rules, id, Approved))
  {
    match step
    case AtOperatorDesk(s) => StepProgresses(l.operators, s, OperatorCredit(l), OperatorRules);
    case AtAgentDesk(s) => StepProgresses(l.agents, s, AgentCredit(l), AgentRules);
    case _ =>
  }

  /** A row that is approved has been approved in the run, while it was pending. */
  lemma {:induction false} ApprovedHasCause(l: Books, steps: seq<Step>, rules: Rules, id: nat)
    requires ClaimsOf(l, rules) == [] && HasStatus(Run(l, steps), rules, id, Approved)
    ensures ApprovedIn(l, steps, rules, id)
    decreases |steps|
  {
    if steps != [] {
      var n := |steps| - 1;
      RunSnoc(l, steps);
      StepMovesRow(Run(l, steps[..n]), steps[n], rules, id);
      if HasStatus(Run(l, steps[..n]), rules, id, Approved) {
        ApprovedHasCause(l, steps[..n], rules, id);
        var i :| 0 <= i < n && Reviewed(l, steps[..n], i, rules, Approve(id), id, Pending);
        assert steps[..n][..i] == steps[..i];
        assert Reviewed(l, steps, i, rules, Approve(id), id, Pending);
      } else {
        assert Reviewed(l, steps, n, rules, Approve(id), id, Pending);
      }
    }
  }

  /** Marked paid at statement j while approved, after an approval while pending. */
  predicate PaidAt(l: Books, steps: seq<Step>, j: nat, rules: Rules, id: nat) {
    Reviewed(l, steps, j, rules, MarkPaid(id), id, Approved) && ApprovedIn(l, steps[..j], rules, id)
  }

  lemma {:induction false} PaidHasCause(l: Books, steps: seq<Step>, rules: Rules, id: nat)
    requires ClaimsOf(l, rules) == [] && HasStatus(Run(l, steps), rules, id, Paid)
    ensures exists j :: 0 <= j < |steps| && PaidAt(l, steps, j, rules, id)
    decreases |steps|
  {
    if steps != [] {
      var n := |steps| - 1;
      RunSnoc(l, steps);
      StepMovesRow(Run(l, steps[..n]), steps[n], rules, id);
      if HasStatus(Run(l, steps[..n]), rules, id, Paid) {
        PaidHasCause(l, steps[..n], rules, id);
        var j :| 0 <= j < n && PaidAt(l, steps[..n], j, rules, id);
        assert steps[..n][..j] == steps[..j];
        assert PaidAt(l, steps, j, rules, id);
      } else {
        ApprovedHasCause(l, steps[..n], rules, id);
        assert PaidAt(l, steps, n, rules, id);
      }
    }
  }

  lemma PaidStays(l: Books, steps: seq<Step>, j: nat, rules: Rules, id: nat)
    requires PaidAt(l, steps, j, rules, id)
    ensures HasStatus(Run(l, steps), rules, id, Paid)
  {
    var upTo := steps[..j + 1];
    assert upTo[..j] == steps[..j] && upTo[j] == steps[j];
    RunSnoc(l, upTo);
    assert HasStatus(Run(l, upTo), rules, id, Paid);
    assert steps == upTo + steps[j + 1..];
    RunAppend(l, upTo, steps[j + 1..]);
    ClaimsProgress(Run(l, upTo), steps[j + 1..]);
  }

  /** Over any run of either table, a row is paid if and only if it was approved while pending and
      after that marked paid while approved. */
  lemma PaidIff(settings: map<nat, Setting>, steps: seq<Step>, rules: Rules, id: nat)
    ensures HasStatus(Run(Initial(settings), steps), rules, id, Paid) <==>
              exists j :: 0 <= j < |steps| && PaidAt(Initial(settings), steps, j, rules, id)
  {
    var l := Initial(settings);
    if HasStatus(Run(l, steps), rules, id, Paid) {
      PaidHasCause(l, steps, rules, id);
    }
    if j :| 0 <= j < |steps| && PaidAt(l, steps, j, rules, id) {
      PaidStays(l, steps, j, rules, id);
    }
  }

  // ----- solvency of the platform

  predicate RatesCoverAgents(settings: map<nat, Setting>) {
    forall k :: k in settings ==> AGENT_COMMISSION_RATE <= Rate(settings, k)
  }

  /** What agents would get if every mobile payment earned its cut. */
  function FullCuts(payments: seq<Payment>): (rows: seq<Entry>)
    ensures |rows| == |payments|
  {
    seq(|payments|, i requires 0 <= i < |payments| =>
      Entry(payments[i].tenant,
            if payments[i].mobile then AgentCommission(payments[i].amount, AGENT_COMMISSION_RATE) else 0))
  }

  lemma {:induction false} CutsWithinFullCuts(commissions: map<nat, Commission>, payments: seq<Payment>, n: nat)
    requires n <= |payments|
    requires forall p :: p in commissions && p < n ==>
               payments[p].mobile && commissions[p].amount == AgentCommission(payments[p].amount, AGENT_COMMISSION_RATE)
    ensures Total(Cuts(commissions, n)) <= Total(FullCuts(payments[..n]))
  {
    if n > 0 {
      CutsWithinFullCuts(commissions, payments, n - 1);
      assert Cuts(commissions, n)[..n - 1] == Cuts(commissions, n - 1);
      assert FullCuts(payments[..n])[..n - 1] == FullCuts(payments[..n - 1]);
    }
  }

  /** A tenant's agent cuts, each truncated by itself, fit in the fee truncated once. */
  lemma {:induction false} TenantFundsItsAgent(payments: seq<Payment>, tenant: nat, rate: real)
    requires LegalRate(rate) && AGENT_COMMISSION_RATE <= rate
    requires forall i :: 0 <= i < |payments| ==> 0 <= payments[i].amount
    ensures 0 <= Gross(payments, tenant)
    ensures Of(FullCuts(payments), tenant) <= PlatformCommission(Gross(payments, tenant), rate)
  {
    if payments == [] {
      CommissionIsFloor(0, rate);
    } else {
      var front, last := payments[..|payments| - 1], payments[|payments| - 1];
      assert payments == front + [last];
      TenantFundsItsAgent(front, tenant, rate);
      GrossAfterPay(front, last);
      assert FullCuts(payments)[..|front|] == FullCuts(front);
      AgentCutFunded(last.amount, rate);
      CommissionSplit(Gross(front, tenant), last.amount, rate);
    }
  }

  lemma {:induction false} TenantsFundTheirAgents(l: Books, keys: seq<nat>)
    requires Inv(l) && (forall k: nat :: AGENT_COMMISSION_RATE <= Rate(l.settings, k))
    ensures OverGroups(Holdings(l.operators.claims), keys) + OverGroups(FullCuts(l.payments), keys)
            <= OverGroups(Takings(l.payments), keys)
  {
    if keys != [] {
      var k := keys[|keys| - 1];
      TenantsFundTheirAgents(l, keys[..|keys| - 1]);
      RateInForce(if k in l.settings then l.settings[k] else Absent);
      TenantFundsItsAgent(l.payments, k, Rate(l.settings, k));
      assert Withdrawals.Reserved(l.operators.claims, k) <= OperatorCredit(l)(k);
    }
  }

  lemma {:induction false} AgentsWithinEarnings(l: Books, keys: seq<nat>)
    requires Inv(l)
    ensures OverGroups(Holdings(l.agents.claims), keys) <= OverGroups(Cuts(l.commissions, |l.payments|), keys)
  {
    if keys != [] {
      var k := keys[|keys| - 1];
      AgentsWithinEarnings(l, keys[..|keys| - 1]);
      assert Withdrawals.Reserved(l.agents.claims, k) <= AgentCredit(l)(k);
    }
  }

  lemma SolventState(l: Books)
    requires Inv(l) && (forall k: nat :: AGENT_COMMISSION_RATE <= Rate(l.settings, k))
    ensures Outflow(l) <= Inflow(l)
  {
    var tenants := CommonKeys(Holdings(l.operators.claims), Takings(l.payments));
    TenantsFundTheirAgents(l, tenants);
    GroupsAddUp(Holdings(l.operators.claims), tenants);
    GroupsAddUp(Takings(l.payments), tenants);
    forall i | 0 <= i < |l.payments| ensures FullCuts(l.payments)[i].key in tenants {
      assert Takings(l.payments)[i].key in tenants;
    }
    GroupsAddUp(FullCuts(l.payments), tenants);
    var agents := CommonKeys(Holdings(l.agents.claims), Cuts(l.commissions, |l.payments|));
    AgentsWithinEarnings(l, agents);
    GroupsAddUp(Holdings(l.agents.claims), agents);
    GroupsAddUp(Cuts(l.commissions, |l.payments|), agents);
    CutsWithinFullCuts(l.commissions, l.payments, |l.payments|);
    assert l.payments[..|l.payments|] == l.payments;
    ReservedIsTiedUp(l.operators.claims, 0);
    ReservedIsTiedUp(l.agents.claims, 0);
  }

  lemma RunTwo(l: Books, a: Step, b: Step)
    ensures Run(l, [a, b]) == Next(Next(l, a), b)
    ensures AdmissibleRun(l, [a, b]) <==> Admissible(l, a) && Admissible(Next(l, a), b)
  {
    assert [a, b][1..] == [b];
    RunOne(Next(l, a), b);
  }

  lemma RunFour(l: Books, a: Step, b: Step, c: Step, d: Step)
    ensures Run(l, [a, b, c, d]) == Next(Next(Next(Next(l, a), b), c), d)
    ensures AdmissibleRun(l, [a, b, c, d]) <==>
              && Admissible(l, a) && Admissible(Next(l, a), b)
              && Admissible(Next(Next(l, a), b), c) && Admissible(Next(Next(Next(l, a), b), c), d)
  {
    assert [a, b, c, d] == [a, b] + [c, d];
    RunAppend(l, [a, b], [c, d]);
    RunTwo(l, a, b);
    RunTwo(Next(Next(l, a), b), c, d);
  }

  /** One mobile payment of 200,000 UGX and its commission, for a referred tenant. */
  lemma EarnOnce(settings: map<nat, Setting>, tenant: nat) returns (steps: seq<Step>, l: Books)
    ensures AdmissibleRun(Initial(settings), steps) && l == Run(Initial(settings), steps)
    ensures l.settings == settings && l.operators == Desk([], []) && l.agents == Desk([], [])
    ensures Gross(l.payments, tenant) == Inflow(l) == 200000 && Earned(l, 0) == 6000
  {
    var l0 := Initial(settings);
    var l2 := Next(Next(l0, Refer(tenant, 0)), Pay(tenant, 200000, true));
    steps := [Refer(tenant, 0), Pay(tenant, 200000, true)] + [Credit(0)];
    RunTwo(l0, Refer(tenant, 0), Pay(tenant, 200000, true));
    RunOne(l2, Credit(0));
    RunAppend(l0, [Refer(tenant, 0), Pay(tenant, 200000, true)], [Credit(0)]);
    l := Next(l2, Credit(0));
    GrossAfterPay([], Payment(tenant, 200000, true));
    assert l.payments == [] + [Payment(tenant, 200000, true)];
    assert Gross([], tenant) == 0 && Total(Takings([])) == 0;
    assert AgentCommission(200000, AGENT_COMMISSION_RATE) == 6000;
    assert Cuts(l.commissions, 1) == [] + [Entry(0, 6000)];
    Append([], Entry(0, 6000));
  }

  /** A withdrawal that fits, on a desk nobody else is using. */
  lemma WithdrawOnce(l: Books, operator: bool, account: nat, amount: int) returns (steps: seq<Step>, l': Books)
    requires 5000 <= amount
    requires if operator then l.operators == Desk([], []) && amount == OperatorCredit(l)(account)
             else l.agents == Desk([], []) && amount == AgentCredit(l)(account)
    ensures AdmissibleRun(l, steps) && l' == Run(l, steps)
    ensures l' == (if operator then l.(operators := l'.operators) else l.(agents := l'.agents))
    ensures (if operator then l'.operators else l'.agents).claims == [Claim(account, amount, Pending)]
  {
    var a, b, c, d := Open(account, amount), ReadCredit(0), ReadReserved(0), Insert(0);
    var desk := Desk([], []);
    assert Withdrawals.Reserved([], account) == 0;
    if operator {
      RequestAlone(desk, account, amount, OperatorCredit(l), OperatorRules);
      steps := [AtOperatorDesk(a), AtOperatorDesk(b), AtOperatorDesk(c), AtOperatorDesk(d)];
      RunFour(l, AtOperatorDesk(a), AtOperatorDesk(b), AtOperatorDesk(c), AtOperatorDesk(d));
    } else {
      RequestAlone(desk, account, amount, AgentCredit(l), AgentRules);
      steps := [AtAgentDesk(a), AtAgentDesk(b), AtAgentDesk(c), AtAgentDesk(d)];
      RunFour(l, AtAgentDesk(a), AtAgentDesk(b), AtAgentDesk(c), AtAgentDesk(d));
    }
    l' := Run(l, steps);
  }

  /** Below the agents' rate an operator and its agent can together withdraw more than came in. */
  lemma LowRateRun(settings: map<nat, Setting>, tenant: nat) returns (steps: seq<Step>)
    requires Rate(settings, tenant) < AGENT_COMMISSION_RATE
    ensures AdmissibleRun(Initial(settings), steps)
    ensures Outflow(Run(Initial(settings), steps)) > Inflow(Run(Initial(settings), steps))
  {
    var earn, l := EarnOnce(settings, tenant);
    RateInForce(if tenant in settings then settings[tenant] else Absent);
    var amount := Net(200000, Rate(settings, tenant));
    assert 194000 < amount <= 200000;
    var first, m := WithdrawOnce(l, true, tenant, amount);
    assert AgentCredit(m)(0) == 6000;
    var second, n := WithdrawOnce(m, false, 0, 6000);
    RunAppend(l, first, second);
    RunAppend(Initial(settings), earn, first + second);
    steps := earn + (first + second);
    ReservedAfterInsert([], Claim(tenant, amount, Pending));
    ReservedAfterInsert([], Claim(0, 6000, Pending));
    assert Total(Holdings([])) == 0;
    assert n.operators.claims == [] + [Claim(tenant, amount, Pending)];
    assert n.agents.claims == [] + [Claim(0, 6000, Pending)];
    ReservedIsTiedUp(n.operators.claims, 0);
    ReservedIsTiedUp(n.agents.claims, 0);
  }

  /** The platform stays solvent over every admissible run exactly when no tenant's rate
      is below the agents' rate. */
  lemma PlatformSolvencyIff(settings: map<nat, Setting>)
    ensures (forall steps: seq<Step> :: AdmissibleRun(Initial(settings), steps) ==>
                Outflow(Run(Initial(settings), steps)) <= Inflow(Run(Initial(settings), steps)))
            <==> RatesCoverAgents(settings)
  {
    if RatesCoverAgents(settings) {
      forall steps: seq<Step> | AdmissibleRun(Initial(settings), steps)
        ensures Outflow(Run(Initial(settings), steps)) <= Inflow(Run(Initial(settings), steps))
      {
        InitialInv(settings);
        RunKeepsInv(Initial(settings), steps);
        RunKeepsSettings(Initial(settings), steps);
        SolventState(Run(Initial(settings), steps));
      }
    } else {
      var k :| k in settings && Rate(settings, k) < AGENT_COMMISSION_RATE;
      var steps := LowRateRun(settings, k);
      assert AdmissibleRun(Initial(settings), steps);
    }
  }
}
