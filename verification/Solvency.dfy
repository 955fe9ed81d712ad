/** The webhook protocol and the ledger together: the payments and commissions that webhooks
    write are the ones payouts are drawn on, with every statement of either one step. */
module Solvency {
  import opened Money
  import opened Tally
  import Desks = Withdrawals
  import Books = Ledger
  import Hooks = Webhook

  datatype Platform = Platform(hooks: Hooks.State, books: Books.Books)

  datatype Step =
    | Hook(hook: Hooks.Step)
    | AtOperatorDesk(desk: Desks.DeskStep)
    | AtAgentDesk(desk: Desks.DeskStep)
    | Settle(agent: nat)

  function TenantOf(c: Hooks.Catalog, slug: string): nat {
    if slug in c.locations then c.locations[slug] else 0
  }

  /** A payment row as the balance queries see it: its location's tenant, and whether it is
      mobile money, as exactly the gateway's rows are. */
  function PaymentOf(c: Hooks.Catalog, row: Hooks.PaymentRow): Books.Payment {
    Books.Payment(TenantOf(c, row.slug), row.amount, row.ext.Some?)
  }

  /** What a webhook step means for the books: a new payment row, a new commission row, or nothing. */
  function Entered(c: Hooks.Catalog, before: Hooks.Shared, after: Hooks.Shared, l: Books.Books): Books.Books {
    if |after.payments| > |before.payments| then
      var p := PaymentOf(c, after.payments[|after.payments| - 1]);
      Books.Next(l, Books.Pay(p.tenant, p.amount, p.mobile))
    else if |after.commissions| > |before.commissions| then
      Books.Next(l, Books.Credit(after.commissions[|after.commissions| - 1].payment))
    else l
  }

  function Next(c: Hooks.Catalog, p: Platform, step: Step): Platform {
    match step
    case Hook(h) =>
      var hooks := Hooks.Next(c, p.hooks, h);
      Platform(hooks, Entered(c, p.hooks.sh, hooks.sh, p.books))
    case AtOperatorDesk(d) => p.(books := Books.Next(p.books, Books.AtOperatorDesk(d)))
    case AtAgentDesk(d) => p.(books := Books.Next(p.books, Books.AtAgentDesk(d)))
    case Settle(agent) => p.(books := Books.Next(p.books, Books.Settle(agent)))
  }

  predicate PricesLegal(c: Hooks.Catalog) {
    forall id :: id in c.plans ==> c.plans[id].price >= 0
  }

  /** No account has two payout requests running at once, and cash amounts are prices. */
  predicate Admissible(p: Platform, step: Step) {
    match step
    case Hook(h) => h.Cash? ==> h.amount >= 0
    case AtOperatorDesk(d) => Desks.Serial(p.books.operators, d)
    case AtAgentDesk(d) => Desks.Serial(p.books.agents, d)
    case Settle(_) => true
  }

  predicate AdmissibleRun(c: Hooks.Catalog, p: Platform, steps: seq<Step>)
    decreases |steps|
  {
    steps == [] || (Admissible(p, steps[0]) && AdmissibleRun(c, Next(c, p, steps[0]), steps[1..]))
  }

  function Run(c: Hooks.Catalog, p: Platform, steps: seq<Step>): Platform
    decreases |steps|
  {
    if steps == [] then p else Run(c, Next(c, p, steps[0]), steps[1..])
  }

  function Initial(c: Hooks.Catalog, settings: map<nat, Setting>): Platform {
    Platform(Hooks.INITIAL, Books.Initial(settings).(referrals := c.referrals))
  }

  // ----- the books mirror the tables

  predicate PaymentsMirror(c: Hooks.Catalog, sh: Hooks.Shared, l: Books.Books) {
    |l.payments| == |sh.payments| && forall i :: 0 <= i < |l.payments| ==> l.payments[i] == PaymentOf(c, sh.payments[i])
  }

  predicate SameCommission(row: Hooks.CommissionRow, l: Books.Books) {
    && row.payment in l.commissions
    && l.commissions[row.payment].agent == row.agent
    && l.commissions[row.payment].amount == row.amount
  }

  ghost predicate CommissionsMirror(sh: Hooks.Shared, l: Books.Books) {
    && (forall p: nat :: p in l.commissions <==> Hooks.HasCommission(sh, p))
    && (forall k :: 0 <= k < |sh.commissions| ==> SameCommission(sh.commissions[k], l))
  }

  ghost predicate Inv(c: Hooks.Catalog, p: Platform) {
    && Hooks.TablesInv(c, p.hooks.sh) && Hooks.DutyInv(c, p.hooks)
    && Books.Inv(p.books)
    && p.books.referrals == c.referrals
    && PaymentsMirror(c, p.hooks.sh, p.books) && CommissionsMirror(p.hooks.sh, p.books)
  }

  /** A webhook step adds one payment row, or one commission row that is exactly due, or neither. */
  predicate AddsPayment(before: Hooks.Shared, after: Hooks.Shared) {
    && |after.payments| == |before.payments| + 1 && after.payments[..|before.payments|] == before.payments
    && after.commissions == before.commissions
  }

  predicate AddsCommission(c: Hooks.Catalog, before: Hooks.Shared, after: Hooks.Shared) {
    && after.payments == before.payments
    && |after.commissions| == |before.commissions| + 1
    && after.commissions[..|before.commissions|] == before.commissions
    && var row := after.commissions[|before.commissions|];
       Hooks.Exact(c, before.payments, row) && !Hooks.HasCommission(before, row.payment)
  }

  lemma HookAdds(c: Hooks.Catalog, s: Hooks.State, h: Hooks.Step)
    requires PricesLegal(c) && Hooks.DutyInv(c, s) && (h.Cash? ==> h.amount >= 0)
    ensures var after := Hooks.Next(c, s, h).sh;
            || (after.payments == s.sh.payments && after.commissions == s.sh.commissions)
            || (AddsPayment(s.sh, after) && after.payments[|s.sh.payments|].amount >= 0)
            || AddsCommission(c, s.sh, after)
  {
    if h.Advance? && h.task < |s.tasks| {
      assert Hooks.Dutiful(c, s.sh, s.tasks[h.task]);
    }
  }

  /** A commission the webhook writes is one the books would credit, with the same agent and amount. */
  lemma CreditMirrors(c: Hooks.Catalog, before: Hooks.Shared, after: Hooks.Shared, l: Books.Books)
    requires AddsCommission(c, before, after) && l.referrals == c.referrals
    requires PaymentsMirror(c, before, l) && CommissionsMirror(before, l)
    ensures var row := after.commissions[|before.commissions|];
            var l' := Books.Next(l, Books.Credit(row.payment));
            Books.Creditable(l, row.payment) && CommissionsMirror(after, l') && l'.payments == l.payments
  {
    var n, row := |before.commissions|, after.commissions[|before.commissions|];
    var l' := Books.Next(l, Books.Credit(row.payment));
    assert l.payments[row.payment] == PaymentOf(c, before.payments[row.payment]);
    forall p: nat ensures p in l'.commissions <==> Hooks.HasCommission(after, p) {
      if Hooks.HasCommission(before, p) {
        var k :| 0 <= k < n && before.commissions[k].payment == p;
        assert after.commissions[k] == before.commissions[k];
      }
      if Hooks.HasCommission(after, p) && p != row.payment {
        var k :| 0 <= k < |after.commissions| && after.commissions[k].payment == p;
        assert before.commissions[k] == after.commissions[k];
      }
    }
    forall k | 0 <= k < |after.commissions| ensures SameCommission(after.commissions[k], l') {
      if k < n {
        assert after.commissions[k] == before.commissions[k];
        assert SameCommission(before.commissions[k], l);
        assert Hooks.HasCommission(before, before.commissions[k].payment);
      }
    }
  }

  lemma PaymentMirrors(c: Hooks.Catalog, before: Hooks.Shared, after: Hooks.Shared, l: Books.Books)
    requires Books.Inv(l) && PaymentsMirror(c, before, l) && CommissionsMirror(before, l)
    requires AddsPayment(before, after) && after.payments[|before.payments|].amount >= 0
    ensures var l' := Entered(c, before, after, l);
            && Books.Inv(l') && l'.referrals == l.referrals && l'.settings == l.settings
            && PaymentsMirror(c, after, l') && CommissionsMirror(after, l')
  {
    var p := PaymentOf(c, after.payments[|before.payments|]);
    Books.StepKeepsInv(l, Books.Pay(p.tenant, p.amount, p.mobile));
    assert forall i :: 0 <= i < |before.payments| ==> after.payments[i] == before.payments[i];
  }

  lemma EnteredMirrors(c: Hooks.Catalog, before: Hooks.Shared, after: Hooks.Shared, l: Books.Books)
    requires Books.Inv(l) && l.referrals == c.referrals && PaymentsMirror(c, before, l) && CommissionsMirror(before, l)
    requires || (after.payments == before.payments && after.commissions == before.commissions)
             || (AddsPayment(before, after) && after.payments[|before.payments|].amount >= 0)
             || AddsCommission(c, before, after)
    ensures var l' := Entered(c, before, after, l);
            && Books.Inv(l') && l'.referrals == c.referrals && l'.settings == l.settings
            && PaymentsMirror(c, after, l') && CommissionsMirror(after, l')
  {
    if AddsPayment(before, after) {
      PaymentMirrors(c, before, after, l);
    } else if AddsCommission(c, before, after) {
      CreditMirrors(c, before, after, l);
      Books.StepKeepsInv(l, Books.Credit(after.commissions[|before.commissions|].payment));
    }
  }

  lemma DeskKeepsMirror(c: Hooks.Catalog, sh: Hooks.Shared, l: Books.Books, step: Books.Step)
    requires step.AtOperatorDesk? || step.AtAgentDesk? || step.Settle?
    requires PaymentsMirror(c, sh, l) && CommissionsMirror(sh, l)
    ensures var l' := Books.Next(l, step);
            && l'.referrals == l.referrals && l'.settings == l.settings
            && PaymentsMirror(c, sh, l') && CommissionsMirror(sh, l')
  {
    var l' := Books.Next(l, step);
    forall k | 0 <= k < |sh.commissions| ensures SameCommission(sh.commissions[k], l') {
      assert SameCommission(sh.commissions[k], l);
    }
    assert forall p: nat :: p in l'.commissions <==> p in l.commissions;
  }

  lemma StepKeepsInv(c: Hooks.Catalog, p: Platform, step: Step)
    requires PricesLegal(c) && Inv(c, p) && Admissible(p, step)
    ensures Inv(c, Next(c, p, step)) && Next(c, p, step).books.settings == p.books.settings
  {
    match step
    case Hook(h) =>
      Hooks.StepKeepsTables(c, p.hooks, h);
      HookAdds(c, p.hooks, h);
      EnteredMirrors(c, p.hooks.sh, Hooks.Next(c, p.hooks, h).sh, p.books);
    case AtOperatorDesk(d) =>
      Books.StepKeepsInv(p.books, Books.AtOperatorDesk(d));
      DeskKeepsMirror(c, p.hooks.sh, p.books, Books.AtOperatorDesk(d));
    case AtAgentDesk(d) =>
      Books.StepKeepsInv(p.books, Books.AtAgentDesk(d));
      DeskKeepsMirror(c, p.hooks.sh, p.books, Books.AtAgentDesk(d));
    case Settle(agent) =>
      Books.StepKeepsInv(p.books, Books.Settle(agent));
      DeskKeepsMirror(c, p.hooks.sh, p.books, Books.Settle(agent));
  }

  lemma {:induction false} RunKeepsInv(c: Hooks.Catalog, p: Platform, steps: seq<Step>)
    requires PricesLegal(c) && Inv(c, p) && AdmissibleRun(c, p, steps)
    ensures Inv(c, Run(c, p, steps)) && Run(c, p, steps).books.settings == p.books.settings
    decreases |steps|
  {
    if steps != [] {
      StepKeepsInv(c, p, steps[0]);
      RunKeepsInv(c, Next(c, p, steps[0]), steps[1..]);
    }
  }

  lemma InitialInv(c: Hooks.Catalog, settings: map<nat, Setting>)
    ensures Inv(c, Initial(c, settings))
  {
    var l, l' := Books.Initial(settings), Initial(c, settings).books;
    Books.InitialInv(settings);
    Desks.MoreCreditKeepsInv(l.operators, Books.OperatorCredit(l), Books.OperatorCredit(l'));
    Desks.MoreCreditKeepsInv(l.agents, Books.AgentCredit(l), Books.AgentCredit(l'));
  }

  // ----- solvency, said of the tables the webhooks write

  /** Everything the gateway has paid in. */
  function Received(payments: seq<Hooks.PaymentRow>): int {
    if payments == [] then 0
    else
      var last := payments[|payments| - 1];
      Received(payments[..|payments| - 1]) + if last.ext.Some? then last.amount else 0
  }

  lemma {:induction false} ReceivedIsInflow(c: Hooks.Catalog, rows: seq<Hooks.PaymentRow>, payments: seq<Books.Payment>)
    requires |rows| == |payments| && forall i :: 0 <= i < |rows| ==> payments[i] == PaymentOf(c, rows[i])
    ensures Received(rows) == Total(Books.Takings(payments))
  {
    if rows != [] {
      var n := |rows| - 1;
      ReceivedIsInflow(c, rows[..n], payments[..n]);
      Books.GrossAfterPay(payments[..n], payments[n]);
      assert payments == payments[..n] + [payments[n]];
    }
  }

  /** Over every interleaving of webhook deliveries, goroutines, lost Redis keys, cash grants,
      payout requests, approvals, rejections and settlements: with all rates at 3% or more,
      what is promised or paid to operators and agents never exceeds what the gateway paid in. */
  lemma PayoutsWithinReceipts(c: Hooks.Catalog, settings: map<nat, Setting>, steps: seq<Step>)
    requires PricesLegal(c) && Books.RatesCoverAgents(settings) && AdmissibleRun(c, Initial(c, settings), steps)
    ensures var p := Run(c, Initial(c, settings), steps);
            Desks.AllTiedUp(p.books.operators.claims) + Desks.AllTiedUp(p.books.agents.claims)
              <= Received(p.hooks.sh.payments)
  {
    var p := Run(c, Initial(c, settings), steps);
    InitialInv(c, settings);
    RunKeepsInv(c, Initial(c, settings), steps);
    Books.SolventState(p.books);
    ReceivedIsInflow(c, p.hooks.sh.payments, p.books.payments);
  }
}
