/** Payout requests that overlap: the ledger without the assumption that an account has one
    request running at a time. */
module OverlappingRequests {
  import opened Money
  import opened Withdrawals
  import opened Ledger

  /** What holds in any run, whatever requests overlap. */
  predicate Kept(l: Books) {
    CommissionsExact(l) && PricesLegal(l) && FloorRespected(l.operators) && FloorRespected(l.agents)
  }

  ghost predicate AllSolvent(l: Books) {
    Solvent(l.operators, OperatorCredit(l)) && Solvent(l.agents, AgentCredit(l))
  }

  predicate PriceLegal(step: Ledger.Step) {
    step.Pay? ==> 0 <= step.amount
  }

  /** If the statement inserts a request, its amount fits the balance at that moment. */
  predicate DeskFits(d: Desk, step: DeskStep, credit: nat -> int) {
    step.Insert? && step.flight < |d.flights| && d.flights[step.flight].stage.Cleared? ==>
      var f := d.flights[step.flight];
      f.amount <= AgentAvailable(credit(f.account), Withdrawals.Reserved(d.claims, f.account))
  }

  predicate Fits(l: Books, step: Ledger.Step) {
    match step
    case AtOperatorDesk(s) => DeskFits(l.operators, s, OperatorCredit(l))
    case AtAgentDesk(s) => DeskFits(l.agents, s, AgentCredit(l))
    case _ => true
  }

  lemma DeskSolventIff(d: Desk, step: DeskStep, credit: nat -> int, rules: Rules)
    requires Solvent(d, credit) && FloorRespected(d)
    ensures FloorRespected(Withdrawals.Next(d, step, credit, rules))
    ensures Solvent(Withdrawals.Next(d, step, credit, rules), credit) <==> DeskFits(d, step, credit)
  {
    var d' := Withdrawals.Next(d, step, credit, rules);
    if step.Insert? && step.flight < |d.flights| && d.flights[step.flight].stage.Cleared? {
      InsertSolventIff(d, step.flight, credit, rules);
    } else {
      ReservedMoves(d, step, credit, rules);
      forall k: nat ensures Withdrawals.Reserved(d'.claims, k) <= credit(k) {
        assert Withdrawals.Reserved(d.claims, k) <= credit(k);
      }
    }
  }

  /** A statement at a desk leaves every account's credit as it was. */
  lemma CreditsUnmoved(l: Books, l': Books)
    requires l'.payments == l.payments && l'.settings == l.settings && l'.commissions == l.commissions
    ensures Solvent(l'.operators, OperatorCredit(l)) <==> Solvent(l'.operators, OperatorCredit(l'))
    ensures Solvent(l'.agents, AgentCredit(l)) <==> Solvent(l'.agents, AgentCredit(l'))
  {
    assert forall k: nat :: OperatorCredit(l)(k) == OperatorCredit(l')(k) && AgentCredit(l)(k) == AgentCredit(l')(k);
  }

  lemma CreditsGrow(l: Books, step: Ledger.Step)
    requires Kept(l) && PriceLegal(step) && !step.AtOperatorDesk? && !step.AtAgentDesk?
    ensures var l' := Ledger.Next(l, step);
            && l'.operators == l.operators && l'.agents == l.agents
            && (forall k: nat :: OperatorCredit(l)(k) <= OperatorCredit(l')(k))
            && (forall k: nat :: AgentCredit(l)(k) <= AgentCredit(l')(k))
  {
    match step
    case Pay(tenant, amount, mobile) =>
      PayRaisesCredit(l, Payment(tenant, amount, mobile));
      EarnedAfterPay(l, Payment(tenant, amount, mobile));
    case Credit(p) =>
      if Creditable(l, p) {
        EarnedAfterCredit(l, p);
      }
    case Settle(agent) => EarnedAfterSettle(l, agent);
    case _ =>
  }

  lemma StepKeeps(l: Books, step: Ledger.Step)
    requires Kept(l) && AllSolvent(l) && PriceLegal(step)
    ensures Kept(Ledger.Next(l, step))
    ensures AllSolvent(Ledger.Next(l, step)) <==> Fits(l, step)
  {
    var l' := Ledger.Next(l, step);
    match step
    case AtOperatorDesk(s) =>
      DeskSolventIff(l.operators, s, OperatorCredit(l), OperatorRules);
      CreditsUnmoved(l, l');
    case AtAgentDesk(s) =>
      DeskSolventIff(l.agents, s, AgentCredit(l), AgentRules);
      CreditsUnmoved(l, l');
    case _ =>
      CreditsGrow(l, step);
  }

  /** Solvent now and after every statement of the run. */
  ghost predicate StaysSolvent(l: Books, steps: seq<Ledger.Step>)
    decreases |steps|
  {
    AllSolvent(l) && (steps == [] || StaysSolvent(Ledger.Next(l, steps[0]), steps[1..]))
  }

  /** Every insert of the run fits the balance at its moment. */
  predicate EveryInsertFits(l: Books, steps: seq<Ledger.Step>)
    decreases |steps|
  {
    steps == [] || (Fits(l, steps[0]) && EveryInsertFits(Ledger.Next(l, steps[0]), steps[1..]))
  }

  lemma {:induction false} RunSolventIff(l: Books, steps: seq<Ledger.Step>)
    requires Kept(l) && AllSolvent(l) && forall i :: 0 <= i < |steps| ==> PriceLegal(steps[i])
    ensures StaysSolvent(l, steps) <==> EveryInsertFits(l, steps)
    decreases |steps|
  {
    if steps != [] {
      var m := Ledger.Next(l, steps[0]);
      StepKeeps(l, steps[0]);
      if AllSolvent(m) {
        assert forall i :: 0 <= i < |steps| - 1 ==> steps[1..][i] == steps[i + 1];
        RunSolventIff(m, steps[1..]);
      }
    }
  }

  /** Over whole runs, with any number of requests of one account overlapping, every operator
      and every agent stays solvent throughout if and only if every insert fits the balance at
      the moment it runs. */
  lemma SolventThroughoutIff(settings: map<nat, Setting>, steps: seq<Ledger.Step>)
    requires forall i :: 0 <= i < |steps| ==> PriceLegal(steps[i])
    ensures StaysSolvent(Initial(settings), steps) <==> EveryInsertFits(Initial(settings), steps)
  {
    InitialInv(settings);
    RunSolventIff(Initial(settings), steps);
  }
}
