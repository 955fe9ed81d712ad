/** The money handlers over the tables they update. Each handler here runs without
    interruption; module Ledger proves what survives when their statements interleave. */
module LedgerTables {
  import opened Money
  import opened Tally
  import opened Withdrawals
  import opened Ledger

  datatype Response =
    | Created(id: nat)
    | PhoneMissing
    | AmountTooLow
    | InsufficientBalance

  class Tables {
    var settings: map<nat, Setting>
    var referrals: map<nat, nat>
    var payments: seq<Payment>
    var commissions: map<nat, Commission>
    var payouts: seq<Claim>
    var requests: seq<Claim>

    /** The books these tables hold, with no request in flight. */
    ghost function Value(): Books
      reads this
    {
      Books(settings, referrals, payments, commissions, Desk(payouts, []), Desk(requests, []))
    }

    ghost predicate Valid()
      reads this
    {
      Ledger.Inv(Value())
    }

    constructor (settings: map<nat, Setting>)
      ensures Valid() && Value() == Initial(settings)
    {
      this.settings, referrals, payments, commissions, payouts, requests := settings, map[], [], map[], [], [];
      InitialInv(settings);
    }

    /** The published figures are the sums of the tables and they always balance: the fee is the
        floor of the share, and pending, approved and paid payouts count as withdrawn. */
    method TenantBalance(tenant: nat) returns (gross: int, commission: int, withdrawn: int, available: int, rate: real)
      requires Valid()
      ensures gross == Gross(payments, tenant) && withdrawn == TiedUp(payouts, tenant)
      ensures var overridden := tenant in settings && settings[tenant].Number? && 0.0 <= settings[tenant].value < 1.0;
              rate == if overridden then settings[tenant].value else 0.08
      ensures commission as real <= gross as real * rate < (commission + 1) as real
      ensures rate == Rate(settings, tenant) && commission == PlatformCommission(gross, rate)
      ensures 0 <= available && gross == commission + available + withdrawn
    {
      rate := ParseCommissionRate(if tenant in settings then settings[tenant] else Absent, DEFAULT_COMMISSION_RATE);
      gross := Gross(payments, tenant);
      withdrawn := Withdrawals.Reserved(payouts, tenant);
      commission := PlatformCommission(gross, rate);
      available := OperatorAvailable(gross, rate, withdrawn);
      RateInForce(if tenant in settings then settings[tenant] else Absent);
      GrossNonNegative(Value(), tenant);
      CommissionIsFloor(gross, rate);
      assert Withdrawals.Reserved(Value().operators.claims, tenant) <= OperatorCredit(Value())(tenant);
      ReservedIsTiedUp(payouts, tenant);
    }

    /** Inserting a row that fits keeps the desk's invariant. */
    lemma FittingRow(claims: seq<Claim>, c: Claim, credit: nat -> int)
      requires Withdrawals.Inv(Desk(claims, []), credit)
      requires c.status == Pending
                 && MIN_PAYOUT <= c.amount <= credit(c.account) - Withdrawals.Reserved(claims, c.account)
      ensures Withdrawals.Inv(Desk(claims + [c], []), credit)
    {
      ReservedAfterInsert(claims, c);
      forall k: nat ensures Withdrawals.Reserved(claims + [c], k) <= credit(k) {
        assert Withdrawals.Reserved(Desk(claims, []).claims, k) <= credit(k);
      }
    }

    method RequestOperatorPayout(tenant: nat, amount: int, momoPhone: string) returns (r: Response)
      requires Valid()
      modifies this`payouts
      ensures Valid()
      ensures r == if momoPhone == "" then PhoneMissing
                   else if amount < 5000 then AmountTooLow
                   else if Net(Gross(payments, tenant), Rate(settings, tenant)) < TiedUp(old(payouts), tenant) + amount
                   then InsufficientBalance
                   else Created(|old(payouts)|)
      ensures payouts == if r.Created? then old(payouts) + [Claim(tenant, amount, Pending)] else old(payouts)
    {
      if momoPhone == "" {
        return PhoneMissing;
      }
      if amount < MIN_PAYOUT {
        return AmountTooLow;
      }
      var gross, commission, withdrawn, available, rate := TenantBalance(tenant);
      if amount > available {
        return InsufficientBalance;
      }
      ReservedIsTiedUp(payouts, tenant);
      FittingRow(payouts, Claim(tenant, amount, Pending), OperatorCredit(Value()));
      payouts := payouts + [Claim(tenant, amount, Pending)];
      r := Created(|payouts| - 1);
      MoreCreditKeepsInv(Value().operators, OperatorCredit(old(Value())), OperatorCredit(Value()));
      MoreCreditKeepsInv(Value().agents, AgentCredit(old(Value())), AgentCredit(Value()));
    }

    method ApprovePayout(id: nat) returns (found: bool)
      requires Valid()
      modifies this`payouts
      ensures Valid() && Value() == Ledger.Next(old(Value()), AtOperatorDesk(Approve(id)))
      ensures found == (id < |old(payouts)| && old(payouts)[id].status == Pending)
      ensures payouts == if found then old(payouts)[id := old(payouts)[id].(status := Approved)] else old(payouts)
    {
      Ledger.StepKeepsInv(Value(), AtOperatorDesk(Approve(id)));
      found := id < |payouts| && payouts[id].status == Pending;
      if found {
        payouts := payouts[id := payouts[id].(status := Approved)];
      }
    }

    method RejectPayout(id: nat) returns (found: bool)
      requires Valid()
      modifies this`payouts
      ensures Valid() && Value() == Ledger.Next(old(Value()), AtOperatorDesk(Reject(id)))
      ensures found == (id < |old(payouts)| && old(payouts)[id].status in {Pending, Approved})
      ensures payouts == if found then old(payouts)[id := old(payouts)[id].(status := Rejected)] else old(payouts)
    {
      Ledger.StepKeepsInv(Value(), AtOperatorDesk(Reject(id)));
      found := id < |payouts| && (payouts[id].status == Pending || payouts[id].status == Approved);
      if found {
        payouts := payouts[id := payouts[id].(status := Rejected)];
      }
    }

    method MarkOperatorPayoutPaid(id: nat) returns (found: bool)
      requires Valid()
      modifies this`payouts
      ensures Valid() && Value() == Ledger.Next(old(Value()), AtOperatorDesk(MarkPaid(id)))
      ensures found == (id < |old(payouts)| && old(payouts)[id].status == Approved)
      ensures payouts == if found then old(payouts)[id := old(payouts)[id].(status := Paid)] else old(payouts)
    {
      Ledger.StepKeepsInv(Value(), AtOperatorDesk(MarkPaid(id)));
      found := id < |payouts| && payouts[id].status == Approved;
      if found {
        payouts := payouts[id := payouts[id].(status := Paid)];
      }
    }

    /** An agent's withdrawal request. */
    method RequestPayout(agent: nat, amount: int, phone: string) returns (r: Response)
      requires Valid()
      modifies this`requests
      ensures Valid()
      ensures r == if amount < 5000 then AmountTooLow
                   else if phone == "" then PhoneMissing
                   else if Earned(old(Value()), agent) < TiedUp(old(requests), agent) + amount
                   then InsufficientBalance
                   else Created(|old(requests)|)
      ensures requests == if r.Created? then old(requests) + [Claim(agent, amount, Pending)] else old(requests)
    {
      if amount < MIN_PAYOUT {
        return AmountTooLow;
      }
      if phone == "" {
        return PhoneMissing;
      }
      var totalEarned := Of(Cuts(commissions, |payments|), agent);
      var reserved := Withdrawals.Reserved(requests, agent);
      var available := AgentAvailable(totalEarned, reserved);
      ReservedIsTiedUp(requests, agent);
      if amount > available {
        return InsufficientBalance;
      }
      FittingRow(requests, Claim(agent, amount, Pending), AgentCredit(Value()));
      requests := requests + [Claim(agent, amount, Pending)];
      r := Created(|requests| - 1);
      MoreCreditKeepsInv(Value().operators, OperatorCredit(old(Value())), OperatorCredit(Value()));
      MoreCreditKeepsInv(Value().agents, AgentCredit(old(Value())), AgentCredit(Value()));
    }

    /** Approval also settles every pending commission of that agent. */
    method ApprovePayoutRequest(id: nat) returns (found: bool)
      requires Valid()
      modifies this`requests, this`commissions
      ensures Valid()
      ensures found == (id < |old(requests)| && old(requests)[id].status == Pending)
      ensures requests == if found then old(requests)[id := old(requests)[id].(status := Approved)] else old(requests)
      ensures commissions.Keys == old(commissions).Keys
      ensures forall p :: p in commissions ==>
                var mine := found && old(commissions)[p].agent == old(requests)[id].account;
                commissions[p] == if mine then old(commissions)[p].(settled := true) else old(commissions)[p]
      ensures Value() == if found
                         then Ledger.Next(Ledger.Next(old(Value()), AtAgentDesk(Approve(id))),
                                          Settle(old(requests)[id].account))
                         else old(Value())
    {
      Ledger.StepKeepsInv(Value(), AtAgentDesk(Approve(id)));
      found := id < |requests| && requests[id].status == Pending;
      if found {
        requests := requests[id := requests[id].(status := Approved)];
        Ledger.StepKeepsInv(Value(), Settle(requests[id].account));
        commissions := SettleAll(commissions, requests[id].account);
      }
    }

    method MarkPayoutPaid(id: nat) returns (found: bool)
      requires Valid()
      modifies this`requests
      ensures Valid() && Value() == Ledger.Next(old(Value()), AtAgentDesk(MarkPaid(id)))
      ensures found == (id < |old(requests)| && old(requests)[id].status == Approved)
      ensures requests == if found then old(requests)[id := old(requests)[id].(status := Paid)] else old(requests)
    {
      Ledger.StepKeepsInv(Value(), AtAgentDesk(MarkPaid(id)));
      found := id < |requests| && requests[id].status == Approved;
      if found {
        requests := requests[id := requests[id].(status := Paid)];
      }
    }

    /** An agent's request can be rejected only while it is pending, and only with a reason. */
    method RejectPayoutRequest(id: nat, reason: string) returns (found: bool)
      requires Valid()
      modifies this`requests
      ensures Valid()
      ensures Value() == if reason == "" then old(Value()) else Ledger.Next(old(Value()), AtAgentDesk(Reject(id)))
      ensures found == (reason != "" && id < |old(requests)| && old(requests)[id].status == Pending)
      ensures requests == if found then old(requests)[id := old(requests)[id].(status := Rejected)] else old(requests)
    {
      Ledger.StepKeepsInv(Value(), AtAgentDesk(Reject(id)));
      found := reason != "" && id < |requests| && requests[id].status == Pending;
      if found {
        requests := requests[id := requests[id].(status := Rejected)];
      }
    }
  }
}
