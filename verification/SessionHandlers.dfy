/** The session handlers as statements over the tables, each proved to do what module
    Sessions says of it. */
module SessionHandlers {
  import opened RadiusRows
  import opened Sessions

  lemma DurationInSeconds(mins: int)
    ensures mins * 60 * SECOND == mins * MINUTE
  {
  }

  /** The ids of the collected rows. */
  ghost function Ids(rows: seq<(nat, nat)>): set<nat> {
    if rows == [] then {} else Ids(rows[..|rows| - 1]) + {rows[|rows| - 1].0}
  }

  lemma EndOneMore(t: Tables, ids: set<nat>, id: nat)
    requires id in t.sessions
    ensures Ended(EndedAll(t, ids), t.sessions[id].username, id) == EndedAll(t, ids + {id})
  {
    var u := t.sessions[id].username;
    assert UsersOf(t, ids + {id}) == UsersOf(t, ids) + {u};
    WithoutBoth(t.check, UsersOf(t, ids), {u});
    WithoutBoth(t.reply, UsersOf(t, ids), {u});
    assert Ended(EndedAll(t, ids), u, id).sessions == EndedAll(t, ids + {id}).sessions;
  }

  lemma EndNone(t: Tables)
    ensures EndedAll(t, {}) == t
  {
    assert UsersOf(t, {}) == {};
    WithoutNobody(t.check);
    WithoutNobody(t.reply);
    assert EndedAll(t, {}).sessions == t.sessions;
  }

  /** A row of plans: the tenant of its location, what it grants, its price, and whether it is offered. */
  datatype Offer = Offer(tenant: nat, plan: Plan, price: int, active: bool)

  /** The payment row of a cash grant. */
  datatype CashSale = CashSale(tenant: nat, phone: nat, amount: int)

  datatype Answer = SessionNotFound | PlanNotFound | Done

  /** How a grant's values fit: mac_address holds 17 characters, customer_phone and used_by_phone 20. */
  datatype Fit = Fits | MacTooLong | PhoneTooLong

  class Store {
    const plans: map<nat, Offer>
    var cash: seq<CashSale>
    var sessions: map<nat, Session>
    var radcheck: seq<Row>
    var radreply: seq<Row>
    var vouchers: map<nat, Voucher>

    ghost function Value(): Tables
      reads this
    {
      Tables(sessions, radcheck, radreply, vouchers)
    }

    constructor (plans: map<nat, Offer>, vouchers: map<nat, Voucher>)
      ensures Value() == Empty(vouchers) && this.plans == plans && cash == []
    {
      this.plans, cash := plans, [];
      sessions, radcheck, radreply, this.vouchers := map[], [], [], vouchers;
    }

    /** The nine RADIUS statements every grant runs, in their order. */
    method Authorize(username: nat, plan: Plan, secs: int)
      modifies this`radcheck, this`radreply
      ensures radcheck == Without(old(radcheck), {username}) + CheckRows(username)
      ensures radreply == Without(old(radreply), {username}) + ReplyRows(username, plan, secs)
      ensures LetIn(old(radcheck), old(radreply), radcheck, radreply, username, plan, secs)
    {
      RowsLetIn(radcheck, radreply, username, plan, secs);
      radcheck := Without(radcheck, {username});
      radcheck := radcheck + [Row(username, AuthType, Accept)];
      radreply := Without(radreply, {username});
      ghost var cleared := radreply;
      radreply := radreply + [Row(username, SessionTimeout, Number(secs))];
      radreply := radreply + [Row(username, IdleTimeout, Number(300))];
      radreply := radreply + [Row(username, RateLimit, Rate(plan.down, plan.up))];
      radreply := radreply + [Row(username, MaxDown, Number(plan.down * 1000))];
      radreply := radreply + [Row(username, MaxUp, Number(plan.up * 1000))];
      assert radreply == cleared + ReplyRows(username, plan, secs);
    }

    /** INSERT INTO sessions, whose error every grant ignores. */
    method InsertSession(id: nat, session: Session, stored: bool)
      modifies this`sessions
      ensures sessions == if stored then old(sessions)[id := session] else old(sessions)
    {
      if stored {
        sessions := sessions[id := session];
      }
    }

    /** A paid webhook's grant; `stored` says whether the session insert succeeds. */
    method CreateSessionAfterPayment(id: nat, tenant: nat, username: nat, plan: Plan, now: int, stored: bool)
      modifies this`sessions, this`radcheck, this`radreply
      ensures Value() == Apply(old(Value()), if stored then Pay(id, tenant, username, plan, now)
                                             else GrantUnstored(username, plan))
      ensures sessions == if stored
                          then old(sessions)[id := Session(tenant, username, Active, now + plan.mins * 60_000_000_000)]
                          else old(sessions)
      ensures LetIn(old(radcheck), old(radreply), radcheck, radreply, username, plan, plan.mins * 60)
    {
      var durationSecs := plan.mins * 60;
      DurationInSeconds(plan.mins);
      InsertSession(id, Session(tenant, username, Active, now + durationSecs * SECOND), stored);
      Authorize(username, plan, durationSecs);
    }

    /** The writes of a cash grant: the session, the cash payment and the RADIUS rows. */
    method Sell(id: nat, tenant: nat, username: nat, plan: Plan, price: int, now: int, fit: Fit)
      modifies this`sessions, this`cash, this`radcheck, this`radreply
      ensures Value() == Apply(old(Value()), if fit.Fits? then CashGrant(id, tenant, username, plan, now)
                                             else GrantUnstored(username, plan))
      ensures sessions == if fit.Fits?
                          then old(sessions)[id := Session(tenant, username, Active, now + plan.mins * 60_000_000_000)]
                          else old(sessions)
      ensures cash == if fit.PhoneTooLong? then old(cash) else old(cash) + [CashSale(tenant, username, price)]
      ensures LetIn(old(radcheck), old(radreply), radcheck, radreply, username, plan, plan.mins * 60)
    {
      var durationSecs := plan.mins * 60;
      DurationInSeconds(plan.mins);
      InsertSession(id, Session(tenant, username, Active, now + durationSecs * SECOND), fit.Fits?);
      if !fit.PhoneTooLong? {
        cash := cash + [CashSale(tenant, username, price)];
      }
      Authorize(username, plan, durationSecs);
    }

    /** An operator's cash grant, of an offered plan of its own. */
    method GrantSession(id: nat, tenant: nat, username: nat, planId: nat, now: int, fit: Fit)
      returns (r: Answer)
      modifies this`sessions, this`cash, this`radcheck, this`radreply
      ensures r == if planId in plans && plans[planId].tenant == tenant && plans[planId].active then Done
                   else PlanNotFound
      ensures r == Done ==>
                sessions == if fit.Fits?
                            then old(sessions)[id := Session(tenant, username, Active,
                                                             now + plans[planId].plan.mins * 60_000_000_000)]
                            else old(sessions)
      ensures r == Done ==>
                cash == if fit.PhoneTooLong? then old(cash)
                        else old(cash) + [CashSale(tenant, username, plans[planId].price)]
      ensures r == Done ==>
                LetIn(old(radcheck), old(radreply), radcheck, radreply,
                      username, plans[planId].plan, plans[planId].plan.mins * 60)
      ensures r != Done ==> Value() == old(Value()) && cash == old(cash)
    {
      if planId !in plans || plans[planId].tenant != tenant || !plans[planId].active {
        return PlanNotFound;
      }
      Sell(id, tenant, username, plans[planId].plan, plans[planId].price, now, fit);
      r := Done;
    }

    method RedeemVoucher(code: nat, location: nat, id: nat, tenant: nat, username: nat, now: int, fit: Fit)
      returns (granted: bool)
      modifies this`sessions, this`radcheck, this`radreply, this`vouchers
      ensures Value() == Apply(old(Value()), if fit.Fits? then Redeem(code, location, id, tenant, username, now)
                                             else RedeemUnstored(code, location, username, fit.MacTooLong?))
      ensures granted == (code in vouchers && vouchers[code].location == location && !old(vouchers)[code].used)
      ensures vouchers == if granted && !fit.PhoneTooLong?
                          then old(vouchers)[code := old(vouchers)[code].(used := true)] else old(vouchers)
      ensures granted ==>
                var plan := old(vouchers)[code].plan;
                && sessions == (if fit.Fits?
                                then old(sessions)[id := Session(tenant, username, Active,
                                                                 now + plan.mins * 60_000_000_000)]
                                else old(sessions))
                && LetIn(old(radcheck), old(radreply), radcheck, radreply, username, plan, plan.mins * 60)
      ensures !granted ==> Value() == old(Value())
    {
      if code !in vouchers || vouchers[code].location != location || vouchers[code].used {
        return false;
      }
      var plan := vouchers[code].plan;
      var expiresAt := now + plan.mins * MINUTE;
      if !fit.PhoneTooLong? {
        vouchers := vouchers[code := vouchers[code].(used := true)];
      }
      InsertSession(id, Session(tenant, username, Active, expiresAt), fit.Fits?);
      Authorize(username, plan, plan.mins * 60);
      granted := true;
    }

    /** Every Session-Timeout of this user has this value; all other rows are as they were. */
    static predicate Retimed(before: seq<Row>, after: seq<Row>, user: nat, secs: int) {
      && |after| == |before|
      && forall i :: 0 <= i < |before| ==>
           after[i] == if before[i].username == user && before[i].attribute == SessionTimeout
                       then Row(user, SessionTimeout, Number(secs)) else before[i]
    }

    /** The session is looked up first, then the plan; both must be the tenant's. */
    method ExtendSession(id: nat, tenant: nat, planId: nat, compared: int, based: int, measured: int)
      returns (r: Answer)
      modifies this`sessions, this`radreply
      ensures r == if id !in old(sessions) || old(sessions)[id].tenant != tenant || old(sessions)[id].status != Active
                   then SessionNotFound
                   else if planId !in plans || plans[planId].tenant != tenant || !plans[planId].active
                   then PlanNotFound
                   else Done
      ensures Value() == if r == Done
                         then Apply(old(Value()), Extend(id, tenant, plans[planId].plan, compared, based, measured))
                         else old(Value())
      ensures r == Done ==>
                var was := old(sessions)[id];
                var from := if was.expiresAt < compared then based else was.expiresAt;
                var expiry := from + plans[planId].plan.mins * 60_000_000_000;
                var left := expiry - measured;
                && sessions == old(sessions)[id := was.(expiresAt := expiry)]
                && Retimed(old(radreply), radreply, was.username,
                           if left < 60_000_000_000 then 60 else left / 1_000_000_000)
    {
      if id !in sessions || sessions[id].tenant != tenant || sessions[id].status != Active {
        return SessionNotFound;
      }
      var username, base := sessions[id].username, sessions[id].expiresAt;
      if planId !in plans || plans[planId].tenant != tenant || !plans[planId].active {
        return PlanNotFound;
      }
      if base < compared {
        base := based;
      }
      var newExpiry := base + plans[planId].plan.mins * MINUTE;
      var newDurationSecs := WholeSeconds(newExpiry - measured);
      if newDurationSecs < 60 {
        newDurationSecs := 60;
      }
      sessions := sessions[id := sessions[id].(expiresAt := newExpiry)];
      radreply := SetTimeout(radreply, username, newDurationSecs);
      r := Done;
    }

    method ExpireSession(username: nat, id: nat)
      modifies this`sessions, this`radcheck, this`radreply
      ensures Value() == Ended(old(Value()), username, id)
      ensures sessions == if id in old(sessions)
                          then old(sessions)[id := old(sessions)[id].(status := Expired)] else old(sessions)
      ensures CutOff(old(radcheck), old(radreply), radcheck, radreply, username)
    {
      if id in sessions {
        sessions := sessions[id := sessions[id].(status := Expired)];
      }
      RowsCutOff(radcheck, radreply, username);
      radcheck := Without(radcheck, {username});
      radreply := Without(radreply, {username});
    }

    method TerminateSession(id: nat, tenant: nat) returns (found: bool)
      modifies this`sessions, this`radcheck, this`radreply
      ensures Value() == Apply(old(Value()), Terminate(id, tenant))
      ensures found == (id in old(sessions) && old(sessions)[id].tenant == tenant && old(sessions)[id].status == Active)
      ensures found ==>
                var was := old(sessions)[id];
                && sessions == old(sessions)[id := was.(status := Expired)]
                && CutOff(old(radcheck), old(radreply), radcheck, radreply, was.username)
      ensures !found ==> Value() == old(Value())
    {
      if id !in sessions || sessions[id].tenant != tenant || sessions[id].status != Active {
        return false;
      }
      ExpireSession(sessions[id].username, id);
      found := true;
    }

    /** The overdue rows, in whatever order the database returns them. */
    method SelectOverdue(now: int) returns (rows: seq<(nat, nat)>)
      ensures forall i :: 0 <= i < |rows| ==> rows[i].0 in sessions && rows[i].1 == sessions[rows[i].0].username
      ensures Ids(rows) == OverdueIds(Value(), now)
    {
      rows := [];
      var left := set id | id in sessions && Overdue(sessions[id], now);
      while left != {}
        invariant left <= OverdueIds(Value(), now)
        invariant forall i :: 0 <= i < |rows| ==> rows[i].0 in sessions && rows[i].1 == sessions[rows[i].0].username
        invariant Ids(rows) == OverdueIds(Value(), now) - left
        decreases |left|
      {
        var id :| id in left;
        ghost var before := rows;
        rows := rows + [(id, sessions[id].username)];
        assert rows[..|before|] == before;
        left := left - {id};
      }
    }

    /** The reaper's pass: the overdue rows are collected first, then expired one by one. */
    method ReapExpiredSessions(now: int)
      modifies this`sessions, this`radcheck, this`radreply
      ensures Value() == Apply(old(Value()), Reap(now))
      ensures sessions.Keys == old(sessions).Keys
      ensures forall id :: id in sessions ==>
                var was := old(sessions)[id];
                sessions[id] == if was.status == Active && was.expiresAt < now then was.(status := Expired) else was
      ensures forall u: nat ::
                if HasOverdue(old(Value()), u, now) then Unauthorized(Value(), u)
                else RowsOf(radcheck, u) == RowsOf(old(radcheck), u) && RowsOf(radreply, u) == RowsOf(old(radreply), u)
    {
      var expired := SelectOverdue(now);
      ghost var start := Value();
      EndNone(start);
      assert expired[..0] == [];
      var i := 0;
      while i < |expired|
        invariant 0 <= i <= |expired|
        invariant Value() == EndedAll(start, Ids(expired[..i]))
      {
        EndOneMore(start, Ids(expired[..i]), expired[i].0);
        assert expired[..i + 1][..i] == expired[..i];
        ExpireSession(expired[i].1, expired[i].0);
        i := i + 1;
      }
      assert expired[..i] == expired;
      ReapedRows(start, now);
    }
  }
}
