/** Redemptions of one voucher with the check and the writes in separate statements. */
module VoucherRaces {
  import opened RadiusRows
  import opened Sessions

  datatype Redemption = Redemption(id: nat, tenant: nat, username: nat, plan: Plan)

  /** The tables and the redemptions past their check. */
  datatype Counter = Counter(t: Tables, checked: seq<Redemption>)

  datatype Step =
    | Check(location: nat, id: nat, tenant: nat, username: nat)
    | Write(which: nat, now: int)

  function Next(c: Counter, code: nat, s: Step): Counter
    requires code in c.t.vouchers
  {
    match s
    case Check(location, id, tenant, username) =>
      if Redeemable(c.t, code, location) then
        c.(checked := c.checked + [Redemption(id, tenant, username, c.t.vouchers[code].plan)])
      else c
    case Write(k, now) =>
      if k >= |c.checked| then c
      else
        var r := c.checked[k];
        var granted := Granted(Spent(c.t, code), r.id, r.tenant, r.username, r.plan, now);
        Counter(granted, c.checked[..k] + c.checked[k + 1..])
  }

  lemma NextKeepsVoucher(c: Counter, code: nat, s: Step)
    requires code in c.t.vouchers
    ensures var c' := Next(c, code, s);
            && code in c'.t.vouchers
            && c'.t.vouchers[code].location == c.t.vouchers[code].location
            && (c'.t.vouchers[code].used <==> c.t.vouchers[code].used || (s.Write? && s.which < |c.checked|))
  {
  }

  function Run(c: Counter, code: nat, steps: seq<Step>): Counter
    requires code in c.t.vouchers
    decreases |steps|
  {
    if steps == [] then c
    else
      NextKeepsVoucher(c, code, steps[0]);
      Run(Next(c, code, steps[0]), code, steps[1..])
  }

  /** The checks at the voucher's own location that come before the first write of a
      redemption past its check; `open` of them are past it already. */
  function ChecksBeforeWrite(steps: seq<Step>, home: nat, open: nat): nat
    decreases |steps|
  {
    if steps == [] then 0
    else if steps[0].Check? then
      if steps[0].location == home then 1 + ChecksBeforeWrite(steps[1..], home, open + 1)
      else ChecksBeforeWrite(steps[1..], home, open)
    else if steps[0].which < open then 0
    else ChecksBeforeWrite(steps[1..], home, open)
  }

  // ----- the session rows added

  /** The ids of active sessions that were not in the table at the start. */
  function Added(before: set<nat>, t: Tables): set<nat> {
    set id | id in t.sessions && id !in before && t.sessions[id].status == Active
  }

  /** A new session id is in no row and in no other redemption past its check. */
  predicate FreshStep(c: Counter, s: Step) {
    s.Check? ==> s.id !in c.t.sessions && forall i :: 0 <= i < |c.checked| ==> c.checked[i].id != s.id
  }

  predicate FreshRun(c: Counter, code: nat, steps: seq<Step>)
    requires code in c.t.vouchers
    decreases |steps|
  {
    if steps == [] then true
    else
      NextKeepsVoucher(c, code, steps[0]);
      FreshStep(c, steps[0]) && FreshRun(Next(c, code, steps[0]), code, steps[1..])
  }

  predicate CheckedFresh(before: set<nat>, c: Counter) {
    && (forall i :: 0 <= i < |c.checked| ==> c.checked[i].id !in c.t.sessions && c.checked[i].id !in before)
    && (forall i, j :: 0 <= i < j < |c.checked| ==> c.checked[i].id != c.checked[j].id)
  }

  /** The rows added, and those the redemptions past their check will add. */
  function Weight(before: set<nat>, c: Counter): nat {
    |Added(before, c.t)| + |c.checked|
  }

  lemma WriteAddsOne(before: set<nat>, c: Counter, code: nat, k: nat, now: int)
    requires code in c.t.vouchers && CheckedFresh(before, c) && k < |c.checked|
    ensures var c' := Next(c, code, Write(k, now));
            CheckedFresh(before, c') && Weight(before, c') == Weight(before, c)
  {
    var c', r := Next(c, code, Write(k, now)), c.checked[k];
    assert Added(before, c'.t) == Added(before, c.t) + {r.id};
    forall i | 0 <= i < |c'.checked|
      ensures c'.checked[i] == c.checked[if i < k then i else i + 1] && c'.checked[i].id != r.id
    {
    }
  }

  lemma StepWeight(before: set<nat>, c: Counter, code: nat, s: Step)
    requires code in c.t.vouchers && CheckedFresh(before, c) && FreshStep(c, s) && before <= c.t.sessions.Keys
    ensures var c' := Next(c, code, s);
            && CheckedFresh(before, c') && before <= c'.t.sessions.Keys
            && Weight(before, c') == Weight(before, c) + if s.Check? && Redeemable(c.t, code, s.location) then 1 else 0
  {
    if s.Write? {
      if s.which < |c.checked| {
        WriteAddsOne(before, c, code, s.which, s.now);
      }
    } else {
      assert s.id !in c.t.sessions.Keys;
    }
  }

  lemma {:induction false} UsedGrantsNoMore(before: set<nat>, c: Counter, code: nat, steps: seq<Step>)
    requires code in c.t.vouchers && c.t.vouchers[code].used
    requires FreshRun(c, code, steps) && CheckedFresh(before, c) && before <= c.t.sessions.Keys
    ensures Weight(before, Run(c, code, steps)) == Weight(before, c)
    decreases |steps|
  {
    if steps != [] {
      NextKeepsVoucher(c, code, steps[0]);
      StepWeight(before, c, code, steps[0]);
      UsedGrantsNoMore(before, Next(c, code, steps[0]), code, steps[1..]);
    }
  }

  lemma {:induction false} GrantsCounted(before: set<nat>, c: Counter, code: nat, steps: seq<Step>)
    requires code in c.t.vouchers && !c.t.vouchers[code].used
    requires FreshRun(c, code, steps) && CheckedFresh(before, c) && before <= c.t.sessions.Keys
    ensures Weight(before, Run(c, code, steps))
         == Weight(before, c) + ChecksBeforeWrite(steps, c.t.vouchers[code].location, |c.checked|)
    decreases |steps|
  {
    if steps != [] {
      var c1 := Next(c, code, steps[0]);
      NextKeepsVoucher(c, code, steps[0]);
      StepWeight(before, c, code, steps[0]);
      if c1.t.vouchers[code].used {
        UsedGrantsNoMore(before, c1, code, steps[1..]);
      } else {
        GrantsCounted(before, c1, code, steps[1..]);
      }
    }
  }

  /** When every redemption has finished, an unused voucher has added as many active session
      rows as redemptions checked it before the first of them wrote: at most one exactly when at
      most one did. */
  lemma VoucherGrants(t: Tables, code: nat, steps: seq<Step>)
    requires code in t.vouchers && !t.vouchers[code].used && FreshRun(Counter(t, []), code, steps)
    requires Run(Counter(t, []), code, steps).checked == []
    ensures |Added(t.sessions.Keys, Run(Counter(t, []), code, steps).t)|
         == ChecksBeforeWrite(steps, t.vouchers[code].location, 0)
  {
    assert Added(t.sessions.Keys, t) == {};
    GrantsCounted(t.sessions.Keys, Counter(t, []), code, steps);
  }

  /** Two phones that check one voucher side by side both get a session on it. */
  lemma OneVoucherTwoSessions(t: Tables, code: nat, first: nat, second: nat, a: nat, b: nat, tenant: nat, now: int)
    requires code in t.vouchers && !t.vouchers[code].used && first != second
    ensures var home := t.vouchers[code].location;
            var steps := [Check(home, first, tenant, a), Check(home, second, tenant, b), Write(0, now), Write(0, now)];
            var c := Run(Counter(t, []), code, steps);
            && c.checked == []
            && c.t.vouchers == t.vouchers[code := t.vouchers[code].(used := true)]
            && var expiry := now + t.vouchers[code].plan.mins * 60_000_000_000;
               c.t.sessions == t.sessions[first := Session(tenant, a, Active, expiry)]
                                         [second := Session(tenant, b, Active, expiry)]
  {
    var home, plan := t.vouchers[code].location, t.vouchers[code].plan;
    var p, q, w := Check(home, first, tenant, a), Check(home, second, tenant, b), Write(0, now);
    var c2 := Counter(t, [Redemption(first, tenant, a, plan), Redemption(second, tenant, b, plan)]);
    assert Next(Next(Counter(t, []), code, p), code, q) == c2;
    var c3 := Next(c2, code, w);
    assert c3.checked == [Redemption(second, tenant, b, plan)];
    var c4 := Next(c3, code, w);
    assert c4.checked == [];
    assert [p, q, w, w][1..] == [q, w, w] && [q, w, w][1..] == [w, w] && [w, w][1..] == [w] && [w][1..] == [];
    assert Run(c3, code, [w]) == c4;
    assert Run(c2, code, [w, w]) == c4;
    assert Run(Next(Counter(t, []), code, p), code, [q, w, w]) == c4;
  }
}
