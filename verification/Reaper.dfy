/** A reaper pass that other handlers interrupt: the overdue sessions are collected in one
    query, and expired one by one in later statements. */
module Reaper {
  import opened RadiusRows
  import opened Sessions

  /** The tables and what is left of the collected rows, each an id with its username. */
  datatype Pass = Pass(t: Tables, queue: seq<(nat, nat)>)

  datatype Step = Expire | Serve(op: Op)

  predicate Queued(queue: seq<(nat, nat)>, id: nat) {
    exists i :: 0 <= i < |queue| && queue[i].0 == id
  }

  /** The query's result, in whatever order. */
  ghost predicate Lists(t: Tables, now: int, rows: seq<(nat, nat)>) {
    && (forall i :: 0 <= i < |rows| ==>
          rows[i].0 in t.sessions && Overdue(t.sessions[rows[i].0], now) && rows[i].1 == t.sessions[rows[i].0].username)
    && (forall id :: id in t.sessions && Overdue(t.sessions[id], now) ==> Queued(rows, id))
  }

  function Next(p: Pass, s: Step): Pass {
    match s
    case Expire => if p.queue == [] then p else Pass(Ended(p.t, p.queue[0].1, p.queue[0].0), p.queue[1..])
    case Serve(op) => p.(t := Apply(p.t, op))
  }

  /** Other handlers run in between, but no second pass. */
  predicate Enabled(p: Pass, s: Step) {
    s.Serve? ==> !s.op.Reap? && FreshId(p.t, s.op)
  }

  predicate Admissible(p: Pass, steps: seq<Step>)
    decreases |steps|
  {
    steps == [] || (Enabled(p, steps[0]) && Admissible(Next(p, steps[0]), steps[1..]))
  }

  function Run(p: Pass, steps: seq<Step>): Pass
    decreases |steps|
  {
    if steps == [] then p else Run(Next(p, steps[0]), steps[1..])
  }

  /** Nobody terminates this session during the run. */
  predicate Unterminated(steps: seq<Step>, id: nat) {
    forall i :: 0 <= i < |steps| && steps[i].Serve? && steps[i].op.Terminate? ==> steps[i].op.id != id
  }

  // ----- which sessions survive

  /** Still listed, or already expired: expired sessions are never active again. */
  predicate Doomed(p: Pass, id: nat) {
    id in p.t.sessions && (Queued(p.queue, id) || p.t.sessions[id].status == Expired)
  }

  predicate Spared(p: Pass, id: nat) {
    id in p.t.sessions && !Queued(p.queue, id) && p.t.sessions[id].status == Active
  }

  lemma StepKeepsFate(p: Pass, s: Step, id: nat)
    requires Enabled(p, s) && (s.Serve? && s.op.Terminate? ==> s.op.id != id)
    ensures Doomed(p, id) ==> Doomed(Next(p, s), id)
    ensures Spared(p, id) ==> Spared(Next(p, s), id)
  {
    if s.Expire? && p.queue != [] {
      var rest := p.queue[1..];
      assert forall i :: 0 <= i < |rest| ==> rest[i] == p.queue[i + 1];
      if Queued(p.queue, id) && p.queue[0].0 != id {
        var i :| 0 <= i < |p.queue| && p.queue[i].0 == id;
        assert rest[i - 1].0 == id;
      }
    }
  }

  lemma {:induction false} RunKeepsFate(p: Pass, steps: seq<Step>, id: nat)
    requires Admissible(p, steps) && Unterminated(steps, id)
    ensures Doomed(p, id) ==> Doomed(Run(p, steps), id)
    ensures Spared(p, id) ==> Spared(Run(p, steps), id)
    decreases |steps|
  {
    if steps != [] {
      StepKeepsFate(p, steps[0], id);
      assert forall i :: 0 <= i < |steps| - 1 ==> steps[1..][i] == steps[i + 1];
      RunKeepsFate(Next(p, steps[0]), steps[1..], id);
    }
  }

  /** However often a session is extended while the pass is running, it survives the pass if
      and only if it was not overdue when the pass collected. */
  lemma SurvivesIff(t: Tables, now: int, rows: seq<(nat, nat)>, steps: seq<Step>, id: nat)
    requires id in t.sessions && t.sessions[id].status == Active && Lists(t, now, rows)
    requires Admissible(Pass(t, rows), steps) && Unterminated(steps, id) && Run(Pass(t, rows), steps).queue == []
    ensures var t' := Run(Pass(t, rows), steps).t;
            id in t'.sessions && (t'.sessions[id].status == Active <==> !Overdue(t.sessions[id], now))
  {
    var p := Pass(t, rows);
    if !Overdue(t.sessions[id], now) {
      assert Spared(p, id);
    } else {
      assert Doomed(p, id);
    }
    RunKeepsFate(p, steps, id);
  }

  lemma RunTwo(p: Pass, a: Step, b: Step)
    ensures Run(p, [a, b]) == Next(Next(p, a), b)
    ensures Enabled(p, a) && Enabled(Next(p, a), b) ==> Admissible(p, [a, b])
  {
    assert [a, b][1..] == [b] && [b][1..] == [];
    assert Run(Next(p, a), [b]) == Next(Next(p, a), b);
  }

  /** An extension between the two is undone: the session has time left again, and is expired. */
  lemma ExtensionUndone(t: Tables, now: int, id: nat, tenant: nat, plan: Plan, later: int)
    requires ActiveFor(t, id, tenant) && Overdue(t.sessions[id], now) && now <= later && plan.mins > 0
    ensures var u, extend := t.sessions[id].username, Serve(Extend(id, tenant, plan, later, later, later));
            var p := Pass(t, [(id, u)]);
            var extended, done := Next(p, extend).t, Run(p, [extend, Expire]).t;
            && Admissible(p, [extend, Expire])
            && extended.sessions[id].status == Active && later < extended.sessions[id].expiresAt
            && id in done.sessions && done.sessions[id] == extended.sessions[id].(status := Expired)
            && Unauthorized(done, u)
  {
    var u, extend := t.sessions[id].username, Serve(Extend(id, tenant, plan, later, later, later));
    var p := Pass(t, [(id, u)]);
    RunTwo(p, extend, Expire);
    var extended := Next(p, extend).t;
    RowsOfWithout(extended.check, {u}, u);
    RowsOfWithout(extended.reply, {u}, u);
  }

  // ----- authorization stays safe meanwhile

  predicate QueueRight(p: Pass) {
    forall i :: 0 <= i < |p.queue| ==>
      p.queue[i].0 in p.t.sessions && p.queue[i].1 == p.t.sessions[p.queue[i].0].username
  }

  predicate BackedStep(p: Pass, s: Step, user: nat) {
    s.Serve? ==> Backed(p.t, s.op, user)
  }

  predicate BackedSteps(p: Pass, steps: seq<Step>, user: nat)
    decreases |steps|
  {
    steps == [] || (BackedStep(p, steps[0], user) && BackedSteps(Next(p, steps[0]), steps[1..], user))
  }

  lemma StepKeepsSafe(p: Pass, s: Step, user: nat)
    requires Safe(p.t, user) && QueueRight(p) && Enabled(p, s) && BackedStep(p, s, user)
    ensures Safe(Next(p, s).t, user) && QueueRight(Next(p, s))
  {
    if s.Serve? {
      StepSafeIff(p.t, s.op, user);
    } else if p.queue != [] {
      EndOne(p.t, p.queue[0].0);
      EndKeepsSafe(p.t, {p.queue[0].0}, user);
      assert forall i :: 0 <= i < |p.queue| - 1 ==> p.queue[1..][i] == p.queue[i + 1];
    }
  }

  /** An interrupted pass keeps every user with no rows, or with the full set and an active session. */
  lemma {:induction false} InterruptedPassSafe(p: Pass, steps: seq<Step>, user: nat)
    requires Safe(p.t, user) && QueueRight(p) && Admissible(p, steps) && BackedSteps(p, steps, user)
    ensures Safe(Run(p, steps).t, user)
    decreases |steps|
  {
    if steps != [] {
      StepKeepsSafe(p, steps[0], user);
      InterruptedPassSafe(Next(p, steps[0]), steps[1..], user);
    }
  }
}
