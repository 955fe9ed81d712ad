/** Sessions and RADIUS authorization: grant, extend, terminate and reap keep the
    sessions table and the two RADIUS tables in step. Times are nanoseconds. */
module Sessions {
  import opened RadiusRows

  const SECOND: int := 1_000_000_000
  const MINUTE: int := 60 * SECOND
  const MIN_TIMEOUT := 60

  datatype Status = Active | Expired

  datatype Session = Session(tenant: nat, username: nat, status: Status, expiresAt: int)

  datatype Voucher = Voucher(location: nat, plan: Plan, used: bool)

  datatype Tables = Tables(sessions: map<nat, Session>, check: seq<Row>, reply: seq<Row>, vouchers: map<nat, Voucher>)

  /** What the handlers do to these tables. `id` is the new session's identifier; an unstored
      grant is one whose session insert fails, the error being ignored; ExtendSession reads the
      clock three times. A redemption's voucher update fails too, unmarked, if the phone does not
      fit its column. */
  datatype Op =
    | Pay(id: nat, tenant: nat, username: nat, plan: Plan, now: int)
    | CashGrant(id: nat, tenant: nat, username: nat, plan: Plan, now: int)
    | Redeem(code: nat, location: nat, id: nat, tenant: nat, username: nat, now: int)
    | GrantUnstored(username: nat, plan: Plan)
    | RedeemUnstored(code: nat, location: nat, username: nat, marked: bool)
    | Extend(id: nat, tenant: nat, plan: Plan, compared: int, based: int, measured: int)
    | Terminate(id: nat, tenant: nat)
    | Reap(now: int)

  /** A session row is put in and its user's RADIUS rows are replaced. */
  function Put(t: Tables, id: nat, session: Session, plan: Plan, secs: int): Tables {
    var u := session.username;
    t.(sessions := t.sessions[id := session],
       check := Without(t.check, {u}) + CheckRows(u),
       reply := Without(t.reply, {u}) + ReplyRows(u, plan, secs))
  }

  function Granted(t: Tables, id: nat, tenant: nat, username: nat, plan: Plan, now: int): Tables {
    Put(t, id, Session(tenant, username, Active, now + plan.mins * MINUTE), plan, plan.mins * 60)
  }

  /** A grant whose session insert fails: the RADIUS rows are written all the same. */
  function GrantedNowhere(t: Tables, username: nat, plan: Plan, secs: int): Tables {
    t.(check := Without(t.check, {username}) + CheckRows(username),
       reply := Without(t.reply, {username}) + ReplyRows(username, plan, secs))
  }

  predicate Redeemable(t: Tables, code: nat, location: nat) {
    code in t.vouchers && t.vouchers[code].location == location && !t.vouchers[code].used
  }

  function Spent(t: Tables, code: nat): Tables
    requires code in t.vouchers
  {
    t.(vouchers := t.vouchers[code := t.vouchers[code].(used := true)])
  }

  predicate ActiveFor(t: Tables, id: nat, tenant: nat) {
    id in t.sessions && t.sessions[id].tenant == tenant && t.sessions[id].status == Active
  }

  /** The new expiry: from the old one, or from now once it has passed. */
  function NewExpiry(current: int, mins: int, compared: int, based: int): int {
    (if current < compared then based else current) + mins * MINUTE
  }

  /** Whole seconds, the fraction dropped as Go's int() drops it. */
  function WholeSeconds(d: int): int {
    if d >= 0 then d / SECOND else -(-d / SECOND)
  }

  function Timeout(expiry: int, measured: int): int {
    var secs := WholeSeconds(expiry - measured);
    if secs < MIN_TIMEOUT then MIN_TIMEOUT else secs
  }

  /** A session row gets a new expiry and its user's rows a new Session-Timeout. */
  function Prolonged(t: Tables, id: nat, expiry: int, secs: int): Tables
    requires id in t.sessions
  {
    t.(sessions := t.sessions[id := t.sessions[id].(expiresAt := expiry)],
       reply := SetTimeout(t.reply, t.sessions[id].username, secs))
  }

  function Extended(t: Tables, id: nat, plan: Plan, compared: int, based: int, measured: int): Tables
    requires id in t.sessions
  {
    var expiry := NewExpiry(t.sessions[id].expiresAt, plan.mins, compared, based);
    Prolonged(t, id, expiry, Timeout(expiry, measured))
  }

  /** The session ends, and the user's rows go, whatever other sessions the user has. */
  function Ended(t: Tables, username: nat, id: nat): Tables {
    t.(sessions := if id in t.sessions then t.sessions[id := t.sessions[id].(status := Expired)] else t.sessions,
       check := Without(t.check, {username}),
       reply := Without(t.reply, {username}))
  }

  predicate Overdue(s: Session, now: int) {
    s.status == Active && s.expiresAt < now
  }

  function OverdueIds(t: Tables, now: int): set<nat> {
    set id | id in t.sessions && Overdue(t.sessions[id], now)
  }

  function UsersOf(t: Tables, ids: set<nat>): set<nat> {
    set id | id in ids && id in t.sessions :: t.sessions[id].username
  }

  /** All of `ids` ended, in whatever order. */
  function EndedAll(t: Tables, ids: set<nat>): Tables {
    t.(sessions := map id | id in t.sessions ::
      if id in ids then t.sessions[id].(status := Expired) else t.sessions[id],
       check := Without(t.check, UsersOf(t, ids)),
       reply := Without(t.reply, UsersOf(t, ids)))
  }

  function Apply(t: Tables, op: Op): Tables {
    match op
    case Pay(id, tenant, username, plan, now) => Granted(t, id, tenant, username, plan, now)
    case CashGrant(id, tenant, username, plan, now) => Granted(t, id, tenant, username, plan, now)
    case Redeem(code, location, id, tenant, username, now) =>
      if Redeemable(t, code, location) then
        Granted(Spent(t, code), id, tenant, username, t.vouchers[code].plan, now)
      else t
    case GrantUnstored(username, plan) => GrantedNowhere(t, username, plan, plan.mins * 60)
    case RedeemUnstored(code, location, username, marked) =>
      if Redeemable(t, code, location) then
        var plan, t' := t.vouchers[code].plan, if marked then Spent(t, code) else t;
        GrantedNowhere(t', username, plan, plan.mins * 60)
      else t
    case Extend(id, tenant, plan, compared, based, measured) =>
      if ActiveFor(t, id, tenant) then Extended(t, id, plan, compared, based, measured) else t
    case Terminate(id, tenant) =>
      if ActiveFor(t, id, tenant) then Ended(t, t.sessions[id].username, id) else t
    case Reap(now) => EndedAll(t, OverdueIds(t, now))
  }

  function Run(t: Tables, ops: seq<Op>): Tables
    decreases |ops|
  {
    if ops == [] then t else Run(Apply(t, ops[0]), ops[1..])
  }

  /** The user a grant is for, if the operation grants anything. */
  predicate Grants(t: Tables, op: Op) {
    op.Pay? || op.CashGrant? || (op.Redeem? && Redeemable(t, op.code, op.location))
  }

  /** Session identifiers are random UUIDs: a grant never reuses one. */
  predicate FreshId(t: Tables, op: Op) {
    Grants(t, op) ==> op.id !in t.sessions
  }

  predicate FreshIds(t: Tables, ops: seq<Op>)
    decreases |ops|
  {
    ops == [] || (FreshId(t, ops[0]) && FreshIds(Apply(t, ops[0]), ops[1..]))
  }

  // ----- authorization

  predicate HasActive(t: Tables, user: nat) {
    exists id :: id in t.sessions && t.sessions[id].username == user && t.sessions[id].status == Active
  }

  predicate Unauthorized(t: Tables, user: nat) {
    RowsOf(t.check, user) == [] && RowsOf(t.reply, user) == []
  }

  /** One radcheck row and the five radreply attributes, once each, of some plan. */
  ghost predicate Authorized(t: Tables, user: nat) {
    && RowsOf(t.check, user) == CheckRows(user)
    && exists plan: Plan, secs: int :: RowsOf(t.reply, user) == ReplyRows(user, plan, secs)
  }

  ghost predicate Safe(t: Tables, user: nat) {
    Unauthorized(t, user) || (Authorized(t, user) && HasActive(t, user))
  }

  lemma PutRows(t: Tables, id: nat, session: Session, plan: Plan, secs: int, user: nat)
    ensures var t' := Put(t, id, session, plan, secs);
            && RowsOf(t'.check, user) == (if user == session.username then CheckRows(user) else RowsOf(t.check, user))
            && RowsOf(t'.reply, user)
                 == (if user == session.username then ReplyRows(user, plan, secs) else RowsOf(t.reply, user))
  {
    RowsAfterGrant(t.check, session.username, CheckRows(session.username), user);
    RowsAfterGrant(t.reply, session.username, ReplyRows(session.username, plan, secs), user);
  }

  /** The other users' rows are as they were. */
  ghost predicate OthersKept(before: seq<Row>, after: seq<Row>, user: nat) {
    forall u: nat :: u != user ==> RowsOf(after, u) == RowsOf(before, u)
  }

  /** The user is let in, for this many seconds and at the plan's speeds, in kbit/s for the rate
      limit and in bit/s for the two bandwidths. */
  ghost predicate LetIn(check: seq<Row>, reply: seq<Row>, check': seq<Row>, reply': seq<Row>, user: nat, plan: Plan,
      secs: int)
  {
    && RowsOf(check', user) == [Row(user, AuthType, Accept)]
    && RowsOf(reply', user) ==
         [Row(user, SessionTimeout, Number(secs)), Row(user, IdleTimeout, Number(300)),
          Row(user, RateLimit, Rate(plan.down, plan.up)),
          Row(user, MaxDown, Number(1000 * plan.down)), Row(user, MaxUp, Number(1000 * plan.up))]
    && OthersKept(check, check', user) && OthersKept(reply, reply', user)
  }

  /** The user has no rows any more. */
  ghost predicate CutOff(check: seq<Row>, reply: seq<Row>, check': seq<Row>, reply': seq<Row>, user: nat) {
    && RowsOf(check', user) == [] && RowsOf(reply', user) == []
    && OthersKept(check, check', user) && OthersKept(reply, reply', user)
  }

  lemma RowsCutOff(check: seq<Row>, reply: seq<Row>, user: nat)
    ensures CutOff(check, reply, Without(check, {user}), Without(reply, {user}), user)
  {
    forall u: nat
      ensures RowsOf(Without(check, {user}), u) == if u == user then [] else RowsOf(check, u)
      ensures RowsOf(Without(reply, {user}), u) == if u == user then [] else RowsOf(reply, u)
    {
      RowsOfWithout(check, {user}, u);
      RowsOfWithout(reply, {user}, u);
    }
  }

  lemma OthersAfterGrant(rows: seq<Row>, user: nat, mine: seq<Row>)
    requires forall i :: 0 <= i < |mine| ==> mine[i].username == user
    ensures OthersKept(rows, Without(rows, {user}) + mine, user)
  {
    forall u: nat | u != user ensures RowsOf(Without(rows, {user}) + mine, u) == RowsOf(rows, u) {
      RowsAfterGrant(rows, user, mine, u);
    }
  }

  lemma RowsOfPlan(check: seq<Row>, reply: seq<Row>, check': seq<Row>, reply': seq<Row>, user: nat, plan: Plan,
      secs: int)
    requires RowsOf(check', user) == CheckRows(user) && RowsOf(reply', user) == ReplyRows(user, plan, secs)
    requires OthersKept(check, check', user) && OthersKept(reply, reply', user)
    ensures LetIn(check, reply, check', reply', user, plan, secs)
  {
  }

  lemma RowsLetIn(check: seq<Row>, reply: seq<Row>, user: nat, plan: Plan, secs: int)
    ensures LetIn(check, reply, Without(check, {user}) + CheckRows(user),
                  Without(reply, {user}) + ReplyRows(user, plan, secs), user, plan, secs)
  {
    var check' := Without(check, {user}) + CheckRows(user);
    var reply' := Without(reply, {user}) + ReplyRows(user, plan, secs);
    RowsAfterGrant(check, user, CheckRows(user), user);
    RowsAfterGrant(reply, user, ReplyRows(user, plan, secs), user);
    OthersAfterGrant(check, user, CheckRows(user));
    OthersAfterGrant(reply, user, ReplyRows(user, plan, secs));
    RowsOfPlan(check, reply, check', reply', user, plan, secs);
  }

  /** A grant adds one active session of the plan's length, and the router is told exactly the time
      the session row has left. */
  lemma GrantMatchesPlan(t: Tables, id: nat, tenant: nat, username: nat, plan: Plan, now: int)
    ensures var t' := Granted(t, id, tenant, username, plan, now);
            var left := plan.mins * 60;
            && t'.sessions == t.sessions[id := Session(tenant, username, Active, now + left * 1_000_000_000)]
            && t'.vouchers == t.vouchers
            && LetIn(t.check, t.reply, t'.check, t'.reply, username, plan, left)
  {
    RowsLetIn(t.check, t.reply, username, plan, plan.mins * 60);
  }

  /** An extension tells the router the whole seconds left, at least sixty, and nothing else. */
  lemma ExtensionTold(t: Tables, id: nat, plan: Plan, compared: int, based: int, measured: int)
    requires id in t.sessions && Authorized(t, t.sessions[id].username)
    ensures var u, t' := t.sessions[id].username, Extended(t, id, plan, compared, based, measured);
            var left := t'.sessions[id].expiresAt - measured;
            && t'.check == t.check && OthersKept(t.reply, t'.reply, u) && Authorized(t', u)
            && exists secs: int ::
                 && Tells(t'.reply, u, SessionTimeout, Number(secs))
                 && (if left < 60 * 1_000_000_000 then secs == 60
                     else secs * 1_000_000_000 <= left < (secs + 1) * 1_000_000_000)
  {
    var u, t' := t.sessions[id].username, Extended(t, id, plan, compared, based, measured);
    var secs := Timeout(t'.sessions[id].expiresAt, measured);
    var p: Plan, s: int :| RowsOf(t.reply, u) == ReplyRows(u, p, s);
    TimeoutTold(t.reply, u, p, s, secs);
    assert RowsOf(t'.reply, u) == ReplyRows(u, p, secs);
    assert Tells(t'.reply, u, SessionTimeout, Number(secs));
  }

  lemma PutKeepsSafe(t: Tables, id: nat, session: Session, plan: Plan, secs: int, user: nat)
    requires Safe(t, user) && id !in t.sessions && session.status == Active
    ensures Safe(Put(t, id, session, plan, secs), user)
  {
    var t' := Put(t, id, session, plan, secs);
    PutRows(t, id, session, plan, secs, user);
    if user == session.username {
      assert id in t'.sessions;
    } else if HasActive(t, user) {
      var k :| k in t.sessions && t.sessions[k].username == user && t.sessions[k].status == Active;
      assert k in t'.sessions && t'.sessions[k] == t.sessions[k];
    }
  }

  lemma GrantKeepsSafe(t: Tables, id: nat, tenant: nat, username: nat, plan: Plan, now: int, user: nat)
    requires Safe(t, user) && id !in t.sessions
    ensures Safe(Granted(t, id, tenant, username, plan, now), user)
  {
    PutKeepsSafe(t, id, Session(tenant, username, Active, now + plan.mins * MINUTE), plan, plan.mins * 60, user);
  }

  /** Such a grant authorizes the phone although nothing will ever expire it, unless the phone
      has an active session anyway. */
  lemma GrantNowhereSafeIff(t: Tables, username: nat, plan: Plan, secs: int)
    ensures Safe(GrantedNowhere(t, username, plan, secs), username) <==> HasActive(t, username)
    ensures var t' := GrantedNowhere(t, username, plan, secs);
            && t'.sessions == t.sessions && Authorized(t', username)
            && LetIn(t.check, t.reply, t'.check, t'.reply, username, plan, secs)
  {
    var t' := GrantedNowhere(t, username, plan, secs);
    RowsLetIn(t.check, t.reply, username, plan, secs);
    assert RowsOf(t'.reply, username) == ReplyRows(username, plan, secs);
    assert Authorized(t', username) && !Unauthorized(t', username);
    assert HasActive(t', username) <==> HasActive(t, username);
  }

  /** It is nothing to any other user. */
  lemma GrantNowhereOthers(t: Tables, username: nat, plan: Plan, secs: int, user: nat)
    requires user != username
    ensures var t' := GrantedNowhere(t, username, plan, secs);
            && (Safe(t', user) <==> Safe(t, user))
            && (Authorized(t', user) <==> Authorized(t, user)) && (HasActive(t', user) <==> HasActive(t, user))
  {
    RowsAfterGrant(t.check, username, CheckRows(username), user);
    RowsAfterGrant(t.reply, username, ReplyRows(username, plan, secs), user);
  }

  lemma ProlongedKeepsSafe(t: Tables, id: nat, expiry: int, secs: int, user: nat)
    requires Safe(t, user) && id in t.sessions
    ensures Safe(Prolonged(t, id, expiry, secs), user)
  {
    var t' := Prolonged(t, id, expiry, secs);
    RowsOfSetTimeout(t.reply, t.sessions[id].username, secs, user);
    if Authorized(t, user) {
      var p: Plan, s: int :| RowsOf(t.reply, user) == ReplyRows(user, p, s);
      assert SetTimeout(ReplyRows(user, p, s), user, secs) == ReplyRows(user, p, secs);
      var k :| k in t.sessions && t.sessions[k].username == user && t.sessions[k].status == Active;
      assert k in t'.sessions && t'.sessions[k].username == user && t'.sessions[k].status == Active;
    }
  }

  lemma ExtendKeepsSafe(t: Tables, id: nat, plan: Plan, compared: int, based: int, measured: int, user: nat)
    requires Safe(t, user) && id in t.sessions
    ensures Safe(Extended(t, id, plan, compared, based, measured), user)
  {
    var expiry := NewExpiry(t.sessions[id].expiresAt, plan.mins, compared, based);
    ProlongedKeepsSafe(t, id, expiry, Timeout(expiry, measured), user);
  }

  lemma EndKeepsSafe(t: Tables, ids: set<nat>, user: nat)
    requires Safe(t, user)
    ensures Safe(EndedAll(t, ids), user)
    ensures user !in UsersOf(t, ids) ==>
              && RowsOf(EndedAll(t, ids).check, user) == RowsOf(t.check, user)
              && RowsOf(EndedAll(t, ids).reply, user) == RowsOf(t.reply, user)
    ensures user in UsersOf(t, ids) ==> Unauthorized(EndedAll(t, ids), user)
  {
    var t' := EndedAll(t, ids);
    RowsOfWithout(t.check, UsersOf(t, ids), user);
    RowsOfWithout(t.reply, UsersOf(t, ids), user);
    if user !in UsersOf(t, ids) && HasActive(t, user) {
      var k :| k in t.sessions && t.sessions[k].username == user && t.sessions[k].status == Active;
      assert k in t'.sessions && t'.sessions[k] == t.sessions[k];
    }
  }

  /** Ending one session of its own user is ending a set of one. */
  lemma EndOne(t: Tables, id: nat)
    requires id in t.sessions
    ensures Ended(t, t.sessions[id].username, id) == EndedAll(t, {id})
  {
    assert UsersOf(t, {id}) == {t.sessions[id].username};
    assert Ended(t, t.sessions[id].username, id).sessions == EndedAll(t, {id}).sessions;
  }

  /** The operation writes no RADIUS rows for this user without a session, or the user has an
      active one already. */
  predicate Backed(t: Tables, op: Op, user: nat) {
    || !(op.GrantUnstored? || (op.RedeemUnstored? && Redeemable(t, op.code, op.location)))
    || op.username != user
    || HasActive(t, user)
  }

  lemma UnstoredSafeIff(t: Tables, marked: Tables, username: nat, plan: Plan, user: nat)
    requires Safe(t, user) && marked == t.(vouchers := marked.vouchers)
    ensures Safe(GrantedNowhere(marked, username, plan, plan.mins * 60), user) <==>
              username != user || HasActive(t, user)
  {
    assert HasActive(marked, user) <==> HasActive(t, user);
    if user == username {
      GrantNowhereSafeIff(marked, username, plan, plan.mins * 60);
    } else {
      GrantNowhereOthers(marked, username, plan, plan.mins * 60, user);
    }
  }

  /** Every operation keeps a user safe, except exactly an unstored grant to a user without an
      active session. */
  lemma StepSafeIff(t: Tables, op: Op, user: nat)
    requires Safe(t, user) && FreshId(t, op)
    ensures Safe(Apply(t, op), user) <==> Backed(t, op, user)
  {
    match op
    case Pay(id, tenant, username, plan, now) => GrantKeepsSafe(t, id, tenant, username, plan, now, user);
    case CashGrant(id, tenant, username, plan, now) => GrantKeepsSafe(t, id, tenant, username, plan, now, user);
    case Redeem(code, location, id, tenant, username, now) =>
      if Redeemable(t, code, location) {
        var marked := t.(vouchers := t.vouchers[code := t.vouchers[code].(used := true)]);
        assert HasActive(t, user) ==> HasActive(marked, user);
        GrantKeepsSafe(marked, id, tenant, username, t.vouchers[code].plan, now, user);
      }
    case GrantUnstored(username, plan) => UnstoredSafeIff(t, t, username, plan, user);
    case RedeemUnstored(code, location, username, marks) =>
      if Redeemable(t, code, location) {
        var marked := if marks then Spent(t, code) else t;
        UnstoredSafeIff(t, marked, username, t.vouchers[code].plan, user);
      }
    case Extend(id, tenant, plan, compared, based, measured) =>
      if ActiveFor(t, id, tenant) {
        ExtendKeepsSafe(t, id, plan, compared, based, measured, user);
      }
    case Terminate(id, tenant) =>
      if ActiveFor(t, id, tenant) {
        EndOne(t, id);
        EndKeepsSafe(t, {id}, user);
      }
    case Reap(now) => EndKeepsSafe(t, OverdueIds(t, now), user);
  }

  predicate BackedRun(t: Tables, ops: seq<Op>, user: nat)
    decreases |ops|
  {
    ops == [] || (Backed(t, ops[0], user) && BackedRun(Apply(t, ops[0]), ops[1..], user))
  }

  lemma {:induction false} RunKeepsSafe(t: Tables, ops: seq<Op>, user: nat)
    requires Safe(t, user) && FreshIds(t, ops) && BackedRun(t, ops, user)
    ensures Safe(Run(t, ops), user)
    decreases |ops|
  {
    if ops != [] {
      StepSafeIff(t, ops[0], user);
      RunKeepsSafe(Apply(t, ops[0]), ops[1..], user);
    }
  }

  function Empty(vouchers: map<nat, Voucher>): Tables {
    Tables(map[], [], [], vouchers)
  }

  /** Over every run in which a user's unstored grants find it with an active session, the user
      has either no RADIUS rows at all, or exactly the full set and then an active session. */
  lemma AuthorizationSafety(vouchers: map<nat, Voucher>, ops: seq<Op>, user: nat)
    requires FreshIds(Empty(vouchers), ops) && BackedRun(Empty(vouchers), ops, user)
    ensures Safe(Run(Empty(vouchers), ops), user)
  {
    RunKeepsSafe(Empty(vouchers), ops, user);
  }

  // ----- the converse

  /** An active session authorizes its user. */
  ghost predicate Served(t: Tables, user: nat) {
    HasActive(t, user) ==> Authorized(t, user)
  }

  predicate OneActive(t: Tables, user: nat) {
    forall a, b :: a in t.sessions && b in t.sessions && a != b
                   && t.sessions[a].username == user && t.sessions[b].username == user
                   ==> t.sessions[a].status == Expired || t.sessions[b].status == Expired
  }

  /** A grant is made only to a user without an active session. */
  predicate NoOverlap(t: Tables, op: Op) {
    Grants(t, op) ==> !HasActive(t, op.username)
  }

  predicate NoOverlaps(t: Tables, ops: seq<Op>)
    decreases |ops|
  {
    ops == [] || (NoOverlap(t, ops[0]) && NoOverlaps(Apply(t, ops[0]), ops[1..]))
  }

  /** Ending a session keeps its user served exactly when it was the user's only active one. */
  lemma EndKeepsServedIff(t: Tables, id: nat)
    requires id in t.sessions && t.sessions[id].status == Active
    ensures var u := t.sessions[id].username;
            Served(Ended(t, u, id), u) <==>
              forall k :: k in t.sessions && k != id && t.sessions[k].username == u ==> t.sessions[k].status == Expired
  {
    var u := t.sessions[id].username;
    var t' := Ended(t, u, id);
    RowsOfWithout(t.check, {u}, u);
    assert !Authorized(t', u);
    if k :| k in t.sessions && k != id && t.sessions[k].username == u && t.sessions[k].status == Active {
      assert k in t'.sessions && t'.sessions[k] == t.sessions[k];
      assert HasActive(t', u);
    }
  }

  /** Ending sessions keeps a user with at most one active session served. */
  lemma EndKeepsServed(t: Tables, ids: set<nat>, user: nat)
    requires Served(t, user) && OneActive(t, user) && Safe(t, user)
    requires forall id :: id in ids ==> id in t.sessions && t.sessions[id].status == Active
    ensures Served(EndedAll(t, ids), user) && OneActive(EndedAll(t, ids), user)
  {
    EndKeepsSafe(t, ids, user);
    var t' := EndedAll(t, ids);
    if HasActive(t', user) {
      var k :| k in t'.sessions && t'.sessions[k].username == user && t'.sessions[k].status == Active;
      assert k !in ids && t.sessions[k] == t'.sessions[k];
      assert HasActive(t, user);
      forall id | id in ids ensures t.sessions[id].username != user {
        assert id != k && t.sessions[id].status == Active;
      }
    }
  }

  lemma GrantKeepsOneActive(t: Tables, id: nat, tenant: nat, username: nat, plan: Plan, now: int, user: nat)
    requires OneActive(t, user) && id !in t.sessions && !HasActive(t, username)
    ensures OneActive(Granted(t, id, tenant, username, plan, now), user)
  {
    var t' := Granted(t, id, tenant, username, plan, now);
    forall k | k in t.sessions && t.sessions[k].username == username ensures t.sessions[k].status == Expired {
      assert t.sessions[k].status == Active ==> HasActive(t, username);
    }
  }

  lemma GrantKeepsServed(t: Tables, id: nat, tenant: nat, username: nat, plan: Plan, now: int, user: nat)
    requires Served(t, user)
    ensures Served(Granted(t, id, tenant, username, plan, now), user)
  {
    var t' := Granted(t, id, tenant, username, plan, now);
    PutRows(t, id, Session(tenant, username, Active, now + plan.mins * MINUTE), plan, plan.mins * 60, user);
    if user != username && HasActive(t', user) {
      var k :| k in t'.sessions && t'.sessions[k].username == user && t'.sessions[k].status == Active;
      assert k in t.sessions && t.sessions[k] == t'.sessions[k];
      assert HasActive(t, user);
    }
  }

  lemma ExtendKeepsServed(t: Tables, id: nat, plan: Plan, compared: int, based: int, measured: int, user: nat)
    requires Safe(t, user) && Served(t, user) && OneActive(t, user) && id in t.sessions
    ensures var t' := Extended(t, id, plan, compared, based, measured); Served(t', user) && OneActive(t', user)
  {
    var t' := Extended(t, id, plan, compared, based, measured);
    ExtendKeepsSafe(t, id, plan, compared, based, measured, user);
    if HasActive(t', user) {
      var k :| k in t'.sessions && t'.sessions[k].username == user && t'.sessions[k].status == Active;
      assert k in t.sessions && t.sessions[k].username == user && t.sessions[k].status == Active;
      assert HasActive(t, user);
      assert RowsOf(t'.check, user) == RowsOf(t.check, user) != [];
    }
  }

  lemma UnstoredKeepsServed(t: Tables, marked: Tables, username: nat, plan: Plan, user: nat)
    requires Served(t, user) && OneActive(t, user) && marked == t.(vouchers := marked.vouchers)
    ensures var t' := GrantedNowhere(marked, username, plan, plan.mins * 60); Served(t', user) && OneActive(t', user)
  {
    assert HasActive(marked, user) <==> HasActive(t, user);
    if user == username {
      GrantNowhereSafeIff(marked, username, plan, plan.mins * 60);
    } else {
      GrantNowhereOthers(marked, username, plan, plan.mins * 60, user);
    }
  }

  lemma StepKeepsServed(t: Tables, op: Op, user: nat)
    requires Safe(t, user) && Served(t, user) && OneActive(t, user) && FreshId(t, op) && NoOverlap(t, op)
    ensures Served(Apply(t, op), user) && OneActive(Apply(t, op), user)
  {
    match op
    case Pay(id, tenant, username, plan, now) =>
      GrantKeepsServed(t, id, tenant, username, plan, now, user);
      GrantKeepsOneActive(t, id, tenant, username, plan, now, user);
    case CashGrant(id, tenant, username, plan, now) =>
      GrantKeepsServed(t, id, tenant, username, plan, now, user);
      GrantKeepsOneActive(t, id, tenant, username, plan, now, user);
    case Redeem(code, location, id, tenant, username, now) =>
      if Redeemable(t, code, location) {
        var marked := t.(vouchers := t.vouchers[code := t.vouchers[code].(used := true)]);
        GrantKeepsServed(marked, id, tenant, username, t.vouchers[code].plan, now, user);
        GrantKeepsOneActive(marked, id, tenant, username, t.vouchers[code].plan, now, user);
      }
    case GrantUnstored(username, plan) => UnstoredKeepsServed(t, t, username, plan, user);
    case RedeemUnstored(code, location, username, marks) =>
      if Redeemable(t, code, location) {
        var marked := if marks then Spent(t, code) else t;
        UnstoredKeepsServed(t, marked, username, t.vouchers[code].plan, user);
      }
    case Extend(id, tenant, plan, compared, based, measured) =>
      if ActiveFor(t, id, tenant) {
        ExtendKeepsServed(t, id, plan, compared, based, measured, user);
      }
    case Terminate(id, tenant) =>
      if ActiveFor(t, id, tenant) {
        EndOne(t, id);
        EndKeepsServed(t, {id}, user);
      }
    case Reap(now) => EndKeepsServed(t, OverdueIds(t, now), user);
  }

  lemma {:induction false} RunKeepsServed(t: Tables, ops: seq<Op>, user: nat)
    requires Safe(t, user) && Served(t, user) && OneActive(t, user)
    requires FreshIds(t, ops) && NoOverlaps(t, ops) && BackedRun(t, ops, user)
    ensures Served(Run(t, ops), user)
    decreases |ops|
  {
    if ops != [] {
      StepSafeIff(t, ops[0], user);
      StepKeepsServed(t, ops[0], user);
      RunKeepsServed(Apply(t, ops[0]), ops[1..], user);
    }
  }

  /** In runs where no user is granted a second session while one is active, being authorized
      and having an active session are the same thing. */
  lemma AuthorizedIffActive(vouchers: map<nat, Voucher>, ops: seq<Op>, user: nat)
    requires FreshIds(Empty(vouchers), ops) && NoOverlaps(Empty(vouchers), ops) && BackedRun(Empty(vouchers), ops, user)
    ensures var t := Run(Empty(vouchers), ops); Authorized(t, user) <==> HasActive(t, user)
  {
    RunKeepsSafe(Empty(vouchers), ops, user);
    RunKeepsServed(Empty(vouchers), ops, user);
  }

  lemma RunThree(t: Tables, a: Op, b: Op, z: Op)
    ensures Run(t, [a, b, z]) == Apply(Apply(Apply(t, a), b), z)
  {
    assert [a, b, z][1..] == [b, z] && [b, z][1..] == [z] && [z][1..] == [];
    assert Run(Apply(Apply(t, a), b), [z]) == Apply(Apply(Apply(t, a), b), z);
  }

  lemma ActiveHas(t: Tables, id: nat)
    requires id in t.sessions && t.sessions[id].status == Active
    ensures HasActive(t, t.sessions[id].username)
  {
  }

  /** With overlap it fails: ending the first of two sessions cuts off the second. */
  lemma OverlapCutsOff(tenant: nat, user: nat, plan: Plan, now: int)
    ensures var ops := [Pay(1, tenant, user, plan, now), CashGrant(2, tenant, user, plan, now), Terminate(1, tenant)];
            var t := Run(Empty(map[]), ops);
            HasActive(t, user) && Unauthorized(t, user)
  {
    var a, b, z := Pay(1, tenant, user, plan, now), CashGrant(2, tenant, user, plan, now), Terminate(1, tenant);
    RunThree(Empty(map[]), a, b, z);
    var t2 := Apply(Apply(Empty(map[]), a), b);
    assert ActiveFor(t2, 1, tenant) && t2.sessions[1].username == user;
    assert 2 in t2.sessions && t2.sessions[2].status == Active && t2.sessions[2].username == user;
    var t3 := Ended(t2, user, 1);
    assert Apply(t2, z) == t3;
    ActiveHas(t3, 2);
    RowsOfWithout(t2.check, {user}, user);
    RowsOfWithout(t2.reply, {user}, user);
  }

  // ----- the reaper

  predicate HasOverdue(t: Tables, user: nat, now: int) {
    exists id :: id in t.sessions && t.sessions[id].username == user
                 && t.sessions[id].status == Active && t.sessions[id].expiresAt < now
  }

  lemma OverdueUsers(t: Tables, user: nat, now: int)
    ensures user in UsersOf(t, OverdueIds(t, now)) <==> HasOverdue(t, user, now)
  {
    if id :| id in t.sessions && t.sessions[id].username == user
             && t.sessions[id].status == Active && t.sessions[id].expiresAt < now {
      assert id in OverdueIds(t, now);
    }
  }

  /** One pass expires exactly the overdue sessions, deletes exactly their users' rows, and leaves
      everything else as it was. */
  lemma ReapedRows(t: Tables, now: int)
    ensures var t' := Apply(t, Reap(now));
            && t'.sessions.Keys == t.sessions.Keys && t'.vouchers == t.vouchers
            && (forall id :: id in t.sessions ==>
                  var overdue := t.sessions[id].status == Active && t.sessions[id].expiresAt < now;
                  t'.sessions[id] == if overdue then t.sessions[id].(status := Expired) else t.sessions[id])
            && (forall u: nat ::
                  if HasOverdue(t, u, now) then Unauthorized(t', u)
                  else RowsOf(t'.check, u) == RowsOf(t.check, u) && RowsOf(t'.reply, u) == RowsOf(t.reply, u))
  {
    var ids := OverdueIds(t, now);
    forall u: nat
      ensures RowsOf(EndedAll(t, ids).check, u) == if HasOverdue(t, u, now) then [] else RowsOf(t.check, u)
      ensures RowsOf(EndedAll(t, ids).reply, u) == if HasOverdue(t, u, now) then [] else RowsOf(t.reply, u)
    {
      RowsOfWithout(t.check, UsersOf(t, ids), u);
      RowsOfWithout(t.reply, UsersOf(t, ids), u);
      OverdueUsers(t, u, now);
    }
  }

  /** Hence whoever is still authorized after a pass has an active session with time left. */
  lemma ReapedState(t: Tables, now: int)
    requires forall u: nat :: Safe(t, u)
    ensures var t' := Apply(t, Reap(now));
            forall u: nat :: Authorized(t', u) ==>
              exists id :: id in t'.sessions && t'.sessions[id].username == u
                           && t'.sessions[id].status == Active && now <= t'.sessions[id].expiresAt
  {
    var t' := Apply(t, Reap(now));
    ReapedRows(t, now);
    forall u: nat | Authorized(t', u)
      ensures exists id :: id in t'.sessions && t'.sessions[id].username == u
                           && t'.sessions[id].status == Active && now <= t'.sessions[id].expiresAt
    {
      EndKeepsSafe(t, OverdueIds(t, now), u);
      assert Safe(t', u) && !Unauthorized(t', u);
      var id :| id in t'.sessions && t'.sessions[id].username == u && t'.sessions[id].status == Active;
      assert t'.sessions[id] == t.sessions[id];
    }
  }

  // ----- vouchers

  /** The operation redeems this voucher, and its update of the voucher succeeds. */
  predicate Spends(t: Tables, op: Op, code: nat) {
    (op.Redeem? || (op.RedeemUnstored? && op.marked)) && op.code == code && Redeemable(t, code, op.location)
  }

  /** Such a redemption marks its own voucher used; no other operation, and no other voucher, changes. */
  lemma SpendingMarks(t: Tables, op: Op, code: nat)
    requires code in t.vouchers
    ensures var after := Apply(t, op).vouchers;
            && after.Keys == t.vouchers.Keys
            && after[code] == if Spends(t, op, code) then t.vouchers[code].(used := true) else t.vouchers[code]
  {
  }

  /** Hence a second redemption of the code changes nothing. */
  lemma RedeemedOnce(t: Tables, op: Op, again: Op, code: nat)
    requires Spends(t, op, code) && (again.Redeem? || again.RedeemUnstored?) && again.code == code
    ensures Apply(t, op).vouchers == t.vouchers[code := t.vouchers[code].(used := true)]
    ensures Apply(Apply(t, op), again) == Apply(t, op)
  {
    SpendingMarks(t, op, code);
  }

  /** How many operations of a run redeem the voucher. */
  function Spendings(t: Tables, ops: seq<Op>, code: nat): nat
    decreases |ops|
  {
    if ops == [] then 0
    else (if Spends(t, ops[0], code) then 1 else 0) + Spendings(Apply(t, ops[0]), ops[1..], code)
  }

  /** Over every run at most one redemption of a voucher grants and is marked, none once the voucher
      is used, and the voucher ends up used exactly when it was or there was one. */
  lemma {:induction false} VoucherGrantsOnce(t: Tables, ops: seq<Op>, code: nat)
    requires code in t.vouchers
    ensures Spendings(t, ops, code) <= if t.vouchers[code].used then 0 else 1
    ensures var after := Run(t, ops).vouchers;
            && code in after
            && after[code] == t.vouchers[code].(used := t.vouchers[code].used || Spendings(t, ops, code) == 1)
    decreases |ops|
  {
    if ops != [] {
      SpendingMarks(t, ops[0], code);
      VoucherGrantsOnce(Apply(t, ops[0]), ops[1..], code);
    }
  }

  /** A redemption for a phone that fits neither table authorizes the phone and leaves the voucher
      to be redeemed again. */
  lemma UnmarkedRedemption(t: Tables, code: nat, location: nat, username: nat)
    requires Redeemable(t, code, location)
    ensures var t' := Apply(t, RedeemUnstored(code, location, username, false));
            Authorized(t', username) && Redeemable(t', code, location)
  {
    GrantNowhereSafeIff(t, username, t.vouchers[code].plan, t.vouchers[code].plan.mins * 60);
  }
}
