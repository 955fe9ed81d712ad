/** Authorization safety when the statements of different users' handlers interleave
    freely: what one user's rows look like depends on that user's own statements only,
    so it is enough that handlers for the same user do not overlap. */
module Interleaving {
  import opened RadiusRows
  import opened Sessions

  /** One SQL statement of a grant, an extension or an expiry, with the user it is run for. */
  datatype Stmt =
    | PutSession(user: nat, id: nat, session: Session)
    | SetExpiry(user: nat, id: nat, expiry: int)
    | MarkExpired(user: nat, id: nat)
    | ClearCheck(user: nat)
    | AddCheck(user: nat)
    | ClearReply(user: nat)
    | AddReply(user: nat, attribute: Attribute, value: Value)
    | UpdateTimeout(user: nat, secs: int)

  function Do(t: Tables, s: Stmt): Tables {
    match s
    case PutSession(_, id, session) => t.(sessions := t.sessions[id := session])
    case SetExpiry(_, id, expiry) =>
      if id !in t.sessions then t
      else t.(sessions := t.sessions[id := t.sessions[id].(expiresAt := expiry)])
    case MarkExpired(_, id) =>
      if id !in t.sessions then t
      else t.(sessions := t.sessions[id := t.sessions[id].(status := Expired)])
    case ClearCheck(user) => t.(check := Without(t.check, {user}))
    case AddCheck(user) => t.(check := t.check + [Row(user, AuthType, Accept)])
    case ClearReply(user) => t.(reply := Without(t.reply, {user}))
    case AddReply(user, attribute, value) => t.(reply := t.reply + [Row(user, attribute, value)])
    case UpdateTimeout(user, secs) => t.(reply := SetTimeout(t.reply, user, secs))
  }

  function DoAll(t: Tables, stmts: seq<Stmt>): Tables
    decreases |stmts|
  {
    if stmts == [] then t else DoAll(Do(t, stmts[0]), stmts[1..])
  }

  /** A statement touches only sessions of the user it is run for, and new ids are new. */
  predicate Proper(t: Tables, s: Stmt) {
    match s
    case PutSession(user, id, session) => session.username == user && id !in t.sessions
    case SetExpiry(user, id, _) => id in t.sessions ==> t.sessions[id].username == user
    case MarkExpired(user, id) => id in t.sessions ==> t.sessions[id].username == user
    case _ => true
  }

  predicate ProperRun(t: Tables, stmts: seq<Stmt>)
    decreases |stmts|
  {
    stmts == [] || (Proper(t, stmts[0]) && ProperRun(Do(t, stmts[0]), stmts[1..]))
  }

  /** The statements run for one user, in schedule order. */
  function Mine(stmts: seq<Stmt>, user: nat): seq<Stmt> {
    if stmts == [] then []
    else if stmts[0].user == user then [stmts[0]] + Mine(stmts[1..], user)
    else Mine(stmts[1..], user)
  }

  /** The tables look the same to this user. */
  predicate SameFor(a: Tables, b: Tables, user: nat) {
    && RowsOf(a.check, user) == RowsOf(b.check, user)
    && RowsOf(a.reply, user) == RowsOf(b.reply, user)
    && (forall id :: id in a.sessions && a.sessions[id].username == user ==>
          id in b.sessions && b.sessions[id] == a.sessions[id])
    && (forall id :: id in b.sessions && b.sessions[id].username == user ==>
          id in a.sessions && a.sessions[id] == b.sessions[id])
  }

  lemma RowsAfterStatement(t: Tables, s: Stmt, user: nat)
    ensures RowsOf(Do(t, s).check, user) ==
              if s.user != user then RowsOf(t.check, user)
              else if s.ClearCheck? then []
              else if s.AddCheck? then RowsOf(t.check, user) + [Row(user, AuthType, Accept)]
              else RowsOf(t.check, user)
    ensures RowsOf(Do(t, s).reply, user) ==
              if s.user != user then RowsOf(t.reply, user)
              else if s.ClearReply? then []
              else if s.AddReply? then RowsOf(t.reply, user) + [Row(user, s.attribute, s.value)]
              else if s.UpdateTimeout? then SetTimeout(RowsOf(t.reply, user), user, s.secs)
              else RowsOf(t.reply, user)
  {
    match s
    case ClearCheck(u) => RowsOfWithout(t.check, {u}, user);
    case ClearReply(u) => RowsOfWithout(t.reply, {u}, user);
    case AddCheck(u) => assert (t.check + [Row(u, AuthType, Accept)])[..|t.check|] == t.check;
    case AddReply(u, a, v) => assert (t.reply + [Row(u, a, v)])[..|t.reply|] == t.reply;
    case UpdateTimeout(u, secs) => RowsOfSetTimeout(t.reply, u, secs, user);
    case _ =>
  }

  lemma OthersStatementUnseen(t: Tables, s: Stmt, user: nat)
    requires Proper(t, s) && s.user != user
    ensures SameFor(Do(t, s), t, user)
  {
    RowsAfterStatement(t, s, user);
  }

  lemma OwnStatementSame(a: Tables, b: Tables, s: Stmt)
    requires Proper(a, s) && SameFor(a, b, s.user) && (s.PutSession? ==> s.id !in b.sessions)
    requires (s.SetExpiry? || s.MarkExpired?) && s.id in b.sessions ==> b.sessions[s.id].username == s.user
    ensures SameFor(Do(a, s), Do(b, s), s.user)
  {
    RowsAfterStatement(a, s, s.user);
    RowsAfterStatement(b, s, s.user);
  }

  /** The tables `b` never hold a session that `a` does not. */
  predicate Within(b: Tables, a: Tables) {
    forall id :: id in b.sessions ==> id in a.sessions && a.sessions[id].username == b.sessions[id].username
  }

  /** Whatever the schedule, a user's view is the one its own statements alone produce. */
  lemma {:induction false} OwnStatementsDecide(a: Tables, b: Tables, stmts: seq<Stmt>, user: nat)
    requires ProperRun(a, stmts) && SameFor(a, b, user) && Within(b, a)
    ensures SameFor(DoAll(a, stmts), DoAll(b, Mine(stmts, user)), user)
    decreases |stmts|
  {
    if stmts != [] {
      var s := stmts[0];
      if s.user == user {
        OwnStatementSame(a, b, s);
        assert Mine(stmts, user)[1..] == Mine(stmts[1..], user);
        OwnStatementsDecide(Do(a, s), Do(b, s), stmts[1..], user);
      } else {
        OthersStatementUnseen(a, s, user);
        OwnStatementsDecide(Do(a, s), b, stmts[1..], user);
      }
    }
  }

  // ----- the handlers as statement lists

  datatype Handler =
    | GrantHandler(id: nat, session: Session, plan: Plan, secs: int)
    | UnstoredHandler(user: nat, plan: Plan, secs: int)
    | ExtendHandler(user: nat, id: nat, expiry: int, secs: int)
    | ExpireHandler(user: nat, id: nat)

  function Statements(h: Handler): seq<Stmt> {
    match h
    case GrantHandler(id, session, plan, secs) =>
      var u := session.username;
      [PutSession(u, id, session), ClearCheck(u), AddCheck(u), ClearReply(u),
       AddReply(u, SessionTimeout, Number(secs)), AddReply(u, IdleTimeout, Number(300)),
       AddReply(u, RateLimit, Rate(plan.down, plan.up)),
       AddReply(u, MaxDown, Number(plan.down * 1000)), AddReply(u, MaxUp, Number(plan.up * 1000))]
    case UnstoredHandler(u, plan, secs) =>
      [ClearCheck(u), AddCheck(u), ClearReply(u),
       AddReply(u, SessionTimeout, Number(secs)), AddReply(u, IdleTimeout, Number(300)),
       AddReply(u, RateLimit, Rate(plan.down, plan.up)),
       AddReply(u, MaxDown, Number(plan.down * 1000)), AddReply(u, MaxUp, Number(plan.up * 1000))]
    case ExtendHandler(u, id, expiry, secs) => [SetExpiry(u, id, expiry), UpdateTimeout(u, secs)]
    case ExpireHandler(u, id) => [MarkExpired(u, id), ClearCheck(u), ClearReply(u)]
  }

  function UserOf(h: Handler): nat {
    match h
    case GrantHandler(_, session, _, _) => session.username
    case UnstoredHandler(u, _, _) => u
    case ExtendHandler(u, _, _, _) => u
    case ExpireHandler(u, _) => u
  }

  /** A handler starts from what it read: a fresh id, an active session, or a session of its user;
      a grant whose session insert fails meets a user with an active session. */
  predicate Sound(t: Tables, h: Handler) {
    match h
    case GrantHandler(id, session, _, _) => id !in t.sessions && session.status == Active
    case UnstoredHandler(u, _, _) => HasActive(t, u)
    case ExtendHandler(u, id, _, _) => id in t.sessions && t.sessions[id].username == u
    case ExpireHandler(u, id) => id in t.sessions && t.sessions[id].username == u
  }

  function Serial(handlers: seq<Handler>): seq<Stmt> {
    if handlers == [] then [] else Statements(handlers[0]) + Serial(handlers[1..])
  }

  predicate SoundRun(t: Tables, handlers: seq<Handler>)
    decreases |handlers|
  {
    handlers == [] || (Sound(t, handlers[0]) && SoundRun(DoAll(t, Statements(handlers[0])), handlers[1..]))
  }

  lemma {:induction false} DoAllAppend(t: Tables, a: seq<Stmt>, b: seq<Stmt>)
    ensures DoAll(t, a + b) == DoAll(DoAll(t, a), b)
    decreases |a|
  {
    if a == [] {
      assert a + b == b;
    } else {
      assert (a + b)[1..] == a[1..] + b;
      DoAllAppend(Do(t, a[0]), a[1..], b);
    }
  }

  lemma DoNext(t: Tables, s: Stmt, rest: seq<Stmt>)
    ensures DoAll(t, [s] + rest) == DoAll(Do(t, s), rest)
  {
    assert ([s] + rest)[1..] == rest;
  }

  lemma DoFour(t: Tables, a: Stmt, b: Stmt, c: Stmt, d: Stmt)
    ensures DoAll(t, [a, b, c, d]) == Do(Do(Do(Do(t, a), b), c), d)
  {
    assert [a, b, c, d] == [a] + [b, c, d] && [b, c, d] == [b] + [c, d] && [c, d] == [c] + [d] && [d] == [d] + [];
    DoNext(t, a, [b, c, d]);
    DoNext(Do(t, a), b, [c, d]);
    DoNext(Do(Do(t, a), b), c, [d]);
    DoNext(Do(Do(Do(t, a), b), c), d, []);
  }

  lemma {:induction false} AddReplies(t: Tables, u: nat, rows: seq<Row>, stmts: seq<Stmt>)
    requires |stmts| == |rows|
    requires forall i :: 0 <= i < |rows| ==>
               rows[i].username == u && stmts[i] == AddReply(u, rows[i].attribute, rows[i].value)
    ensures DoAll(t, stmts) == t.(reply := t.reply + rows)
    decreases |stmts|
  {
    if stmts != [] {
      var t' := Do(t, stmts[0]);
      AddReplies(t', u, rows[1..], stmts[1..]);
      assert t.reply + [rows[0]] + rows[1..] == t.reply + rows;
    } else {
      assert t.reply + rows == t.reply;
    }
  }

  /** A grant's nine statements, run in a row, are the grant of module Sessions. */
  lemma GrantStatements(t: Tables, id: nat, session: Session, plan: Plan, secs: int)
    ensures DoAll(t, Statements(GrantHandler(id, session, plan, secs))) == Put(t, id, session, plan, secs)
  {
    var u, p := session.username, Statements(GrantHandler(id, session, plan, secs));
    var first := [PutSession(u, id, session), ClearCheck(u), AddCheck(u), ClearReply(u)];
    assert p == first + p[4..];
    DoAllAppend(t, first, p[4..]);
    DoFour(t, PutSession(u, id, session), ClearCheck(u), AddCheck(u), ClearReply(u));
    AddReplies(DoAll(t, first), u, ReplyRows(u, plan, secs), p[4..]);
  }

  lemma UnstoredStatements(t: Tables, u: nat, plan: Plan, secs: int)
    ensures DoAll(t, Statements(UnstoredHandler(u, plan, secs))) == GrantedNowhere(t, u, plan, secs)
  {
    var p, a, b, c := Statements(UnstoredHandler(u, plan, secs)), ClearCheck(u), AddCheck(u), ClearReply(u);
    assert p == [a] + p[1..] && p[1..] == [b] + p[2..] && p[2..] == [c] + p[3..];
    DoNext(t, a, p[1..]);
    DoNext(Do(t, a), b, p[2..]);
    DoNext(Do(Do(t, a), b), c, p[3..]);
    AddReplies(Do(Do(Do(t, a), b), c), u, ReplyRows(u, plan, secs), p[3..]);
  }

  lemma ExtendStatements(t: Tables, user: nat, id: nat, expiry: int, secs: int)
    requires id in t.sessions && t.sessions[id].username == user
    ensures DoAll(t, Statements(ExtendHandler(user, id, expiry, secs))) == Prolonged(t, id, expiry, secs)
  {
    DoNext(t, SetExpiry(user, id, expiry), [UpdateTimeout(user, secs)]);
    DoNext(Do(t, SetExpiry(user, id, expiry)), UpdateTimeout(user, secs), []);
    assert Statements(ExtendHandler(user, id, expiry, secs))
      == [SetExpiry(user, id, expiry)] + [UpdateTimeout(user, secs)];
    assert [UpdateTimeout(user, secs)] == [UpdateTimeout(user, secs)] + [];
  }

  lemma ExpireStatements(t: Tables, user: nat, id: nat)
    ensures DoAll(t, Statements(ExpireHandler(user, id))) == Ended(t, user, id)
  {
    var a, b, z := MarkExpired(user, id), ClearCheck(user), ClearReply(user);
    DoNext(t, a, [b, z]);
    DoNext(Do(t, a), b, [z]);
    DoNext(Do(Do(t, a), b), z, []);
    assert [a, b, z] == [a] + [b, z] && [b, z] == [b] + [z] && [z] == [z] + [];
  }

  // ----- between the statements of one handler

  /** A statement that writes RADIUS rows leaves the sessions as they are. */
  lemma {:induction false} RowsOnly(t: Tables, stmts: seq<Stmt>)
    requires forall i :: 0 <= i < |stmts| ==> !stmts[i].PutSession? && !stmts[i].SetExpiry? && !stmts[i].MarkExpired?
    ensures DoAll(t, stmts).sessions == t.sessions
    decreases |stmts|
  {
    if stmts != [] {
      RowsOnly(Do(t, stmts[0]), stmts[1..]);
    }
  }

  /** A grant puts its session in first: at no moment of it are there rows without an active session. */
  lemma GrantNeverEarly(t: Tables, id: nat, session: Session, plan: Plan, secs: int, k: nat)
    requires Safe(t, session.username) && id !in t.sessions && session.status == Active && k <= 9
    ensures var stmts := Statements(GrantHandler(id, session, plan, secs));
            |stmts| == 9
              && (Unauthorized(DoAll(t, stmts[..k]), session.username)
                  || HasActive(DoAll(t, stmts[..k]), session.username))
  {
    var stmts := Statements(GrantHandler(id, session, plan, secs));
    if k > 0 {
      var put := stmts[0];
      assert stmts[..k] == [put] + stmts[1..k];
      DoNext(t, put, stmts[1..k]);
      forall i | 0 <= i < k - 1
        ensures var s := stmts[1..k][i]; s.ClearCheck? || s.AddCheck? || s.ClearReply? || s.AddReply?
      {
        assert stmts[1..k][i] == stmts[i + 1];
      }
      RowsOnly(Do(t, put), stmts[1..k]);
      assert id in DoAll(t, stmts[..k]).sessions && DoAll(t, stmts[..k]).sessions[id] == session;
    }
  }

  /** An expiry marks the session first: until its second statement the user keeps the rows, and
      until its third the reply rows, without that session. */
  lemma ExpiryWindow(t: Tables, user: nat, id: nat)
    requires id in t.sessions && t.sessions[id].username == user
    ensures var stmts := Statements(ExpireHandler(user, id));
            var marked, cleared := DoAll(t, stmts[..1]), DoAll(t, stmts[..2]);
            && marked == t.(sessions := t.sessions[id := t.sessions[id].(status := Expired)])
            && RowsOf(cleared.check, user) == [] && cleared.reply == t.reply && cleared.sessions == marked.sessions
  {
    var a, b := MarkExpired(user, id), ClearCheck(user);
    assert Statements(ExpireHandler(user, id))[..1] == [a] + [];
    assert Statements(ExpireHandler(user, id))[..2] == [a] + ([b] + []);
    DoNext(t, a, []);
    DoNext(t, a, [b] + []);
    DoNext(Do(t, a), b, []);
    RowsOfWithout(t.check, {user}, user);
  }

  /** An extension moves the expiry first: until its second statement the router has the old timeout. */
  lemma ExtensionWindow(t: Tables, user: nat, id: nat, expiry: int, secs: int)
    requires id in t.sessions
    ensures DoAll(t, Statements(ExtendHandler(user, id, expiry, secs))[..1])
         == t.(sessions := t.sessions[id := t.sessions[id].(expiresAt := expiry)])
  {
    var a := SetExpiry(user, id, expiry);
    assert Statements(ExtendHandler(user, id, expiry, secs))[..1] == [a] + [];
    DoNext(t, a, []);
  }

  lemma HandlerKeepsSafe(t: Tables, h: Handler)
    requires Safe(t, UserOf(h)) && Sound(t, h)
    ensures Safe(DoAll(t, Statements(h)), UserOf(h))
  {
    var user := UserOf(h);
    match h
    case GrantHandler(id, session, plan, secs) =>
      GrantStatements(t, id, session, plan, secs);
      PutKeepsSafe(t, id, session, plan, secs, user);
    case UnstoredHandler(_, plan, secs) =>
      UnstoredStatements(t, user, plan, secs);
      GrantNowhereSafeIff(t, user, plan, secs);
    case ExtendHandler(_, id, expiry, secs) =>
      ExtendStatements(t, user, id, expiry, secs);
      ProlongedKeepsSafe(t, id, expiry, secs, user);
    case ExpireHandler(_, id) =>
      ExpireStatements(t, user, id);
      EndOne(t, id);
      EndKeepsSafe(t, {id}, user);
  }

  lemma {:induction false} SerialKeepsSafe(t: Tables, handlers: seq<Handler>, user: nat)
    requires Safe(t, user) && SoundRun(t, handlers) && forall i :: 0 <= i < |handlers| ==> UserOf(handlers[i]) == user
    ensures Safe(DoAll(t, Serial(handlers)), user)
    decreases |handlers|
  {
    if handlers != [] {
      HandlerKeepsSafe(t, handlers[0]);
      assert forall i :: 0 <= i < |handlers| - 1 ==> handlers[1..][i] == handlers[i + 1];
      SerialKeepsSafe(DoAll(t, Statements(handlers[0])), handlers[1..], user);
      DoAllAppend(t, Statements(handlers[0]), Serial(handlers[1..]));
    }
  }

  /** Any schedule of statements, in which this user's own statements are those of complete
      handlers run one after another, leaves the user with no RADIUS rows or with the full
      set and an active session, whatever other users' handlers do in between. */
  lemma InterleavedSafety(t: Tables, stmts: seq<Stmt>, handlers: seq<Handler>, user: nat)
    requires ProperRun(t, stmts) && Safe(t, user)
    requires Mine(stmts, user) == Serial(handlers)
    requires SoundRun(t, handlers) && forall i :: 0 <= i < |handlers| ==> UserOf(handlers[i]) == user
    ensures Safe(DoAll(t, stmts), user)
  {
    OwnStatementsDecide(t, t, stmts, user);
    SerialKeepsSafe(t, handlers, user);
  }
}
