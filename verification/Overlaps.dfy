/** Handlers of one user whose statements overlap: what any schedule leaves in the tables,
    and exactly when two overlapping grants leave them right. */
module Overlaps {
  import opened RadiusRows
  import opened Sessions
  import opened Interleaving
  import opened Sequences

  // ----- what a schedule leaves, read off the schedule

  function CheckStep(n: nat, s: Stmt, user: nat): nat {
    if s.user != user then n
    else if s.ClearCheck? then 0
    else if s.AddCheck? then n + 1
    else n
  }

  /** How many AddChecks of this user follow its last ClearCheck. */
  function ChecksSince(stmts: seq<Stmt>, user: nat): nat {
    if stmts == [] then 0 else CheckStep(ChecksSince(stmts[..|stmts| - 1], user), stmts[|stmts| - 1], user)
  }

  function ReplyStep(rows: seq<Row>, s: Stmt, user: nat): seq<Row> {
    if s.user != user then rows
    else if s.ClearReply? then []
    else if s.AddReply? then rows + [Row(user, s.attribute, s.value)]
    else if s.UpdateTimeout? then SetTimeout(rows, user, s.secs)
    else rows
  }

  /** The rows of the AddReplys of this user that follow its last ClearReply, with the
      timeouts set since they were added. */
  function RepliesSince(stmts: seq<Stmt>, user: nat): seq<Row> {
    if stmts == [] then [] else ReplyStep(RepliesSince(stmts[..|stmts| - 1], user), stmts[|stmts| - 1], user)
  }

  function ActiveStep(ids: set<nat>, s: Stmt, user: nat): set<nat> {
    if s.user != user then ids
    else if s.PutSession? && s.session.status == Active then ids + {s.id}
    else if s.MarkExpired? then ids - {s.id}
    else ids
  }

  /** The sessions of this user that are put active, or were, and not expired afterwards. */
  function ActiveLeft(ids: set<nat>, stmts: seq<Stmt>, user: nat): set<nat> {
    if stmts == [] then ids else ActiveStep(ActiveLeft(ids, stmts[..|stmts| - 1], user), stmts[|stmts| - 1], user)
  }

  function ActiveIds(t: Tables, user: nat): set<nat> {
    set id | id in t.sessions && t.sessions[id].username == user && t.sessions[id].status == Active
  }

  function AcceptRows(user: nat, n: nat): (rows: seq<Row>)
    ensures |rows| == n
  {
    Repeat(Row(user, AuthType, Accept), n)
  }

  predicate ClearsCheck(stmts: seq<Stmt>, user: nat) {
    exists i :: 0 <= i < |stmts| && stmts[i] == ClearCheck(user)
  }

  predicate ClearsReply(stmts: seq<Stmt>, user: nat) {
    exists i :: 0 <= i < |stmts| && stmts[i] == ClearReply(user)
  }

  lemma DoAllSnoc(t: Tables, stmts: seq<Stmt>)
    requires stmts != []
    ensures DoAll(t, stmts) == Do(DoAll(t, stmts[..|stmts| - 1]), stmts[|stmts| - 1])
  {
    var front, last := stmts[..|stmts| - 1], stmts[|stmts| - 1];
    assert stmts == front + [last];
    DoAllAppend(t, front, [last]);
    assert [last] == [last] + [];
    DoNext(DoAll(t, front), last, []);
  }

  lemma {:induction false} ProperRunSnoc(t: Tables, stmts: seq<Stmt>)
    requires stmts != [] && ProperRun(t, stmts)
    ensures ProperRun(t, stmts[..|stmts| - 1]) && Proper(DoAll(t, stmts[..|stmts| - 1]), stmts[|stmts| - 1])
    decreases |stmts|
  {
    if |stmts| > 1 {
      ProperRunSnoc(Do(t, stmts[0]), stmts[1..]);
      assert stmts[..|stmts| - 1][1..] == stmts[1..][..|stmts| - 2];
    }
  }

  lemma CheckRowsStep(t: Tables, s: Stmt, user: nat, n: nat)
    requires s == ClearCheck(user) || RowsOf(t.check, user) == AcceptRows(user, n)
    ensures RowsOf(Do(t, s).check, user) == AcceptRows(user, CheckStep(n, s, user))
  {
    RowsAfterStatement(t, s, user);
    assert AcceptRows(user, n) + [Row(user, AuthType, Accept)] == AcceptRows(user, n + 1);
  }

  /** After any schedule a user's radcheck rows are the AddChecks since the last ClearCheck,
      if the schedule clears or the user had no rows before. */
  lemma {:induction false} ChecksAreThoseSinceClear(t: Tables, stmts: seq<Stmt>, user: nat)
    requires ClearsCheck(stmts, user) || RowsOf(t.check, user) == []
    ensures RowsOf(DoAll(t, stmts).check, user) == AcceptRows(user, ChecksSince(stmts, user))
    decreases |stmts|
  {
    if stmts != [] {
      var front, last := stmts[..|stmts| - 1], stmts[|stmts| - 1];
      DoAllSnoc(t, stmts);
      if last != ClearCheck(user) {
        ChecksAreThoseSinceClear(t, front, user);
      }
      CheckRowsStep(DoAll(t, front), last, user, ChecksSince(front, user));
    }
  }

  lemma ReplyRowsStep(t: Tables, s: Stmt, user: nat, rows: seq<Row>)
    requires s == ClearReply(user) || RowsOf(t.reply, user) == rows
    ensures RowsOf(Do(t, s).reply, user) == ReplyStep(rows, s, user)
  {
    RowsAfterStatement(t, s, user);
  }

  lemma {:induction false} RepliesAreThoseSinceClear(t: Tables, stmts: seq<Stmt>, user: nat)
    requires ClearsReply(stmts, user) || RowsOf(t.reply, user) == []
    ensures RowsOf(DoAll(t, stmts).reply, user) == RepliesSince(stmts, user)
    decreases |stmts|
  {
    if stmts != [] {
      var front, last := stmts[..|stmts| - 1], stmts[|stmts| - 1];
      DoAllSnoc(t, stmts);
      if last != ClearReply(user) {
        RepliesAreThoseSinceClear(t, front, user);
      }
      ReplyRowsStep(DoAll(t, front), last, user, RepliesSince(front, user));
    }
  }

  lemma {:induction false} ActiveAreThoseLeft(t: Tables, stmts: seq<Stmt>, user: nat)
    requires ProperRun(t, stmts)
    ensures ActiveIds(DoAll(t, stmts), user) == ActiveLeft(ActiveIds(t, user), stmts, user)
    decreases |stmts|
  {
    if stmts != [] {
      ProperRunSnoc(t, stmts);
      DoAllSnoc(t, stmts);
      ActiveAreThoseLeft(t, stmts[..|stmts| - 1], user);
    }
  }

  ghost predicate IsReplySet(rows: seq<Row>, user: nat) {
    exists plan: Plan, secs: int :: rows == ReplyRows(user, plan, secs)
  }

  /** The exact condition, for any schedule of statements of any handlers, complete or not:
      the user ends with no rows, or with one AddCheck after the last ClearCheck, the five
      replies of one plan after the last ClearReply, and a session left active. */
  lemma ScheduleSafeIff(t: Tables, stmts: seq<Stmt>, user: nat)
    requires ProperRun(t, stmts)
    requires ClearsCheck(stmts, user) || RowsOf(t.check, user) == []
    requires ClearsReply(stmts, user) || RowsOf(t.reply, user) == []
    ensures Safe(DoAll(t, stmts), user) <==>
              || (ChecksSince(stmts, user) == 0 && RepliesSince(stmts, user) == [])
              || (ChecksSince(stmts, user) == 1 && IsReplySet(RepliesSince(stmts, user), user)
                  && ActiveLeft(ActiveIds(t, user), stmts, user) != {})
  {
    var t', n := DoAll(t, stmts), ChecksSince(stmts, user);
    ChecksAreThoseSinceClear(t, stmts, user);
    RepliesAreThoseSinceClear(t, stmts, user);
    ActiveAreThoseLeft(t, stmts, user);
    assert AcceptRows(user, n) == [] <==> n == 0;
    assert AcceptRows(user, n) == CheckRows(user) <==> n == 1;
    assert HasActive(t', user) <==> ActiveIds(t', user) != {} by {
      if HasActive(t', user) {
        var id :| id in t'.sessions && t'.sessions[id].username == user && t'.sessions[id].status == Active;
        assert id in ActiveIds(t', user);
      }
      if ActiveIds(t', user) != {} {
        var id :| id in ActiveIds(t', user);
        assert id in t'.sessions;
      }
    }
  }

  // ----- two complete grants of one user, merged

  /** This user's statements in the schedule are `a` and `b`, each in its own order. */
  predicate Merged(a: seq<Stmt>, b: seq<Stmt>, stmts: seq<Stmt>, user: nat)
    decreases |stmts|
  {
    if stmts == [] then a == [] && b == []
    else
      var front, last := stmts[..|stmts| - 1], stmts[|stmts| - 1];
      if last.user != user then Merged(a, b, front, user)
      else
        || (a != [] && a[|a| - 1] == last && Merged(a[..|a| - 1], b, front, user))
        || (b != [] && b[|b| - 1] == last && Merged(a, b[..|b| - 1], front, user))
  }

  datatype Grant = Grant(id: nat, session: Session, plan: Plan, secs: int)

  function GrantStmts(g: Grant): (stmts: seq<Stmt>)
    ensures |stmts| == 9 && forall i :: 0 <= i < 9 ==> stmts[i].user == g.session.username
  {
    Statements(GrantHandler(g.id, g.session, g.plan, g.secs))
  }

  function Replies(g: Grant): (rows: seq<Row>)
    ensures |rows| == 5
  {
    ReplyRows(g.session.username, g.plan, g.secs)
  }

  lemma GrantStmtAt(g: Grant, k: nat)
    requires k < 9
    ensures var s, u := GrantStmts(g)[k], g.session.username;
            && (k == 0 ==> s == PutSession(u, g.id, g.session))
            && (s == ClearCheck(u) <==> k == 1) && (s == AddCheck(u) <==> k == 2) && (s == ClearReply(u) <==> k == 3)
            && (k >= 4 ==> s == AddReply(u, Replies(g)[k - 4].attribute, Replies(g)[k - 4].value))
            && !s.MarkExpired? && !s.UpdateTimeout?
  {
  }

  /** This grant cleared last: all its replies since are there, and if nothing else is, they
      are the rows in order. */
  predicate RepliesLed(rows: seq<Row>, g: Grant, done: nat) {
    4 <= done <= 9 && |rows| >= done - 4 && (|rows| == done - 4 ==> rows == Replies(g)[..done - 4])
  }

  predicate ChecksLed(n: nat, done: nat) {
    2 <= done && (3 <= done ==> n >= 1)
  }

  lemma NobodyLeads(rows: seq<Row>, g: Grant, k: nat)
    requires k < 4
    ensures k == 3 ==> RepliesLed(ReplyStep(rows, GrantStmts(g)[k], g.session.username), g, k + 1)
  {
    GrantStmtAt(g, k);
  }

  predicate Progress(a: seq<Stmt>, b: seq<Stmt>, g: Grant, h: Grant) {
    && |a| <= 9 && a == GrantStmts(g)[..|a|]
    && |b| <= 9 && b == GrantStmts(h)[..|b|]
    && g.session.username == h.session.username
  }

  lemma ProgressBack(a: seq<Stmt>, b: seq<Stmt>, g: Grant, h: Grant)
    requires Progress(a, b, g, h) && a != []
    ensures Progress(a[..|a| - 1], b, g, h) && a[|a| - 1] == GrantStmts(g)[|a| - 1]
  {
    assert a[..|a| - 1] == GrantStmts(g)[..|a| - 1];
  }

  predicate MergeInv(a: seq<Stmt>, b: seq<Stmt>, stmts: seq<Stmt>, g: Grant, h: Grant, user: nat) {
    var n, rows := ChecksSince(stmts, user), RepliesSince(stmts, user);
    && (ChecksLed(n, |a|) || ChecksLed(n, |b|) || (|a| < 2 && |b| < 2))
    && (RepliesLed(rows, g, |a|) || RepliesLed(rows, h, |b|) || (|a| < 4 && |b| < 4))
    && (|a| >= 2 || |b| >= 2 ==> ClearsCheck(stmts, user))
    && (|a| >= 4 || |b| >= 4 ==> ClearsReply(stmts, user))
  }

  lemma MergeStep(a: seq<Stmt>, b: seq<Stmt>, stmts: seq<Stmt>, g: Grant, h: Grant, user: nat)
    requires Progress(a, b, g, h) && user == g.session.username && a != [] && stmts != []
    requires stmts[|stmts| - 1] == a[|a| - 1]
    requires MergeInv(a[..|a| - 1], b, stmts[..|stmts| - 1], g, h, user)
    ensures MergeInv(a, b, stmts, g, h, user)
  {
    var front, last, k := stmts[..|stmts| - 1], stmts[|stmts| - 1], |a| - 1;
    var rows := RepliesSince(front, user);
    ProgressBack(a, b, g, h);
    GrantStmtAt(g, k);
    if !RepliesLed(rows, g, k) && !RepliesLed(rows, h, |b|) {
      NobodyLeads(rows, g, k);
    }
  }

  lemma {:induction false} MergeKeepsInv(a: seq<Stmt>, b: seq<Stmt>, stmts: seq<Stmt>, g: Grant, h: Grant, user: nat)
    requires Progress(a, b, g, h) && user == g.session.username && Merged(a, b, stmts, user)
    ensures MergeInv(a, b, stmts, g, h, user)
    decreases |stmts|
  {
    if stmts != [] {
      var front, last := stmts[..|stmts| - 1], stmts[|stmts| - 1];
      if last.user != user {
        MergeKeepsInv(a, b, front, g, h, user);
      } else if a != [] && a[|a| - 1] == last && Merged(a[..|a| - 1], b, front, user) {
        ProgressBack(a, b, g, h);
        MergeKeepsInv(a[..|a| - 1], b, front, g, h, user);
        MergeStep(a, b, stmts, g, h, user);
      } else {
        ProgressBack(b, a, h, g);
        MergeKeepsInv(a, b[..|b| - 1], front, g, h, user);
        MergeStep(b, a, stmts, h, g, user);
      }
    }
  }

  /** The first grant's session is active once it has been put. */
  lemma {:induction false} PutStaysActive(ids: set<nat>, a: seq<Stmt>, b: seq<Stmt>, stmts: seq<Stmt>,
      g: Grant, h: Grant, user: nat)
    requires Progress(a, b, g, h) && user == g.session.username && Merged(a, b, stmts, user)
    requires g.session.status == Active && h.session.status == Active
    ensures a != [] ==> g.id in ActiveLeft(ids, stmts, user)
    decreases |stmts|
  {
    if stmts != [] {
      var front, last := stmts[..|stmts| - 1], stmts[|stmts| - 1];
      if last.user != user {
        PutStaysActive(ids, a, b, front, g, h, user);
      } else if a != [] && a[|a| - 1] == last && Merged(a[..|a| - 1], b, front, user) {
        ProgressBack(a, b, g, h);
        GrantStmtAt(g, |a| - 1);
        PutStaysActive(ids, a[..|a| - 1], b, front, g, h, user);
      } else {
        ProgressBack(b, a, h, g);
        GrantStmtAt(h, |b| - 1);
        PutStaysActive(ids, a, b[..|b| - 1], front, g, h, user);
      }
    }
  }

  /** Two complete grants of one user, their eighteen statements merged in any way and mixed
      with any statements of other users, end safe exactly when one AddCheck follows the last
      ClearCheck and five AddReplys follow the last ClearReply. */
  lemma OverlappingGrantsSafeIff(t: Tables, g: Grant, h: Grant, stmts: seq<Stmt>, user: nat)
    requires g.session.username == user && h.session.username == user
    requires g.session.status == Active && h.session.status == Active
    requires ProperRun(t, stmts) && Merged(GrantStmts(g), GrantStmts(h), stmts, user)
    ensures Safe(DoAll(t, stmts), user) <==> ChecksSince(stmts, user) == 1 && |RepliesSince(stmts, user)| == 5
  {
    var a, b := GrantStmts(g), GrantStmts(h);
    assert a == a[..9] && b == b[..9];
    MergeKeepsInv(a, b, stmts, g, h, user);
    PutStaysActive(ActiveIds(t, user), a, b, stmts, g, h, user);
    ScheduleSafeIff(t, stmts, user);
    var rows := RepliesSince(stmts, user);
    if |rows| == 5 {
      assert Replies(g)[..5] == Replies(g) && Replies(h)[..5] == Replies(h);
      assert rows == ReplyRows(user, g.plan, g.secs) || rows == ReplyRows(user, h.plan, h.secs);
    }
  }

  // ----- a schedule where they end wrong

  lemma MergedFirst(a: seq<Stmt>, b: seq<Stmt>, stmts: seq<Stmt>, s: Stmt, user: nat)
    requires Merged(a, b, stmts, user) && s.user == user
    ensures Merged(a + [s], b, stmts + [s], user)
  {
    assert (stmts + [s])[..|stmts|] == stmts && (a + [s])[..|a|] == a;
  }

  lemma MergedSecond(a: seq<Stmt>, b: seq<Stmt>, stmts: seq<Stmt>, s: Stmt, user: nat)
    requires Merged(a, b, stmts, user) && s.user == user
    ensures Merged(a, b + [s], stmts + [s], user)
  {
    assert (stmts + [s])[..|stmts|] == stmts && (b + [s])[..|b|] == b;
  }

  lemma {:induction false} ProperRunExtend(t: Tables, stmts: seq<Stmt>, s: Stmt)
    requires ProperRun(t, stmts) && Proper(DoAll(t, stmts), s)
    ensures ProperRun(t, stmts + [s])
    decreases |stmts|
  {
    if stmts == [] {
      assert [s][1..] == [];
    } else {
      assert (stmts + [s])[1..] == stmts[1..] + [s];
      ProperRunExtend(Do(t, stmts[0]), stmts[1..], s);
    }
  }

  /** Two handlers step for step. */
  function Lockstep(a: seq<Stmt>, b: seq<Stmt>): (stmts: seq<Stmt>)
    requires |a| == |b|
    ensures |stmts| == 2 * |a|
  {
    if a == [] then [] else Lockstep(a[..|a| - 1], b[..|b| - 1]) + [a[|a| - 1]] + [b[|b| - 1]]
  }

  lemma {:induction false} LockstepMerges(a: seq<Stmt>, b: seq<Stmt>, user: nat)
    requires |a| == |b| && forall i :: 0 <= i < |a| ==> a[i].user == user && b[i].user == user
    ensures Merged(a, b, Lockstep(a, b), user)
    decreases |a|
  {
    if a != [] {
      var c, d, x, y := a[..|a| - 1], b[..|b| - 1], a[|a| - 1], b[|b| - 1];
      LockstepMerges(c, d, user);
      MergedFirst(c, d, Lockstep(c, d), x, user);
      MergedSecond(c + [x], d, Lockstep(c, d) + [x], y, user);
      assert c + [x] == a && d + [y] == b;
    }
  }

  lemma LockstepNext(a: seq<Stmt>, b: seq<Stmt>, k: nat)
    requires k < |a| == |b|
    ensures Lockstep(a[..k + 1], b[..k + 1]) == Lockstep(a[..k], b[..k]) + [a[k]] + [b[k]]
  {
    assert a[..k + 1][..k] == a[..k] && b[..k + 1][..k] == b[..k];
  }

  lemma {:induction false} ChecksInLockstep(g: Grant, h: Grant, user: nat, k: nat)
    requires g.session.username == user && h.session.username == user && k <= 9
    ensures ChecksSince(Lockstep(GrantStmts(g)[..k], GrantStmts(h)[..k]), user) == if k < 3 then 0 else 2
  {
    if k > 0 {
      var p, q := GrantStmts(g), GrantStmts(h);
      ChecksInLockstep(g, h, user, k - 1);
      LockstepNext(p, q, k - 1);
      var before := Lockstep(p[..k - 1], q[..k - 1]);
      GrantStmtAt(g, k - 1);
      GrantStmtAt(h, k - 1);
    }
  }

  lemma {:induction false} LockstepProper(g: Grant, h: Grant, k: nat)
    requires g.id != h.id && k <= 9
    ensures ProperRun(Empty(map[]), Lockstep(GrantStmts(g)[..k], GrantStmts(h)[..k]))
  {
    if k > 0 {
      var p, q, t := GrantStmts(g), GrantStmts(h), Empty(map[]);
      LockstepProper(g, h, k - 1);
      LockstepNext(p, q, k - 1);
      GrantStmtAt(g, k - 1);
      GrantStmtAt(h, k - 1);
      var before := Lockstep(p[..k - 1], q[..k - 1]);
      ProperRunExtend(t, before, p[k - 1]);
      DoAllSnoc(t, before + [p[k - 1]]);
      assert (before + [p[k - 1]])[..|before|] == before;
      ProperRunExtend(t, before + [p[k - 1]], q[k - 1]);
    }
  }

  /** Two paid grants of one phone that run side by side, both complete: the phone is left
      with two radcheck rows. */
  lemma OverlappingGrantsDuplicate(g: Grant, h: Grant, user: nat)
    requires g.session.username == user && h.session.username == user && g.id != h.id
    requires g.session.status == Active && h.session.status == Active
    ensures var stmts := Lockstep(GrantStmts(g), GrantStmts(h));
            var t := DoAll(Empty(map[]), stmts);
            && |stmts| == 18 && ProperRun(Empty(map[]), stmts) && Merged(GrantStmts(g), GrantStmts(h), stmts, user)
            && RowsOf(t.check, user) == [Row(user, AuthType, Accept), Row(user, AuthType, Accept)]
            && !Safe(t, user)
  {
    var p, q := GrantStmts(g), GrantStmts(h);
    assert p[..9] == p && q[..9] == q;
    LockstepMerges(p, q, user);
    LockstepProper(g, h, 9);
    ChecksInLockstep(g, h, user, 9);
    OverlappingGrantsSafeIff(Empty(map[]), g, h, Lockstep(p, q), user);
    ChecksAreThoseSinceClear(Empty(map[]), Lockstep(p, q), user);
    assert AcceptRows(user, 2) == [Row(user, AuthType, Accept), Row(user, AuthType, Accept)];
  }
}
