/** The FreeRADIUS tables radcheck and radreply as lists of rows, and the SQL
    statements the handlers run on them. */
module RadiusRows {

  datatype Attribute = AuthType | SessionTimeout | IdleTimeout | RateLimit | MaxDown | MaxUp

  datatype Value = Accept | Number(n: int) | Rate(down: int, up: int)

  datatype Row = Row(username: nat, attribute: Attribute, value: Value)

  datatype Plan = Plan(mins: int, down: int, up: int)

  /** The rows of one user, in table order. */
  function RowsOf(rows: seq<Row>, user: nat): seq<Row> {
    if rows == [] then []
    else
      var front, last := rows[..|rows| - 1], rows[|rows| - 1];
      if last.username == user then RowsOf(front, user) + [last] else RowsOf(front, user)
  }

  /** DELETE ... WHERE username IN users. */
  function Without(rows: seq<Row>, users: set<nat>): seq<Row> {
    if rows == [] then []
    else
      var front, last := rows[..|rows| - 1], rows[|rows| - 1];
      if last.username in users then Without(front, users) else Without(front, users) + [last]
  }

  /** UPDATE radreply SET value WHERE username AND attribute = 'Session-Timeout'. */
  function SetTimeout(rows: seq<Row>, user: nat, secs: int): (rows': seq<Row>)
    ensures |rows'| == |rows|
  {
    seq(|rows|, i requires 0 <= i < |rows| =>
      if rows[i].username == user && rows[i].attribute == SessionTimeout then rows[i].(value := Number(secs))
      else rows[i])
  }

  function CheckRows(user: nat): (rows: seq<Row>)
    ensures forall i :: 0 <= i < |rows| ==> rows[i].username == user
  {
    [Row(user, AuthType, Accept)]
  }

  /** The five reply attributes, in the order they are inserted. */
  function ReplyRows(user: nat, plan: Plan, secs: int): (rows: seq<Row>)
    ensures |rows| == 5 && forall i :: 0 <= i < |rows| ==> rows[i].username == user
  {
    [Row(user, SessionTimeout, Number(secs)),
     Row(user, IdleTimeout, Number(300)),
     Row(user, RateLimit, Rate(plan.down, plan.up)),
     Row(user, MaxDown, Number(plan.down * 1000)),
     Row(user, MaxUp, Number(plan.up * 1000))]
  }

  lemma {:induction false} RowsOfWithout(rows: seq<Row>, users: set<nat>, user: nat)
    ensures RowsOf(Without(rows, users), user) == if user in users then [] else RowsOf(rows, user)
  {
    if rows != [] {
      var front, last := rows[..|rows| - 1], rows[|rows| - 1];
      RowsOfWithout(front, users, user);
      if last.username !in users {
        assert (Without(front, users) + [last])[..|Without(front, users)|] == Without(front, users);
      }
    }
  }

  lemma {:induction false} RowsOfAppend(a: seq<Row>, b: seq<Row>, user: nat)
    ensures RowsOf(a + b, user) == RowsOf(a, user) + RowsOf(b, user)
  {
    if b == [] {
      assert a + b == a;
    } else {
      assert (a + b)[..|a + b| - 1] == a + b[..|b| - 1];
      RowsOfAppend(a, b[..|b| - 1], user);
    }
  }

  lemma {:induction false} RowsOfOwn(rows: seq<Row>, owner: nat, user: nat)
    requires forall i :: 0 <= i < |rows| ==> rows[i].username == owner
    ensures RowsOf(rows, user) == if user == owner then rows else []
  {
    if rows != [] {
      RowsOfOwn(rows[..|rows| - 1], owner, user);
      assert rows == rows[..|rows| - 1] + [rows[|rows| - 1]];
    }
  }

  lemma {:induction false} RowsOfSetTimeout(rows: seq<Row>, owner: nat, secs: int, user: nat)
    ensures RowsOf(SetTimeout(rows, owner, secs), user)
            == if user == owner then SetTimeout(RowsOf(rows, user), owner, secs) else RowsOf(rows, user)
  {
    if rows != [] {
      var front, last := rows[..|rows| - 1], rows[|rows| - 1];
      RowsOfSetTimeout(front, owner, secs, user);
      assert SetTimeout(rows, owner, secs)[..|front|] == SetTimeout(front, owner, secs);
      if last.username == user == owner {
        assert SetTimeout(RowsOf(front, user) + [last], owner, secs)
            == SetTimeout(RowsOf(front, user), owner, secs) + SetTimeout([last], owner, secs);
      }
    }
  }

  /** The rows give this user this value of the attribute, and no other. */
  predicate Tells(rows: seq<Row>, user: nat, attribute: Attribute, value: Value) {
    && Row(user, attribute, value) in rows
    && forall i :: 0 <= i < |rows| && rows[i].username == user && rows[i].attribute == attribute ==>
         rows[i].value == value
  }

  lemma {:induction false} OwnRowsAreRows(rows: seq<Row>, user: nat, r: Row)
    requires r in RowsOf(rows, user)
    ensures r in rows
  {
    var front, last := rows[..|rows| - 1], rows[|rows| - 1];
    if r in RowsOf(front, user) {
      OwnRowsAreRows(front, user, r);
    }
  }

  /** Where a user has the full set of reply rows, setting its timeout gives it this timeout and
      leaves its other attributes, and everyone else's rows, as they are. */
  lemma TimeoutTold(rows: seq<Row>, owner: nat, plan: Plan, before: int, secs: int)
    requires RowsOf(rows, owner) == ReplyRows(owner, plan, before)
    ensures var rows' := SetTimeout(rows, owner, secs);
            && Tells(rows', owner, SessionTimeout, Number(secs))
            && RowsOf(rows', owner) == ReplyRows(owner, plan, secs)
            && forall u: nat :: u != owner ==> RowsOf(rows', u) == RowsOf(rows, u)
  {
    var rows' := SetTimeout(rows, owner, secs);
    forall u: nat
      ensures RowsOf(rows', u) == if u == owner then SetTimeout(RowsOf(rows, u), owner, secs) else RowsOf(rows, u)
    {
      RowsOfSetTimeout(rows, owner, secs, u);
    }
    assert SetTimeout(ReplyRows(owner, plan, before), owner, secs) == ReplyRows(owner, plan, secs);
    OwnRowsAreRows(rows', owner, Row(owner, SessionTimeout, Number(secs)));
  }

  /** Deleting one user after others is deleting them all at once. */
  lemma {:induction false} WithoutBoth(rows: seq<Row>, a: set<nat>, b: set<nat>)
    ensures Without(Without(rows, a), b) == Without(rows, a + b)
  {
    if rows != [] {
      var front, last := rows[..|rows| - 1], rows[|rows| - 1];
      WithoutBoth(front, a, b);
      if last.username !in a {
        assert (Without(front, a) + [last])[..|Without(front, a)|] == Without(front, a);
      }
    }
  }

  lemma {:induction false} WithoutNobody(rows: seq<Row>)
    ensures Without(rows, {}) == rows
  {
    if rows != [] {
      WithoutNobody(rows[..|rows| - 1]);
    }
  }

  /** A grant leaves the user with exactly the new rows and everyone else with their own. */
  lemma RowsAfterGrant(rows: seq<Row>, owner: nat, mine: seq<Row>, user: nat)
    requires forall i :: 0 <= i < |mine| ==> mine[i].username == owner
    ensures RowsOf(Without(rows, {owner}) + mine, user) == if user == owner then mine else RowsOf(rows, user)
  {
    RowsOfAppend(Without(rows, {owner}), mine, user);
    RowsOfWithout(rows, {owner}, user);
    RowsOfOwn(mine, owner, user);
  }
}
