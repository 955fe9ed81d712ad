/** Kicking a user's live hotspot sessions: one Disconnect-Request per open
    accounting row, with the secret the nas table holds for that router. */
module Kick {
  import opened Attributes
  import opened Wrappers
  import opened Disconnect

  /** An accounting row; `station` is NULL when the router sent none. */
  datatype Acct = Acct(
    session: Bytes, username: Bytes, nasIP: Bytes, station: Option<Bytes>, framedIP: Bytes, open: bool)

  datatype NasClient = NasClient(nasname: Bytes, secret: Bytes)

  /** A row of the query, the secret empty when no router is registered. */
  datatype Row = Row(acct: Acct, secret: Bytes)

  /** Everything outside: the random identifier and what the socket does. */
  datatype Env = Env(id: byte, link: Link)

  datatype Problem = NoRegisteredRouter | Failed(cause: Failure)

  datatype KickResult = KickResult(nasIP: Bytes, acked: bool, problem: Option<Problem>)

  function Matches(nas: seq<NasClient>, ip: Bytes): seq<Bytes> {
    if nas == [] then []
    else (if nas[0].nasname == ip then [nas[0].secret] else []) + Matches(nas[1..], ip)
  }

  /** LEFT JOIN nas: one row per registered router at that address, or one without a secret. */
  function Joined(a: Acct, secrets: seq<Bytes>): (rows: seq<Row>) {
    if secrets == [] then [Row(a, [])] else seq(|secrets|, i requires 0 <= i < |secrets| => Row(a, secrets[i]))
  }

  function Query(accts: seq<Acct>, nas: seq<NasClient>, username: Bytes): seq<Row> {
    if accts == [] then []
    else (if accts[0].open && accts[0].username == username then Joined(accts[0], Matches(nas, accts[0].nasIP)) else [])
         + Query(accts[1..], nas, username)
  }

  /** The rows read: a NULL calling-station id cannot be scanned into a string, and the
      driver closes the result set on a failed scan, so reading stops there. */
  function Readable(rows: seq<Row>): seq<Row> {
    if rows == [] || rows[0].acct.station.None? then [] else [rows[0]] + Readable(rows[1..])
  }

  function SessionOf(row: Row, username: Bytes): Session
    requires row.acct.station.Some?
  {
    Session(username, row.acct.session, row.acct.station.value, row.acct.framedIP)
  }

  predicate EnoughEnvs(envs: seq<Env>, n: nat) {
    n <= |envs| && forall i :: 0 <= i < |envs| && envs[i].link.Dialed? ==> |envs[i].link.net| >= ATTEMPTS
  }

  function ResultFor(c: Crypto, env: Env, row: Row, username: Bytes): KickResult
    requires row.acct.station.Some?
    requires env.link.Dialed? ==> |env.link.net| >= ATTEMPTS
  {
    if row.secret == [] then KickResult(row.acct.nasIP, false, Some(NoRegisteredRouter))
    else match Exchange(c, env.id, row.secret, SessionOf(row, username), env.link)
         case Ok(reply) => KickResult(row.acct.nasIP, reply.acked, None)
         case Err(f) => KickResult(row.acct.nasIP, false, Some(Failed(f)))
  }

  /** Reading yields the longest prefix of rows with a calling-station id. */
  lemma {:induction false} ReadableRows(rows: seq<Row>)
    ensures Readable(rows) <= rows
    ensures forall i :: 0 <= i < |Readable(rows)| ==> Readable(rows)[i].acct.station.Some?
    ensures |Readable(rows)| < |rows| ==> rows[|Readable(rows)|].acct.station.None?
  {
    if rows != [] && rows[0].acct.station.Some? {
      ReadableRows(rows[1..]);
      assert rows == [rows[0]] + rows[1..];
    }
  }

  lemma ReadOneMore(targets: seq<Row>, rows: seq<Row>, i: nat)
    requires i < |rows|
    ensures rows[i].acct.station.Some? ==>
              targets + Readable(rows[i..]) == targets + [rows[i]] + Readable(rows[i + 1..])
    ensures rows[i].acct.station.None? ==> targets + Readable(rows[i..]) == targets
  {
    assert rows[i..][1..] == rows[i + 1..];
  }

  method ReadTargets(rows: seq<Row>) returns (targets: seq<Row>)
    ensures targets == Readable(rows)
  {
    targets := [];
    var i, closed := 0, false;
    while i < |rows| && !closed
      invariant 0 <= i <= |rows|
      invariant Readable(rows) == if closed then targets else targets + Readable(rows[i..])
      decreases |rows| - i, !closed
    {
      ReadOneMore(targets, rows, i);
      if rows[i].acct.station.Some? {
        targets := targets + [rows[i]];
      } else {
        closed := true;
      }
      i := i + 1;
    }
  }

  predicate Reported(c: Crypto, env: Env, row: Row, username: Bytes, res: KickResult) {
    && row.acct.station.Some?
    && (env.link.Dialed? ==> |env.link.net| >= ATTEMPTS)
    && res == ResultFor(c, env, row, username)
  }

  method KickOne(c: Crypto, env: Env, t: Row, username: Bytes) returns (res: KickResult)
    requires t.acct.station.Some?
    requires env.link.Dialed? ==> |env.link.net| >= ATTEMPTS
    ensures Reported(c, env, t, username, res)
    ensures res.nasIP == t.acct.nasIP
    ensures t.secret == [] ==> !res.acked && res.problem == Some(NoRegisteredRouter)
    ensures t.secret != [] ==>
              match Exchange(c, env.id, t.secret, Session(username := username, acctSessionId := t.acct.session,
                callingStationId := t.acct.station.value, framedIP := t.acct.framedIP), env.link)
              case Ok(reply) => res.acked == reply.acked && res.problem == None
              case Err(f) => !res.acked && res.problem == Some(Failed(f))
  {
    res := KickResult(t.acct.nasIP, false, None);
    if t.secret == [] {
      return res.(problem := Some(NoRegisteredRouter));
    }
    var session := Session(username, t.acct.session, t.acct.station.value, t.acct.framedIP);
    var answer := DisconnectDetail(c, env.id, t.secret, session, env.link);
    if answer.Ok? {
      res := res.(acked := answer.value.acked);
    } else {
      res := res.(problem := Some(Failed(answer.error)));
    }
  }

  method SendAll(c: Crypto, targets: seq<Row>, username: Bytes, envs: seq<Env>) returns (results: seq<KickResult>)
    requires EnoughEnvs(envs, |targets|)
    requires forall i :: 0 <= i < |targets| ==> targets[i].acct.station.Some?
    ensures |results| == |targets|
    ensures forall i :: 0 <= i < |targets| ==> Reported(c, envs[i], targets[i], username, results[i])
  {
    results := [];
    var k := 0;
    while k < |targets|
      invariant 0 <= k <= |targets| && |results| == k
      invariant forall j :: 0 <= j < k ==> Reported(c, envs[j], targets[j], username, results[j])
    {
      var res := KickOne(c, envs[k], targets[k], username);
      results := results + [res];
      k := k + 1;
    }
  }

  /** One result per row read, in row order. */
  method DisconnectLiveSessions(c: Crypto, accts: seq<Acct>, nas: seq<NasClient>, username: Bytes, envs: seq<Env>)
    returns (results: seq<KickResult>)
    requires EnoughEnvs(envs, |Query(accts, nas, username)|)
    ensures var targets := Readable(Query(accts, nas, username));
            && |results| == |targets| <= |envs|
            && forall i :: 0 <= i < |targets| ==> Reported(c, envs[i], targets[i], username, results[i])
  {
    var targets := ReadTargets(Query(accts, nas, username));
    ReadableRows(Query(accts, nas, username));
    results := SendAll(c, targets, username, envs);
  }

  function OpenRows(accts: seq<Acct>, username: Bytes): seq<Acct> {
    if accts == [] then []
    else (if accts[0].open && accts[0].username == username then [accts[0]] else []) + OpenRows(accts[1..], username)
  }

  function Accts(rows: seq<Row>): (accts: seq<Acct>)
    ensures |accts| == |rows| && forall i :: 0 <= i < |rows| ==> accts[i] == rows[i].acct
  {
    seq(|rows|, i requires 0 <= i < |rows| => rows[i].acct)
  }

  /** No open session's router address has two rows in nas. */
  predicate SingleMatches(open: seq<Acct>, nas: seq<NasClient>) {
    forall i :: 0 <= i < |open| ==> |Matches(nas, open[i].nasIP)| <= 1
  }

  lemma SingleMatchesCons(a: Acct, open: seq<Acct>, nas: seq<NasClient>)
    ensures SingleMatches([a] + open, nas) <==> |Matches(nas, a.nasIP)| <= 1 && SingleMatches(open, nas)
  {
    if SingleMatches([a] + open, nas) {
      assert ([a] + open)[0] == a;
      assert forall i :: 0 <= i < |open| ==> ([a] + open)[i + 1] == open[i];
    }
  }

  /** The left join yields at least one row per open session, and exactly one per open
      session, in order, if and only if no open session's router address is twice in nas. */
  lemma {:induction false} OneRowPerOpenSession(accts: seq<Acct>, nas: seq<NasClient>, username: Bytes)
    ensures var rows, open := Query(accts, nas, username), OpenRows(accts, username);
            && |rows| >= |open|
            && (|rows| == |open| <==> SingleMatches(open, nas))
            && (Accts(rows) == open <==> SingleMatches(open, nas))
  {
    if accts != [] {
      var a, rest := accts[0], Query(accts[1..], nas, username);
      OneRowPerOpenSession(accts[1..], nas, username);
      if a.open && a.username == username {
        SingleMatchesCons(a, OpenRows(accts[1..], username), nas);
        var mine := Joined(a, Matches(nas, a.nasIP));
        if |mine| == 1 {
          assert Accts(mine + rest) == [a] + Accts(rest);
        }
      } else {
        assert Query(accts, nas, username) == rest && OpenRows(accts, username) == OpenRows(accts[1..], username);
      }
    }
  }

  /** Two rows of nas for one address: the one open session is queried, and kicked, twice. */
  lemma DuplicateAddressTwoRows(a: Acct, first: Bytes, second: Bytes)
    requires a.open
    ensures Query([a], [NasClient(a.nasIP, first), NasClient(a.nasIP, second)], a.username)
              == [Row(a, first), Row(a, second)]
  {
    var nas := [NasClient(a.nasIP, first), NasClient(a.nasIP, second)];
    assert Matches(nas[1..], a.nasIP) == [second];
    assert Matches(nas, a.nasIP) == [first] + [second];
    assert Query([a][1..], nas, a.username) == [];
  }

  /** A row is for an open session of the user, with a secret the nas table holds for that
      session's router address, or with none when the table has no such address. */
  predicate RightSecret(row: Row, nas: seq<NasClient>, username: Bytes) {
    && row.acct.open && row.acct.username == username
    && (NasClient(row.acct.nasIP, row.secret) in nas
        || (row.secret == [] && forall j :: 0 <= j < |nas| ==> nas[j].nasname != row.acct.nasIP))
  }

  lemma {:induction false} MatchesAreRegistered(nas: seq<NasClient>, ip: Bytes)
    ensures forall i :: 0 <= i < |Matches(nas, ip)| ==> NasClient(ip, Matches(nas, ip)[i]) in nas
    ensures Matches(nas, ip) == [] ==> forall j :: 0 <= j < |nas| ==> nas[j].nasname != ip
  {
    if nas != [] {
      MatchesAreRegistered(nas[1..], ip);
      assert forall j :: 1 <= j < |nas| ==> nas[1..][j - 1] == nas[j];
      assert nas[0].nasname == ip ==> NasClient(ip, nas[0].secret) == nas[0];
    }
  }

  lemma {:induction false} RowsCarryRightSecrets(accts: seq<Acct>, nas: seq<NasClient>, username: Bytes)
    ensures forall i :: 0 <= i < |Query(accts, nas, username)| ==>
              RightSecret(Query(accts, nas, username)[i], nas, username)
  {
    if accts != [] {
      RowsCarryRightSecrets(accts[1..], nas, username);
      MatchesAreRegistered(nas, accts[0].nasIP);
    }
  }

  /** The sessions queried are exactly the user's open ones. */
  lemma {:induction false} RowsCoverOpenSessions(accts: seq<Acct>, nas: seq<NasClient>, username: Bytes)
    ensures forall a :: a in Accts(Query(accts, nas, username)) <==> a in OpenRows(accts, username)
    ensures forall a :: a in OpenRows(accts, username) <==> a in accts && a.open && a.username == username
  {
    if accts != [] {
      var a, rest := accts[0], Query(accts[1..], nas, username);
      RowsCoverOpenSessions(accts[1..], nas, username);
      assert accts == [a] + accts[1..];
      if a.open && a.username == username {
        var mine := Joined(a, Matches(nas, a.nasIP));
        assert Accts(mine + rest) == Accts(mine) + Accts(rest);
        assert Accts(mine)[0] == a;
      } else {
        assert Query(accts, nas, username) == rest && OpenRows(accts, username) == OpenRows(accts[1..], username);
      }
    }
  }

  predicate AllReadable(open: seq<Acct>) {
    forall i :: 0 <= i < |open| ==> open[i].station.Some?
  }

  /** Reading reaches the last row exactly when every open session has a calling-station id. */
  lemma ReadsAllIff(accts: seq<Acct>, nas: seq<NasClient>, username: Bytes)
    ensures var rows := Query(accts, nas, username);
            Readable(rows) == rows <==> AllReadable(OpenRows(accts, username))
  {
    var rows, open := Query(accts, nas, username), OpenRows(accts, username);
    ReadableRows(rows);
    RowsCoverOpenSessions(accts, nas, username);
    if Readable(rows) == rows {
      forall i | 0 <= i < |open| ensures open[i].station.Some? {
        assert open[i] in Accts(rows);
        var k :| 0 <= k < |rows| && Accts(rows)[k] == open[i];
        assert rows[k] == Readable(rows)[k];
      }
    } else {
      var k := |Readable(rows)|;
      assert Accts(rows)[k] in open;
      assert rows[k].acct.station.None?;
    }
  }

  /** Every open session gets a result exactly when every open row of the user carries a
      calling-station id: reading stops for good at the first that does not. */
  lemma EverySessionReportedIff(accts: seq<Acct>, nas: seq<NasClient>, username: Bytes)
    ensures var targets, open := Accts(Readable(Query(accts, nas, username))), OpenRows(accts, username);
            (forall a :: a in open ==> a in targets) <==> AllReadable(open)
  {
    var rows, open := Query(accts, nas, username), OpenRows(accts, username);
    ReadsAllIff(accts, nas, username);
    RowsCoverOpenSessions(accts, nas, username);
    ReadableRows(rows);
    if forall a :: a in open ==> a in Accts(Readable(rows)) {
      forall i | 0 <= i < |open| ensures open[i].station.Some? {
        assert open[i] in Accts(Readable(rows));
      }
    }
  }

  /** And it gets exactly one, in order, exactly when in addition no router address of these
      sessions is twice in nas. */
  lemma OneResultEachIff(accts: seq<Acct>, nas: seq<NasClient>, username: Bytes)
    ensures var targets, open := Accts(Readable(Query(accts, nas, username))), OpenRows(accts, username);
            targets == open <==> AllReadable(open) && SingleMatches(open, nas)
  {
    var rows, open := Query(accts, nas, username), OpenRows(accts, username);
    EverySessionReportedIff(accts, nas, username);
    ReadsAllIff(accts, nas, username);
    OneRowPerOpenSession(accts, nas, username);
  }

  /** The request of an accounting row names the user, and the session, station and address the row has. */
  predicate RequestOf(row: Row, username: Bytes, pkt: Bytes)
    requires row.acct.station.Some? && |pkt| >= 20
  {
    var attrs := Walk(pkt[20..]);
    && ValuesOf(attrs, 1) == Given(username)
    && ValuesOf(attrs, 44) == Given(row.acct.session)
    && ValuesOf(attrs, 31) == Given(row.acct.station.value)
    && IPv4Of(row.acct.framedIP, ValuesOf(attrs, 8))
  }

  /** A session is reported as dropped only if its router is registered and one of at most two
      datagrams was an honest ACK to the request for this very session. */
  lemma AckedIsHonest(c: Crypto, env: Env, row: Row, username: Bytes)
    requires row.acct.station.Some? && env.link.Dialed? && |env.link.net| >= 2
    requires ResultFor(c, env, row, username).acked
    ensures row.secret != [] && Encode(Fields(SessionOf(row, username))).Ok?
    ensures var pkt := Packet(c, env.id, row.secret, Encode(Fields(SessionOf(row, username))).value);
            && |pkt| >= 20 && ReceiverAccepts(c, row.secret, pkt) && RequestOf(row, username, pkt)
            && exists i :: 0 <= i < 2 && Answers(c, env.link.net[i], 41, env.id, pkt[4..20], row.secret)
  {
    var s := SessionOf(row, username);
    SendableIff(s);
    AnswerIsHonest(c, env.id, row.secret, s, env.link);
    BuiltRequestVerifies(c, env.id, row.secret, s);
    AttributesOfRequest(c, env.id, row.secret, s);
    PacketAuthenticator(c, env.id, row.secret, Encode(Fields(s)).value);
  }
}
