/** The payment limiter and the login lockout over fixed-window counters. */
module RateLimit {
  import opened Windows

  const PAY_LIMIT := 10
  const PAY_WINDOW := 300

  const LOGIN_MAX_PER_IP := 20
  const LOGIN_MAX_PER_ACCOUNT := 10
  const LOGIN_WINDOW := 900

  function Get(counters: map<string, Counter>, key: string): Counter {
    if key in counters then counters[key] else Absent
  }

  predicate LoginLocked(ipFails: nat, acctFails: nat) {
    ipFails >= LOGIN_MAX_PER_IP || acctFails >= LOGIN_MAX_PER_ACCOUNT
  }

  datatype Verdict = UnknownUser | Inactive | WrongPassword | Correct

  /** One login request with both fields, the address normalised, and what the users table and
      the password hash say of it. */
  datatype Attempt = Attempt(ip: string, email: string, now: int, verdict: Verdict)

  datatype Response = MissingFields | TooManyAttempts | InvalidCredentials | Forbidden | LoggedIn

  datatype Limits = Limits(ips: map<string, Counter>, accts: map<string, Counter>)

  predicate Locked(l: Limits, a: Attempt) {
    LoginLocked(Count(Get(l.ips, a.ip), a.now), Count(Get(l.accts, a.email), a.now))
  }

  /** Only a failed attempt that was not locked out is counted. */
  predicate Counted(l: Limits, a: Attempt) {
    !Locked(l, a) && (a.verdict == UnknownUser || a.verdict == WrongPassword)
  }

  predicate Heals(l: Limits, a: Attempt) {
    !Locked(l, a) && a.verdict == Correct
  }

  function Next(l: Limits, a: Attempt): Limits {
    if Counted(l, a) then
      Limits(l.ips[a.ip := Hit(Get(l.ips, a.ip), LOGIN_WINDOW, a.now)],
             l.accts[a.email := Hit(Get(l.accts, a.email), LOGIN_WINDOW, a.now)])
    else if Heals(l, a) then l.(accts := l.accts - {a.email})
    else l
  }

  function LimitsAfter(attempts: seq<Attempt>): Limits {
    if attempts == [] then Limits(map[], map[])
    else Next(LimitsAfter(attempts[..|attempts| - 1]), attempts[|attempts| - 1])
  }

  /** When this address's counted failures happened. */
  function IpFailures(attempts: seq<Attempt>, ip: string): seq<int> {
    if attempts == [] then []
    else
      var front, last := attempts[..|attempts| - 1], attempts[|attempts| - 1];
      IpFailures(front, ip) + if last.ip == ip && Counted(LimitsAfter(front), last) then [last.now] else []
  }

  /** When this account's counted failures since its last successful login happened. */
  function AccountFailures(attempts: seq<Attempt>, email: string): seq<int> {
    if attempts == [] then []
    else
      var front, last := attempts[..|attempts| - 1], attempts[|attempts| - 1];
      if last.email != email then AccountFailures(front, email)
      else if Heals(LimitsAfter(front), last) then []
      else AccountFailures(front, email) + if Counted(LimitsAfter(front), last) then [last.now] else []
  }

  predicate InOrder(attempts: seq<Attempt>) {
    forall i, j :: 0 <= i < j < |attempts| ==> attempts[i].now <= attempts[j].now
  }

  function Within(times: seq<int>, a: int, b: int): nat {
    if times == [] then 0
    else Within(times[..|times| - 1], a, b) + if a <= times[|times| - 1] < b then 1 else 0
  }

  /** A counter that recorded these failures, none of them past its limit. */
  predicate Records(c: Counter, failures: seq<int>, limit: nat, a: int, b: int) {
    && c == After(failures, LOGIN_WINDOW)
    && Ordered(failures)
    && Admitted(failures, LOGIN_WINDOW, limit, a, b) == Within(failures, a, b)
  }

  lemma RecordsOneMore(c: Counter, failures: seq<int>, limit: nat, a: int, b: int, now: int)
    requires Records(c, failures, limit, a, b) && Count(c, now) < limit
    requires failures != [] ==> failures[|failures| - 1] <= now
    ensures Records(Hit(c, LOGIN_WINDOW, now), failures + [now], limit, a, b)
  {
    assert (failures + [now])[..|failures|] == failures;
  }

  lemma IpCounterNext(l: Limits, a: Attempt, ip: string)
    ensures Get(Next(l, a).ips, ip) ==
              if a.ip == ip && Counted(l, a) then Hit(Get(l.ips, ip), LOGIN_WINDOW, a.now) else Get(l.ips, ip)
    ensures a.ip == ip && Counted(l, a) ==> Count(Get(l.ips, ip), a.now) < LOGIN_MAX_PER_IP
  {
  }

  lemma {:induction false} IpRecords(attempts: seq<Attempt>, ip: string, a: int, b: int)
    requires InOrder(attempts)
    ensures Records(Get(LimitsAfter(attempts).ips, ip), IpFailures(attempts, ip), LOGIN_MAX_PER_IP, a, b)
    ensures IpFailures(attempts, ip) != [] ==>
              IpFailures(attempts, ip)[|IpFailures(attempts, ip)| - 1] <= attempts[|attempts| - 1].now
  {
    if attempts != [] {
      var front, last := attempts[..|attempts| - 1], attempts[|attempts| - 1];
      IpRecords(front, ip, a, b);
      var l := LimitsAfter(front);
      IpCounterNext(l, last, ip);
      if last.ip == ip && Counted(l, last) {
        RecordsOneMore(Get(l.ips, ip), IpFailures(front, ip), LOGIN_MAX_PER_IP, a, b, last.now);
      } else {
        assert IpFailures(attempts, ip) == IpFailures(front, ip);
      }
    }
  }

  lemma {:induction false} AccountRecords(attempts: seq<Attempt>, email: string, a: int, b: int)
    requires InOrder(attempts)
    ensures Records(Get(LimitsAfter(attempts).accts, email), AccountFailures(attempts, email),
                    LOGIN_MAX_PER_ACCOUNT, a, b)
    ensures AccountFailures(attempts, email) != [] ==>
              AccountFailures(attempts, email)[|AccountFailures(attempts, email)| - 1] <= attempts[|attempts| - 1].now
  {
    if attempts != [] {
      var front, last := attempts[..|attempts| - 1], attempts[|attempts| - 1];
      AccountRecords(front, email, a, b);
      if last.email == email && Counted(LimitsAfter(front), last) {
        RecordsOneMore(Get(LimitsAfter(front).accts, email), AccountFailures(front, email),
                       LOGIN_MAX_PER_ACCOUNT, a, b, last.now);
      } else if last.email != email || !Heals(LimitsAfter(front), last) {
        assert AccountFailures(attempts, email) == AccountFailures(front, email);
      }
    }
  }

  /** Per window at most 20 failures of an address and 10 of an account are looked at, and in
      any 900 seconds at most 39 and, between successful logins, 19. */
  lemma FailuresBounded(attempts: seq<Attempt>, ip: string, email: string, a: int)
    requires InOrder(attempts)
    ensures Within(IpFailures(attempts, ip), a, a + 900) <= 39
    ensures Within(AccountFailures(attempts, email), a, a + 900) <= 19
  {
    IpRecords(attempts, ip, a, a + LOGIN_WINDOW);
    AccountRecords(attempts, email, a, a + LOGIN_WINDOW);
    IntervalBound(IpFailures(attempts, ip), LOGIN_WINDOW, LOGIN_MAX_PER_IP, a);
    IntervalBound(AccountFailures(attempts, email), LOGIN_WINDOW, LOGIN_MAX_PER_ACCOUNT, a);
  }

  /** The counters themselves never pass their limits. */
  lemma {:induction false} CountersBounded(attempts: seq<Attempt>, ip: string, email: string, now: int)
    ensures Count(Get(LimitsAfter(attempts).ips, ip), now) <= 20
    ensures Count(Get(LimitsAfter(attempts).accts, email), now) <= 10
  {
    if attempts != [] {
      var front, last := attempts[..|attempts| - 1], attempts[|attempts| - 1];
      CountersBounded(front, ip, email, now);
      CountersBounded(front, ip, email, last.now);
    }
  }

  /** How many of these times lie after `since`. */
  function Later(times: seq<int>, since: int): nat {
    if times == [] then 0
    else Later(times[..|times| - 1], since) + if since < times[|times| - 1] then 1 else 0
  }

  lemma {:induction false} LaterCovers(times: seq<int>, limit: nat, since: int)
    ensures AdmittedAfter(times, LOGIN_WINDOW, limit, since) <= Later(times, since)
  {
    if times != [] {
      LaterCovers(times[..|times| - 1], limit, since);
    }
  }

  lemma CountHasCause(c: Counter, failures: seq<int>, limit: nat, now: int)
    requires c == After(failures, LOGIN_WINDOW) && Ordered(failures) && 1 <= limit <= Count(c, now)
    ensures Later(failures, now - LOGIN_WINDOW) >= limit
  {
    WindowHits(failures, LOGIN_WINDOW, limit, now - LOGIN_WINDOW);
    LaterCovers(failures, limit, now - LOGIN_WINDOW);
  }

  lemma IpLockHasCause(attempts: seq<Attempt>, ip: string, now: int)
    requires InOrder(attempts) && Count(Get(LimitsAfter(attempts).ips, ip), now) >= LOGIN_MAX_PER_IP
    ensures Later(IpFailures(attempts, ip), now - LOGIN_WINDOW) >= LOGIN_MAX_PER_IP
  {
    IpRecords(attempts, ip, 0, 0);
    CountHasCause(Get(LimitsAfter(attempts).ips, ip), IpFailures(attempts, ip), LOGIN_MAX_PER_IP, now);
  }

  lemma AccountLockHasCause(attempts: seq<Attempt>, email: string, now: int)
    requires InOrder(attempts) && Count(Get(LimitsAfter(attempts).accts, email), now) >= LOGIN_MAX_PER_ACCOUNT
    ensures Later(AccountFailures(attempts, email), now - LOGIN_WINDOW) >= LOGIN_MAX_PER_ACCOUNT
  {
    AccountRecords(attempts, email, 0, 0);
    CountHasCause(Get(LimitsAfter(attempts).accts, email), AccountFailures(attempts, email),
                  LOGIN_MAX_PER_ACCOUNT, now);
  }

  /** Nobody is locked out without cause: in the last 900 seconds the address failed 20 times
      or the account failed 10 times since its last successful login. */
  lemma LockedHasCause(attempts: seq<Attempt>, a: Attempt)
    requires InOrder(attempts) && Locked(LimitsAfter(attempts), a)
    ensures Later(IpFailures(attempts, a.ip), a.now - 900) >= 20
         || Later(AccountFailures(attempts, a.email), a.now - 900) >= 10
  {
    if Count(Get(LimitsAfter(attempts).ips, a.ip), a.now) >= LOGIN_MAX_PER_IP {
      IpLockHasCause(attempts, a.ip, a.now);
    } else {
      AccountLockHasCause(attempts, a.email, a.now);
    }
  }

  /** For every request history of one address at most 19 payments are attempted in any 300
      seconds, and a refused one has 10 admitted ones in the 300 seconds before it. */
  lemma PaymentsBounded(times: seq<int>, a: int, now: int)
    requires Ordered(times)
    ensures Admitted(times, 300, 10, a, a + 300) <= 19
    ensures Hit(After(times, 300), 300, now).count > 10 ==> AdmittedAfter(times, 300, 10, now - 300) >= 10
  {
    IntervalBound(times, PAY_WINDOW, PAY_LIMIT, a);
    if Hit(After(times, PAY_WINDOW), PAY_WINDOW, now).count > PAY_LIMIT {
      RefusedMeansLimitReached(times, PAY_WINDOW, PAY_LIMIT, now);
    }
  }

  /** Ten per window: in the 300 seconds after any moment at which no window is running, and
      so in every window, an address gets at most ten attempts. */
  lemma PaymentsPerWindow(before: seq<int>, times: seq<int>, a: int)
    requires Ordered(before + times) && Count(After(before, PAY_WINDOW), a) == 0
    requires (forall i :: 0 <= i < |before| ==> before[i] < a) && Inside(times, a, a + PAY_WINDOW)
    ensures Admitted(before + times, 300, 10, a, a + 300) <= 10
  {
    WindowBound(before, times, PAY_WINDOW, PAY_LIMIT, a);
  }

  /** "Ten per five minutes", counted from a moment inside a window that began earlier, holds
      for every future exactly when that window is used up. */
  lemma TenPerFiveMinutesIff(before: seq<int>, a: int)
    requires Ordered(before) && before != [] && before[|before| - 1] < a
    ensures (forall times: seq<int> :: Ordered(times) && Inside(times, a, a + PAY_WINDOW) ==>
               Admitted(before + times, PAY_WINDOW, PAY_LIMIT, a, a + PAY_WINDOW) <= PAY_LIMIT)
            <==> FreshOrSpent(After(before, PAY_WINDOW), a, PAY_LIMIT)
  {
    var c, b := After(before, PAY_WINDOW), a + PAY_WINDOW;
    Started(before, PAY_WINDOW);
    OneLimitIff(c, PAY_WINDOW, PAY_LIMIT, a);
    forall times: seq<int>
      ensures Admitted(before + times, PAY_WINDOW, PAY_LIMIT, a, b)
                == AdmittedFrom(c, times, PAY_WINDOW, PAY_LIMIT, a, b)
    {
      HistorySplits(before, times, PAY_WINDOW, PAY_LIMIT, a);
    }
  }

  class Cache {
    var pay: map<string, Counter>
    var loginIp: map<string, Counter>
    var loginAcct: map<string, Counter>
    ghost var requests: map<string, seq<int>>

    constructor ()
      ensures Valid() && requests == map[] && loginIp == map[] && loginAcct == map[]
    {
      pay, loginIp, loginAcct, requests := map[], map[], map[], map[];
    }

    ghost function Requests(ip: string): seq<int>
      reads this
    {
      if ip in requests then requests[ip] else []
    }

    /** Each payment counter is what its address's requests made it. */
    ghost predicate Valid()
      reads this
    {
      forall ip :: Get(pay, ip) == After(Requests(ip), PAY_WINDOW)
    }

    /** The guard of InitiatePayment. */
    method AllowPayment(ip: string, now: int) returns (allowed: bool)
      requires Valid()
      modifies this`pay, this`requests
      ensures Valid()
      ensures Requests(ip) == old(Requests(ip)) + [now]
      ensures forall k :: k != ip ==> Requests(k) == old(Requests(k)) && Get(pay, k) == Get(old(pay), k)
      ensures allowed <==> AdmitsLast(Requests(ip), 300, 10)
      ensures var count := Count(Get(old(pay), ip), now) + 1;
              && (allowed <==> count <= 10)
              && Get(pay, ip) == Counting(count, if count == 1 then now + 300 else old(pay)[ip].until)
    {
      ghost var times := Requests(ip);
      assert Get(pay, ip) == After(times, PAY_WINDOW);
      assert (times + [now])[..|times|] == times;
      var count := Count(Get(pay, ip), now) + 1;
      if count == 1 {
        pay := pay[ip := Counting(1, now + PAY_WINDOW)];
      } else {
        pay := pay[ip := Counting(count, pay[ip].until)];
      }
      requests := requests[ip := times + [now]];
      assert Get(pay, ip) == Hit(After(times, PAY_WINDOW), PAY_WINDOW, now) == After(times + [now], PAY_WINDOW);
      forall k | k != ip ensures Get(pay, k) == After(Requests(k), PAY_WINDOW) {
        assert Requests(k) == old(Requests(k)) && Get(pay, k) == old(Get(pay, k));
      }
      allowed := !(count > PAY_LIMIT);
    }

    method LoginFailed(ip: string, email: string, now: int)
      modifies this`loginIp, this`loginAcct
      ensures loginIp == old(loginIp)[ip := Hit(Get(old(loginIp), ip), LOGIN_WINDOW, now)]
      ensures loginAcct == old(loginAcct)[email := Hit(Get(old(loginAcct), email), LOGIN_WINDOW, now)]
      ensures var ipFails, acctFails := Count(Get(old(loginIp), ip), now), Count(Get(old(loginAcct), email), now);
              && loginIp == old(loginIp)[ip :=
                   Counting(ipFails + 1, if ipFails == 0 then now + 900 else old(loginIp)[ip].until)]
              && loginAcct == old(loginAcct)[email :=
                   Counting(acctFails + 1, if acctFails == 0 then now + 900 else old(loginAcct)[email].until)]
    {
      var n := Count(Get(loginIp, ip), now) + 1;
      loginIp := loginIp[ip := Counting(n, if n == 1 then now + LOGIN_WINDOW else loginIp[ip].until)];
      n := Count(Get(loginAcct, email), now) + 1;
      loginAcct := loginAcct[email := Counting(n, if n == 1 then now + LOGIN_WINDOW else loginAcct[email].until)];
    }

    /** `normal` is the lower-casing and trimming of the address, whatever it does to letters;
        `judge` is what the users table and the password hash say of a normalised address. */
    method Login(normal: string -> string, judge: string -> Verdict,
        ip: string, email: string, password: string, now: int)
      returns (r: Response)
      modifies this`loginIp, this`loginAcct
      ensures var l, a := Limits(old(loginIp), old(loginAcct)), Attempt(ip, normal(email), now, judge(normal(email)));
              var complete := normal(email) != "" && password != "";
              && (r == MissingFields <==> !complete)
              && Limits(loginIp, loginAcct) == (if complete then Next(l, a) else l)
              && (r == TooManyAttempts <==> complete && Locked(l, a))
              && (r == InvalidCredentials <==> complete && Counted(l, a))
              && (r == LoggedIn <==> complete && Heals(l, a))
      ensures var address, verdict := normal(email), judge(normal(email));
              var ipFails, acctFails := Count(Get(old(loginIp), ip), now), Count(Get(old(loginAcct), address), now);
              && r == (if address == "" || password == "" then MissingFields
                       else if ipFails >= 20 || acctFails >= 10 then TooManyAttempts
                       else match verdict
                            case UnknownUser => InvalidCredentials
                            case Inactive => Forbidden
                            case WrongPassword => InvalidCredentials
                            case Correct => LoggedIn)
              && loginIp == (if r == InvalidCredentials then
                               old(loginIp)[ip :=
                                 Counting(ipFails + 1, if ipFails == 0 then now + 900 else old(loginIp)[ip].until)]
                             else old(loginIp))
              && loginAcct == (if r == InvalidCredentials then
                                 old(loginAcct)[address :=
                                   Counting(acctFails + 1,
                                            if acctFails == 0 then now + 900 else old(loginAcct)[address].until)]
                               else if r == LoggedIn then old(loginAcct) - {address} else old(loginAcct))
    {
      var address := normal(email);
      if address == "" || password == "" {
        return MissingFields;
      }
      var ipFails, acctFails := Count(Get(loginIp, ip), now), Count(Get(loginAcct, address), now);
      if LoginLocked(ipFails, acctFails) {
        return TooManyAttempts;
      }
      var verdict := judge(address);
      if verdict == UnknownUser {
        LoginFailed(ip, address, now);
        return InvalidCredentials;
      }
      if verdict == Inactive {
        return Forbidden;
      }
      if verdict == WrongPassword {
        LoginFailed(ip, address, now);
        return InvalidCredentials;
      }
      loginAcct := loginAcct - {address};
      r := LoggedIn;
    }
  }
}
