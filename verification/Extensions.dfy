/** How extensions of one session add up. */
module Extensions {
  import opened RadiusRows
  import opened Sessions

  /** One extension: the plan's minutes, and the clock readings compared with and counted from. */
  datatype Extension = Extension(mins: int, compared: int, based: int)

  function FinalExpiry(expiry: int, exts: seq<Extension>): int
    decreases |exts|
  {
    if exts == [] then expiry
    else FinalExpiry(NewExpiry(expiry, exts[0].mins, exts[0].compared, exts[0].based), exts[1..])
  }

  /** The session has not lapsed when any of the extensions looks at it. */
  predicate NeverLapses(expiry: int, exts: seq<Extension>)
    decreases |exts|
  {
    exts == [] ||
    (exts[0].compared <= expiry
     && NeverLapses(NewExpiry(expiry, exts[0].mins, exts[0].compared, exts[0].based), exts[1..]))
  }

  function TotalMins(exts: seq<Extension>): int {
    if exts == [] then 0 else exts[0].mins + TotalMins(exts[1..])
  }

  /** The clock does not run backwards between its readings. */
  predicate ClockForward(exts: seq<Extension>) {
    forall i :: 0 <= i < |exts| ==> exts[i].compared <= exts[i].based
  }

  /** An extension can shorten a session only through a plan of negative duration, which
      editing a plan does not rule out. */
  lemma NeverShortensIff(mins: int)
    ensures (forall current: int, compared: int, based: int :: compared <= based ==>
               NewExpiry(current, mins, compared, based) >= current)
            <==> mins >= 0
  {
    if mins < 0 {
      assert NewExpiry(0, mins, 0, 0) < 0;
    }
  }

  /** Over any sequence of extensions the expiry never goes back. */
  lemma {:induction false} ExpiryNeverDecreases(expiry: int, exts: seq<Extension>)
    requires ClockForward(exts) && forall i :: 0 <= i < |exts| ==> exts[i].mins >= 0
    ensures FinalExpiry(expiry, exts) >= expiry + TotalMins(exts) * MINUTE >= expiry
    decreases |exts|
  {
    if exts != [] {
      var next := NewExpiry(expiry, exts[0].mins, exts[0].compared, exts[0].based);
      assert forall i :: 0 <= i < |exts| - 1 ==> exts[1..][i] == exts[i + 1];
      ExpiryNeverDecreases(next, exts[1..]);
    }
  }

  /** If the session never lapses, the final expiry is the first plus all durations. */
  lemma {:induction false} ExtensionsAddUp(expiry: int, exts: seq<Extension>)
    requires NeverLapses(expiry, exts)
    ensures FinalExpiry(expiry, exts) == expiry + TotalMins(exts) * MINUTE
    decreases |exts|
  {
    if exts != [] {
      ExtensionsAddUp(NewExpiry(expiry, exts[0].mins, exts[0].compared, exts[0].based), exts[1..]);
    }
  }

  lemma {:induction false} TotalWithout(exts: seq<Extension>, i: nat)
    requires i < |exts|
    ensures TotalMins(exts) == exts[i].mins + TotalMins(exts[..i] + exts[i + 1..])
  {
    if i == 0 {
      assert exts[..0] + exts[1..] == exts[1..];
    } else {
      TotalWithout(exts[1..], i - 1);
      assert (exts[..i] + exts[i + 1..])[1..] == exts[1..][..i - 1] + exts[1..][i..];
    }
  }

  lemma PermutationWithout(a: seq<Extension>, b: seq<Extension>, i: nat)
    requires a != [] && i < |b| && b[i] == a[0] && multiset(a) == multiset(b)
    ensures multiset(a[1..]) == multiset(b[..i] + b[i + 1..])
  {
    assert a == [a[0]] + a[1..];
    assert b == b[..i] + ([b[i]] + b[i + 1..]);
    assert multiset(a) == multiset{a[0]} + multiset(a[1..]);
    assert multiset(b) == multiset(b[..i]) + (multiset{b[i]} + multiset(b[i + 1..]));
    var x, y := multiset(a[1..]), multiset(b[..i]) + multiset(b[i + 1..]);
    assert multiset{a[0]} + x == multiset{a[0]} + y;
    assert x == (multiset{a[0]} + x) - multiset{a[0]} == (multiset{a[0]} + y) - multiset{a[0]} == y;
  }

  lemma {:induction false} TotalOfPermutation(a: seq<Extension>, b: seq<Extension>)
    requires multiset(a) == multiset(b)
    ensures TotalMins(a) == TotalMins(b)
    decreases |a|
  {
    if a == [] {
      assert |multiset(b)| == 0;
    } else {
      assert a[0] in multiset(b);
      var i :| 0 <= i < |b| && b[i] == a[0];
      TotalWithout(b, i);
      PermutationWithout(a, b, i);
      TotalOfPermutation(a[1..], b[..i] + b[i + 1..]);
    }
  }

  /** The order of the extensions does not matter as long as the session never lapses. */
  lemma OrderDoesNotMatter(expiry: int, a: seq<Extension>, b: seq<Extension>)
    requires multiset(a) == multiset(b) && NeverLapses(expiry, a) && NeverLapses(expiry, b)
    ensures FinalExpiry(expiry, a) == FinalExpiry(expiry, b)
  {
    ExtensionsAddUp(expiry, a);
    ExtensionsAddUp(expiry, b);
    TotalOfPermutation(a, b);
  }

  /** The router is told the whole seconds left, but never less than a minute. */
  lemma TimeoutIsWholeSecondsLeft(expiry: int, measured: int)
    ensures var secs := Timeout(expiry, measured);
            && secs >= MIN_TIMEOUT
            && (expiry - measured >= MIN_TIMEOUT * SECOND ==> secs * SECOND <= expiry - measured < (secs + 1) * SECOND)
            && (expiry - measured < MIN_TIMEOUT * SECOND ==> secs == MIN_TIMEOUT)
  {
  }

  /** Only extensions of this session by its own tenant. */
  predicate ExtendsOnly(ops: seq<Op>, id: nat, tenant: nat) {
    forall i :: 0 <= i < |ops| ==> ops[i].Extend? && ops[i].id == id && ops[i].tenant == tenant
  }

  function ExtensionsOf(ops: seq<Op>): (exts: seq<Extension>)
    requires forall i :: 0 <= i < |ops| ==> ops[i].Extend?
    ensures |exts| == |ops|
  {
    seq(|ops|, i requires 0 <= i < |ops| => Extension(ops[i].plan.mins, ops[i].compared, ops[i].based))
  }

  /** In the tables: a run of extensions of an active session leaves it active with exactly
      the accumulated expiry. */
  lemma {:induction false} TableExpiry(t: Tables, id: nat, tenant: nat, ops: seq<Op>)
    requires ActiveFor(t, id, tenant) && ExtendsOnly(ops, id, tenant)
    ensures var t' := Run(t, ops);
            && ActiveFor(t', id, tenant)
            && t'.sessions[id].expiresAt == FinalExpiry(t.sessions[id].expiresAt, ExtensionsOf(ops))
    decreases |ops|
  {
    if ops != [] {
      assert ExtensionsOf(ops)[1..] == ExtensionsOf(ops[1..]);
      TableExpiry(Apply(t, ops[0]), id, tenant, ops[1..]);
    }
  }
}
