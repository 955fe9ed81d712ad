/** Provisioning a device's management-tunnel identity: any number of concurrent callers
    of ensureWG, with the read, the compare-and-set and the re-read as separate steps. */
module Tunnel {
  import opened Wrappers
  import opened Sequences

  /** 10.77.0.0 as a 32-bit number. */
  const BASE: nat := 0x0A4D0000

  /** The first value of wg_ip_seq. */
  const FIRST: nat := 10

  const BLOCK: nat := 65536

  /** The three tunnel columns of a device row. */
  datatype Wg = Wg(ip: Option<nat>, priv: Option<nat>, pub: Option<nat>)

  datatype Keypair = Keypair(priv: nat, pub: nat)

  const UNSET := Wg(None, None, None)

  predicate Complete(w: Wg) {
    w.ip.Some? && w.priv.Some?
  }

  /** What one winning compare-and-set stored. */
  datatype Write = Write(n: nat, keys: Keypair)

  function Filled(w: Write): Wg {
    Wg(Some(BASE + w.n), Some(w.keys.priv), Some(w.keys.pub))
  }

  /** Where a caller is; a re-read may in principle find an address without a key. */
  datatype Stage =
    | Reading
    | Claiming
    | Rereading
    | Returned(ip: nat, priv: Option<nat>)
    | Gone
    | NoKeypair

  datatype Caller = Caller(device: string, stage: Stage)

  /** The device table, the ids of deleted devices (ids are never reused), the sequence and
      the callers; `written` records what the compare-and-set stored, for the theorems. */
  datatype World = World(
    devices: map<string, Wg>, gone: set<string>, next: nat, callers: seq<Caller>, written: map<string, Write>)

  datatype Step =
    | Register(device: string)
    | Delete(device: string)
    | Burn
    | Invoke(device: string)
    | Act(caller: nat, keys: Option<Keypair>)

  const START := World(map[], {}, FIRST, [], map[])

  predicate Busy(stage: Stage) {
    stage in {Reading, Claiming, Rereading}
  }

  predicate Enabled(w: World, s: Step) {
    match s
    case Register(d) => d !in w.devices && d !in w.gone
    case Delete(d) => d in w.devices
    case Burn => true
    case Invoke(d) => d in w.devices || d in w.gone
    case Act(i, _) => i < |w.callers| && Busy(w.callers[i].stage)
  }

  function To(w: World, i: nat, stage: Stage): World
    requires i < |w.callers|
  {
    w.(callers := w.callers[i := w.callers[i].(stage := stage)])
  }

  /** The compare-and-set matches the row: the drawn number and the caller's keypair go in. */
  function Claim(w: World, i: nat, keys: Keypair): World
    requires i < |w.callers|
  {
    var d, write := w.callers[i].device, Write(w.next, keys);
    To(w, i, Returned(BASE + w.next, Some(keys.priv)))
      .(devices := w.devices[d := Filled(write)], next := w.next + 1, written := w.written[d := write])
  }

  /** The compare-and-set is the next statement and finds the row without an address. */
  predicate Wins(row: Option<Wg>, stage: Stage, keys: Option<Keypair>) {
    stage == Claiming && keys.Some? && row.Some? && row.value.ip == None
  }

  /** Where one statement takes a caller that sees this row, or no row. */
  function AfterStatement(row: Option<Wg>, next: nat, stage: Stage, keys: Option<Keypair>): Stage {
    if stage == Reading then
      if row == None then Gone
      else if Complete(row.value) then Returned(row.value.ip.value, row.value.priv)
      else Claiming
    else if stage == Claiming then
      if keys == None then NoKeypair
      else if Wins(row, stage, keys) then Returned(BASE + next, Some(keys.value.priv))
      else Rereading
    else if row.Some? && row.value.ip.Some? then Returned(row.value.ip.value, row.value.priv)
    else Gone
  }

  function RowOf(w: World, d: string): Option<Wg> {
    if d in w.devices then Some(w.devices[d]) else None
  }

  /** One statement of caller i: the read, the keypair with the compare-and-set, or the re-read. */
  function Advance(w: World, i: nat, keys: Option<Keypair>): World
    requires i < |w.callers| && Busy(w.callers[i].stage)
  {
    var d, stage := w.callers[i].device, w.callers[i].stage;
    if Wins(RowOf(w, d), stage, keys) then Claim(w, i, keys.value)
    else To(w, i, AfterStatement(RowOf(w, d), w.next, stage, keys))
  }

  function Next(w: World, s: Step): World
    requires Enabled(w, s)
  {
    match s
    case Register(d) => w.(devices := w.devices[d := UNSET])
    case Delete(d) => w.(devices := w.devices - {d}, gone := w.gone + {d})
    case Burn => w.(next := w.next + 1)
    case Invoke(d) => w.(callers := w.callers + [Caller(d, Reading)])
    case Act(i, keys) => Advance(w, i, keys)
  }

  predicate Admissible(w: World, steps: seq<Step>)
    decreases |steps|
  {
    steps == [] || (Enabled(w, steps[0]) && Admissible(Next(w, steps[0]), steps[1..]))
  }

  function Run(w: World, steps: seq<Step>): World
    requires Admissible(w, steps)
    decreases |steps|
  {
    if steps == [] then w else Run(Next(w, steps[0]), steps[1..])
  }

  // ----- the invariant

  predicate WrittenOk(w: World) {
    && (forall d :: d in w.written ==> FIRST <= w.written[d].n < w.next && (d in w.devices || d in w.gone))
    && (forall d, e :: d in w.written && e in w.written && d != e ==> w.written[d].n != w.written[e].n)
  }

  predicate DevicesOk(w: World) {
    forall d :: d in w.devices ==>
      d !in w.gone && w.devices[d] == if d in w.written then Filled(w.written[d]) else UNSET
  }

  predicate CallerOk(w: World, c: Caller) {
    && (c.device in w.devices || c.device in w.gone)
    && (c.stage.Returned? ==>
          && c.device in w.written
          && c.stage.ip == BASE + w.written[c.device].n
          && c.stage.priv == Some(w.written[c.device].keys.priv))
    && (c.stage == Rereading ==> c.device in w.gone || c.device in w.written)
    && (c.stage == Gone ==> c.device in w.gone)
  }

  predicate Inv(w: World) {
    && FIRST <= w.next
    && WrittenOk(w)
    && DevicesOk(w)
    && forall i :: 0 <= i < |w.callers| ==> CallerOk(w, w.callers[i])
  }

  /** What was stored stays stored as it was. */
  predicate Extends(w: World, w': World) {
    && (forall d :: d in w.written ==> d in w'.written && w'.written[d] == w.written[d])
    && w.next <= w'.next
  }

  lemma ClaimKeepsInv(w: World, i: nat, keys: Keypair)
    requires Inv(w) && i < |w.callers| && w.callers[i].device in w.devices && w.devices[w.callers[i].device].ip == None
    ensures Inv(Claim(w, i, keys)) && Extends(w, Claim(w, i, keys))
  {
    var w', d := Claim(w, i, keys), w.callers[i].device;
    assert d !in w.written;
    assert w'.devices.Keys == w.devices.Keys;
    assert forall k :: 0 <= k < |w.callers| && k != i ==> w'.callers[k] == w.callers[k];
  }

  lemma MoveKeepsInv(w: World, i: nat, stage: Stage)
    requires Inv(w) && i < |w.callers| && CallerOk(w, Caller(w.callers[i].device, stage))
    ensures Inv(To(w, i, stage)) && Extends(w, To(w, i, stage))
  {
    var w' := To(w, i, stage);
    assert forall k :: 0 <= k < |w.callers| && k != i ==> w'.callers[k] == w.callers[k];
  }

  lemma AdvanceKeepsInv(w: World, i: nat, keys: Option<Keypair>)
    requires Inv(w) && Enabled(w, Act(i, keys))
    ensures Inv(Advance(w, i, keys)) && Extends(w, Advance(w, i, keys))
  {
    var c := w.callers[i];
    assert CallerOk(w, c);
    if c.stage == Claiming && keys.Some? && c.device in w.devices && w.devices[c.device].ip == None {
      ClaimKeepsInv(w, i, keys.value);
    } else {
      MoveKeepsInv(w, i, Advance(w, i, keys).callers[i].stage);
    }
  }

  lemma StepKeepsInv(w: World, s: Step)
    requires Inv(w) && Enabled(w, s)
    ensures Inv(Next(w, s)) && Extends(w, Next(w, s))
  {
    if s.Act? {
      AdvanceKeepsInv(w, s.caller, s.keys);
    } else {
      var w' := Next(w, s);
      assert w.devices.Keys + w.gone <= w'.devices.Keys + w'.gone;
      forall k | 0 <= k < |w'.callers| ensures CallerOk(w', w'.callers[k]) {
        if k < |w.callers| {
          assert CallerOk(w, w.callers[k]);
        }
      }
    }
  }

  lemma {:induction false} RunKeepsInv(w: World, steps: seq<Step>)
    requires Inv(w) && Admissible(w, steps)
    ensures Inv(Run(w, steps)) && Extends(w, Run(w, steps))
    decreases |steps|
  {
    if steps != [] {
      StepKeepsInv(w, steps[0]);
      RunKeepsInv(Next(w, steps[0]), steps[1..]);
    }
  }

  // ----- what callers can rely on

  /** An identity, once stored, is never rewritten: through any schedule a device that has
      one keeps it until it is deleted. */
  lemma WrittenOnce(before: seq<Step>, after: seq<Step>, d: string)
    requires Admissible(START, before) && Admissible(Run(START, before), after)
    ensures var w, w' := Run(START, before), Run(Run(START, before), after);
            d in w.devices && w.devices[d].ip.Some? && d in w'.devices ==> w'.devices[d] == w.devices[d]
  {
    RunKeepsInv(START, before);
    RunKeepsInv(Run(START, before), after);
  }

  /** Two callers that returned agree if they asked for the same device and hold different
      addresses otherwise; the answer is what the device row holds, if it still exists. */
  lemma CallersAgree(steps: seq<Step>, i: nat, j: nat)
    requires Admissible(START, steps)
    ensures var w := Run(START, steps);
            i < |w.callers| && j < |w.callers| && w.callers[i].stage.Returned? && w.callers[j].stage.Returned? ==>
              && (w.callers[i].device == w.callers[j].device ==> w.callers[i].stage == w.callers[j].stage)
              && (w.callers[i].device != w.callers[j].device ==> w.callers[i].stage.ip != w.callers[j].stage.ip)
  {
    RunKeepsInv(START, steps);
    var w := Run(START, steps);
    if i < |w.callers| && j < |w.callers| {
      assert CallerOk(w, w.callers[i]) && CallerOk(w, w.callers[j]);
    }
  }

  lemma AnswerIsStored(steps: seq<Step>, i: nat)
    requires Admissible(START, steps)
    ensures var w := Run(START, steps);
            i < |w.callers| ==>
              var d, stage := w.callers[i].device, w.callers[i].stage;
              && (stage.Returned? && d in w.devices ==>
                    w.devices[d].ip == Some(stage.ip) && w.devices[d].priv == stage.priv && stage.priv.Some?)
              && (stage == Gone ==> d !in w.devices)
  {
    RunKeepsInv(START, steps);
    var w := Run(START, steps);
    if i < |w.callers| {
      assert CallerOk(w, w.callers[i]);
    }
  }

  /** Addresses of registered devices: the columns are set together, addresses are pairwise
      distinct, start at 10.77.0.10 and stay inside 10.77.0.0/16 while the sequence does. */
  lemma AddressesDistinct(steps: seq<Step>, d: string, e: string)
    requires Admissible(START, steps)
    ensures var w := Run(START, steps);
            && (d in w.devices ==>
                  w.devices[d] == UNSET || (w.devices[d].ip.Some? && w.devices[d].priv.Some? && w.devices[d].pub.Some?))
            && (d in w.devices && w.devices[d].ip.Some? ==>
                  0x0A4D000A <= w.devices[d].ip.value && (w.next <= 65536 ==> w.devices[d].ip.value < 0x0A4E0000))
            && (d in w.devices && e in w.devices && d != e && w.devices[d].ip.Some? ==>
                  w.devices[d].ip != w.devices[e].ip)
  {
    RunKeepsInv(START, steps);
  }

  /** The next address handed out is inside the /16 exactly while the sequence is below 65536. */
  lemma NextInsideBlockIff(w: World, i: nat, keys: Keypair)
    requires Inv(w) && i < |w.callers| && w.callers[i].stage == Claiming
    requires w.callers[i].device in w.devices && w.devices[w.callers[i].device].ip == None
    ensures var stage := Advance(w, i, Some(keys)).callers[i].stage;
            && stage == Returned(0x0A4D0000 + w.next, Some(keys.priv))
            && (stage.ip / 65536 == 0x0A4D <==> w.next < 65536)
  {
  }

  lemma {:induction false} RunBurns(w: World, n: nat, rest: seq<Step>)
    requires Admissible(w.(next := w.next + n), rest)
    ensures Admissible(w, Repeat(Burn, n) + rest) && Run(w, Repeat(Burn, n) + rest) == Run(w.(next := w.next + n), rest)
    decreases n
  {
    if n == 0 {
      assert Repeat(Burn, 0) + rest == rest;
    } else {
      var steps := Repeat(Burn, n) + rest;
      assert steps[0] == Burn && steps[1..] == Repeat(Burn, n - 1) + rest;
      RunBurns(w.(next := w.next + 1), n - 1, rest);
    }
  }

  lemma RunTwo(w: World, a: Step, b: Step)
    requires Enabled(w, a) && Enabled(Next(w, a), b)
    ensures Admissible(w, [a, b]) && Run(w, [a, b]) == Next(Next(w, a), b)
  {
    assert [a, b][1..] == [b];
    assert Run(Next(w, a), [b]) == Run(Next(Next(w, a), b), []);
  }

  lemma RunFour(w: World, a: Step, b: Step, c: Step, d: Step)
    requires Enabled(w, a) && Enabled(Next(w, a), b) && Enabled(Next(Next(w, a), b), c)
    requires Enabled(Next(Next(Next(w, a), b), c), d)
    ensures Admissible(w, [a, b, c, d]) && Run(w, [a, b, c, d]) == Next(Next(Next(Next(w, a), b), c), d)
  {
    RunTwo(Next(Next(w, a), b), c, d);
    assert [a, b, c, d][1..] == [b, c, d] && [b, c, d][1..] == [c, d];
    assert Run(Next(w, a), [b, c, d]) == Run(Next(Next(w, a), b), [c, d]);
  }

  /** A run that draws n numbers without using them and then provisions a device. */
  function RunDry(n: nat, d: string, keys: Keypair): seq<Step> {
    Repeat(Burn, n) + [Register(d), Invoke(d), Act(0, Some(keys)), Act(0, Some(keys))]
  }

  /** Addresses outside 10.77.0.0/16 are really handed out: after 65,526 burnt numbers the
      next device is given 10.78.0.0, and any later address is reachable likewise. */
  lemma BeyondBlockReachable(n: nat, d: string, keys: Keypair)
    ensures Admissible(START, RunDry(n, d, keys))
    ensures var w := Run(START, RunDry(n, d, keys));
            && w.devices == map[d := Filled(Write(FIRST + n, keys))]
            && w.callers == [Caller(d, Returned(BASE + FIRST + n, Some(keys.priv)))]
            && ((BASE + FIRST + n) / BLOCK == BASE / BLOCK <==> n < BLOCK - FIRST)
  {
    var w0, act := START.(next := FIRST + n), Act(0, Some(keys));
    var w2 := Next(Next(w0, Register(d)), Invoke(d));
    assert w2.callers == [Caller(d, Reading)] && w2.devices == map[d := UNSET];
    var w3 := Next(w2, act);
    assert w3 == w2.(callers := [Caller(d, Claiming)]);
    RunFour(w0, Register(d), Invoke(d), act, act);
    RunBurns(START, n, [Register(d), Invoke(d), act, act]);
  }

  // ----- one caller running alone

  /** What ensureWG returns and leaves behind when nothing else runs: the identity, the row
      and whether the sequence moved. */
  function EnsureAlone(row: Wg, next: nat, keys: Keypair): (Wg, nat, Stage) {
    if Complete(row) then (row, next, Returned(row.ip.value, row.priv))
    else if row.ip == None then (Filled(Write(next, keys)), next + 1, Returned(BASE + next, Some(keys.priv)))
    else (row, next, Returned(row.ip.value, row.priv))
  }

  /** The steps the caller needs when it runs alone. */
  function OwnSteps(row: Wg, i: nat, keys: Keypair): seq<Step> {
    var act := Act(i, Some(keys));
    if Complete(row) then [act] else if row.ip == None then [act, act] else [act, act, act]
  }

  /** A caller nobody interferes with gets its answer in at most three statements. */
  lemma AloneFinishes(w: World, i: nat, keys: Keypair)
    requires i < |w.callers| && w.callers[i].stage == Reading && w.callers[i].device in w.devices
    ensures var d := w.callers[i].device;
            var steps, (row, next, stage) := OwnSteps(w.devices[d], i, keys), EnsureAlone(w.devices[d], w.next, keys);
            && Admissible(w, steps)
            && Run(w, steps).devices == w.devices[d := row]
            && Run(w, steps).next == next
            && Run(w, steps).callers == w.callers[i := Caller(d, stage)]
  {
    var act, d := Act(i, Some(keys)), w.callers[i].device;
    if Complete(w.devices[d]) {
      assert Run(w, [act]) == Run(Next(w, act), []);
    } else {
      RunTwo(w, act, act);
      if w.devices[d].ip.Some? {
        var w1 := Next(w, act);
        RunTwo(w1, act, act);
        assert [act, act, act][1..] == [act, act];
      }
    }
  }

  /** Its answer: the identity the row holds if it has an address, and otherwise a new one at the
      next number of the sequence, which the row then holds. */
  lemma AloneAnswer(w: World, i: nat, keys: Keypair)
    requires i < |w.callers| && w.callers[i].stage == Reading && w.callers[i].device in w.devices
    ensures var d := w.callers[i].device;
            var was, steps := w.devices[d], OwnSteps(w.devices[d], i, keys);
            && |steps| <= 3 && Admissible(w, steps)
            && var done := Run(w, steps);
               if was.ip.Some? then
                 && done.devices == w.devices
                 && done.callers == w.callers[i := Caller(d, Returned(was.ip.value, was.priv))]
               else
                 var ip := 0x0A4D0000 + w.next;
                 && done.devices == w.devices[d := Wg(Some(ip), Some(keys.priv), Some(keys.pub))]
                 && done.next == w.next + 1
                 && done.callers == w.callers[i := Caller(d, Returned(ip, Some(keys.priv)))]
  {
    AloneFinishes(w, i, keys);
  }
}
