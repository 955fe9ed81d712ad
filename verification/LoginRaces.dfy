/** Logins in flight together on one failure counter: the counter is read at the start of a
    login and raised, or cleared, after the password has been checked; meanwhile its window may
    end. */
module LoginRaces {
  import opened Sequences

  /** The failures counted, and the logins that have read the counter and not finished. */
  datatype Gate = Gate(count: nat, open: nat)

  /** A login reads; fails; is turned away for another reason; succeeds, which clears an account's
      counter but not an address's; or the counter's window ends. */
  datatype Step = Read | Fail | Finish | Heal | Expire

  function Next(g: Gate, s: Step, limit: nat): Gate {
    match s
    case Read => if g.count < limit then g.(open := g.open + 1) else g
    case Fail => if g.open > 0 then Gate(g.count + 1, g.open - 1) else g
    case Finish => if g.open > 0 then g.(open := g.open - 1) else g
    case Heal => if g.open > 0 then Gate(0, g.open - 1) else g
    case Expire => g.(count := 0)
  }

  function Run(g: Gate, steps: seq<Step>, limit: nat): Gate
    decreases |steps|
  {
    if steps == [] then g else Run(Next(g, steps[0], limit), steps[1..], limit)
  }

  /** Never more than `width` logins are in flight. */
  predicate Narrow(g: Gate, steps: seq<Step>, limit: nat, width: nat)
    decreases |steps|
  {
    g.open <= width && (steps == [] || Narrow(Next(g, steps[0], limit), steps[1..], limit, width))
  }

  /** Each login in flight may still add a failure to a counter that was below the limit. */
  predicate Bounded(g: Gate, limit: nat, width: nat) {
    g.count + g.open < limit + width
  }

  lemma {:induction false} RunBounded(g: Gate, steps: seq<Step>, limit: nat, width: nat)
    requires 1 <= limit && Bounded(g, limit, width) && Narrow(g, steps, limit, width)
    ensures Bounded(Run(g, steps, limit), limit, width)
    decreases |steps|
  {
    if steps != [] {
      RunBounded(Next(g, steps[0], limit), steps[1..], limit, width);
    }
  }

  function Alternate(n: nat): seq<Step> {
    if n == 0 then [] else [Read, Fail] + Alternate(n - 1)
  }

  /** One after the other until the last free attempt, then `width` logins at once. */
  function Rush(limit: nat, width: nat): seq<Step>
    requires 1 <= limit
  {
    Alternate(limit - 1) + (Repeat(Read, width) + Repeat(Fail, width))
  }

  lemma {:induction false} RunAppend(g: Gate, a: seq<Step>, b: seq<Step>, limit: nat, width: nat)
    ensures Run(g, a + b, limit) == Run(Run(g, a, limit), b, limit)
    ensures Narrow(g, a + b, limit, width) <==> Narrow(g, a, limit, width) && Narrow(Run(g, a, limit), b, limit, width)
    decreases |a|
  {
    if a == [] {
      assert a + b == b;
    } else {
      assert (a + b)[1..] == a[1..] + b;
      RunAppend(Next(g, a[0], limit), a[1..], b, limit, width);
    }
  }

  lemma {:induction false} Reads(g: Gate, n: nat, limit: nat, width: nat)
    requires g.count < limit && g.open + n <= width
    ensures Run(g, Repeat(Read, n), limit) == Gate(g.count, g.open + n) && Narrow(g, Repeat(Read, n), limit, width)
    decreases n
  {
    if n > 0 {
      assert Repeat(Read, n)[1..] == Repeat(Read, n - 1);
      Reads(Next(g, Read, limit), n - 1, limit, width);
    }
  }

  lemma {:induction false} Fails(g: Gate, n: nat, limit: nat, width: nat)
    requires n <= g.open <= width
    ensures Run(g, Repeat(Fail, n), limit) == Gate(g.count + n, g.open - n) && Narrow(g, Repeat(Fail, n), limit, width)
    decreases n
  {
    if n > 0 {
      assert Repeat(Fail, n)[1..] == Repeat(Fail, n - 1);
      Fails(Next(g, Fail, limit), n - 1, limit, width);
    }
  }

  lemma {:induction false} Alternates(g: Gate, n: nat, limit: nat, width: nat)
    requires g.open == 0 && g.count + n <= limit && 1 <= width
    ensures Run(g, Alternate(n), limit) == Gate(g.count + n, 0) && Narrow(g, Alternate(n), limit, width)
    decreases n
  {
    if n > 0 {
      assert Alternate(n)[1..] == [Fail] + Alternate(n - 1);
      assert ([Fail] + Alternate(n - 1))[1..] == Alternate(n - 1);
      assert Next(Next(g, Read, limit), Fail, limit) == Gate(g.count + 1, 0);
      Alternates(Gate(g.count + 1, 0), n - 1, limit, width);
    }
  }

  /** With at most `width` logins in flight, whatever successes and window ends come between, a
      counter never passes limit + width - 1, so no window examines more failures between
      successes; and a rush of `width` logins reaches that: the limit itself is the bound exactly
      when logins run one after another. */
  lemma FailuresInWindow(steps: seq<Step>, limit: nat, width: nat)
    requires 1 <= limit && 1 <= width
    ensures Narrow(Gate(0, 0), steps, limit, width) ==> Run(Gate(0, 0), steps, limit).count <= limit + width - 1
    ensures Narrow(Gate(0, 0), Rush(limit, width), limit, width)
    ensures Run(Gate(0, 0), Rush(limit, width), limit).count == limit + width - 1
  {
    var g, m := Gate(0, 0), Gate(limit - 1, 0);
    if Narrow(g, steps, limit, width) {
      RunBounded(g, steps, limit, width);
    }
    Alternates(g, limit - 1, limit, width);
    Reads(m, width, limit, width);
    Fails(Gate(limit - 1, width), width, limit, width);
    RunAppend(m, Repeat(Read, width), Repeat(Fail, width), limit, width);
    RunAppend(g, Alternate(limit - 1), Repeat(Read, width) + Repeat(Fail, width), limit, width);
  }

  /** After a success, and after the end of a window, the whole limit is there again: exactly as many
      logins one after another are examined, and the next one is turned away. */
  lemma LimitReopens(g: Gate, s: Step, limit: nat)
    requires 1 <= limit && ((s == Heal && g.open == 1) || (s == Expire && g.open == 0))
    ensures Run(g, [s] + Alternate(limit), limit) == Gate(limit, 0)
    ensures Next(Gate(limit, 0), Read, limit) == Gate(limit, 0)
  {
    assert ([s] + Alternate(limit))[1..] == Alternate(limit);
    Alternates(Gate(0, 0), limit, limit, 1);
  }
}
