/** Dropping stale firewall rules by number. Deleting a rule renumbers every later one, so
    the numbers taken from one listing stay right only because the highest goes first. */
module Firewall {

  /** A rule; those carrying the sync script's tag name one router address. */
  datatype Rule = Rule(tagged: bool, ip: string)

  predicate Stale(r: Rule, want: seq<string>) {
    r.tagged && r.ip !in want
  }

  /** The rules without the stale ones, in their order. */
  function Kept(rules: seq<Rule>, want: seq<string>): seq<Rule> {
    if rules == [] then []
    else if Stale(rules[|rules| - 1], want) then Kept(rules[..|rules| - 1], want)
    else Kept(rules[..|rules| - 1], want) + [rules[|rules| - 1]]
  }

  /** A list of positions, in increasing order, of exactly the rules that stay: those without the
      tag, and those whose address is wanted. */
  ghost predicate Selects(rules: seq<Rule>, want: seq<string>, at: seq<nat>, kept: seq<Rule>) {
    && |at| == |kept|
    && (forall j, k :: 0 <= j < k < |at| ==> at[j] < at[k])
    && (forall k :: 0 <= k < |at| ==> at[k] < |rules| && kept[k] == rules[at[k]])
    && (forall i: nat :: i in at <==> i < |rules| && (rules[i].tagged ==> rules[i].ip in want))
  }

  lemma SelectsOneMore(rules: seq<Rule>, want: seq<string>, at: seq<nat>, kept: seq<Rule>)
    requires rules != [] && Selects(rules[..|rules| - 1], want, at, kept)
    ensures Stale(rules[|rules| - 1], want) ==> Selects(rules, want, at, kept)
    ensures !Stale(rules[|rules| - 1], want) ==> Selects(rules, want, at + [|rules| - 1], kept + [rules[|rules| - 1]])
  {
    var front, last := rules[..|rules| - 1], |rules| - 1;
    forall i: nat ensures i in at <==> i < last && !Stale(rules[i], want) {
      assert i < last ==> front[i] == rules[i];
    }
    assert forall i: nat :: i in at + [last] <==> i in at || i == last;
  }

  lemma {:induction false} KeptSelects(rules: seq<Rule>, want: seq<string>) returns (at: seq<nat>)
    ensures Selects(rules, want, at, Kept(rules, want))
  {
    if rules == [] {
      at := [];
    } else {
      var last := |rules| - 1;
      var front := KeptSelects(rules[..last], want);
      if Stale(rules[last], want) {
        at := front;
        SelectsOneMore(rules, want, front, Kept(rules[..last], want));
      } else {
        at := front + [last];
        SelectsOneMore(rules, want, front, Kept(rules[..last], want));
      }
    }
  }

  /** ufw delete: rules are numbered from 1; a number past the end deletes nothing. */
  function Delete(rules: seq<Rule>, num: nat): seq<Rule> {
    if 1 <= num <= |rules| then rules[..num - 1] + rules[num..] else rules
  }

  /** A tagged line of the listing: its number and its address. */
  datatype Line = Line(num: nat, ip: string)

  /** The tagged lines of one listing, first line first. */
  function Tagged(rules: seq<Rule>): seq<Line> {
    if rules == [] then []
    else
      var last := rules[|rules| - 1];
      Tagged(rules[..|rules| - 1]) + if last.tagged then [Line(|rules|, last.ip)] else []
  }

  function Reversed(lines: seq<Line>): seq<Line> {
    if lines == [] then [] else [lines[|lines| - 1]] + Reversed(lines[..|lines| - 1])
  }

  /** The loop's effect: each line of a list made beforehand may delete one rule by number. */
  function DropLines(rules: seq<Rule>, lines: seq<Line>, want: seq<string>): seq<Rule>
    decreases |lines|
  {
    if lines == [] then rules
    else DropLines(if lines[0].ip in want then rules else Delete(rules, lines[0].num), lines[1..], want)
  }

  lemma ReversedTagged(front: seq<Rule>, last: Rule)
    ensures Reversed(Tagged(front + [last]))
              == (if last.tagged then [Line(|front| + 1, last.ip)] else []) + Reversed(Tagged(front))
  {
    var rules := front + [last];
    assert rules[..|front|] == front;
    if last.tagged {
      assert Tagged(rules) == Tagged(front) + [Line(|front| + 1, last.ip)];
      assert Tagged(rules)[..|Tagged(front)|] == Tagged(front);
    } else {
      assert Tagged(rules) == Tagged(front);
    }
  }

  lemma LastLine(rules: seq<Rule>, rest: seq<Rule>, last: Rule, want: seq<string>)
    ensures DropLines(rules, Reversed(Tagged(rest + [last])), want)
         == DropLines(if Stale(last, want) then Delete(rules, |rest| + 1) else rules, Reversed(Tagged(rest)), want)
  {
    ReversedTagged(rest, last);
    if !last.tagged {
      assert [] + Reversed(Tagged(rest)) == Reversed(Tagged(rest));
    }
  }

  lemma Regroup(a: seq<Rule>, b: seq<Rule>, c: seq<Rule>)
    ensures (a + b) + c == a + (b + c)
  {
  }

  lemma DeleteBetween(rest: seq<Rule>, last: Rule, tail: seq<Rule>)
    ensures Delete(rest + [last] + tail, |rest| + 1) == rest + tail
  {
    var rules := rest + [last] + tail;
    assert rules[..|rest|] == rest && rules[|rest| + 1..] == tail;
  }

  /** Highest first, the lines of one listing delete exactly the stale rules, whatever
      comes after the rules that were listed. */
  lemma {:induction false} HighestFirst(front: seq<Rule>, tail: seq<Rule>, want: seq<string>)
    ensures DropLines(front + tail, Reversed(Tagged(front)), want) == Kept(front, want) + tail
    decreases |front|
  {
    if front == [] {
      assert front + tail == tail;
    } else {
      var rest, last := front[..|front| - 1], front[|front| - 1];
      assert front == rest + [last];
      LastLine(front + tail, rest, last, want);
      if Stale(last, want) {
        DeleteBetween(rest, last, tail);
        HighestFirst(rest, tail, want);
      } else {
        Regroup(rest, [last], tail);
        HighestFirst(rest, [last] + tail, want);
        Regroup(Kept(rest, want), [last], tail);
      }
    }
  }

  /** In listing order instead: with two stale rules before one the script does not own, the
      second stale rule survives and the other rule is deleted. */
  lemma LowestFirstDeletesWrongRule(a: string, b: string, own: Rule)
    requires !own.tagged
    ensures var rules := [Rule(true, a), Rule(true, b), own];
            DropLines(rules, Tagged(rules), []) == [Rule(true, b)] && Kept(rules, []) == [own]
  {
    var x, y := Rule(true, a), Rule(true, b);
    var rules := [x, y, own];
    assert rules[..2] == [x, y] && [x, y][..1] == [x] && [x][..0] == [];
    assert Tagged([x]) == [Line(1, a)];
    assert Tagged([x, y]) == [Line(1, a), Line(2, b)];
    assert Tagged(rules) == [Line(1, a), Line(2, b)];
    assert Delete(rules, 1) == [y, own] && Delete([y, own], 2) == [y];
    assert [Line(1, a), Line(2, b)][1..] == [Line(2, b)] && [Line(2, b)][1..] == [];
    assert DropLines([y, own], [Line(2, b)], []) == DropLines([y], [], []);
    assert Kept([x], []) == [] && Kept([x, y], []) == [];
  }

  class Host {
    var rules: seq<Rule>

    method UfwDelete(num: nat)
      modifies this
      ensures rules == Delete(old(rules), num)
      ensures |rules| == if 1 <= num <= |old(rules)| then |old(rules)| - 1 else |old(rules)|
      ensures forall i :: 0 <= i < |rules| ==> rules[i] == old(rules)[if 1 <= num <= i + 1 then i + 1 else i]
    {
      if 1 <= num <= |rules| {
        rules := rules[..num - 1] + rules[num..];
      }
    }

    /** The loop over one listing, complete and reversed before the first deletion. */
    method DropStale(want: seq<string>)
      modifies this
      ensures rules == Kept(old(rules), want)
      ensures exists at: seq<nat> :: Selects(old(rules), want, at, rules)
    {
      var lines := Reversed(Tagged(rules));
      var i := 0;
      while i < |lines|
        invariant 0 <= i <= |lines|
        invariant DropLines(rules, lines[i..], want) == DropLines(old(rules), lines, want)
      {
        assert lines[i..][1..] == lines[i + 1..];
        var keep := lines[i].ip in want;
        if !keep {
          UfwDelete(lines[i].num);
        }
        i := i + 1;
      }
      HighestFirst(old(rules), [], want);
      assert old(rules) + [] == old(rules);
      ghost var at := KeptSelects(old(rules), want);
    }
  }
}
