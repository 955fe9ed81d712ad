/** Sums over table rows, grouped by a key, as SQL's SUM ... GROUP BY computes them. */
module Tally {

  datatype Entry = Entry(key: nat, amount: int)

  function Total(rows: seq<Entry>): int {
    if rows == [] then 0 else Total(rows[..|rows| - 1]) + rows[|rows| - 1].amount
  }

  function Of(rows: seq<Entry>, key: nat): int {
    if rows == [] then 0
    else
      var last := rows[|rows| - 1];
      Of(rows[..|rows| - 1], key) + if last.key == key then last.amount else 0
  }

  /** The sum of the groups named by `keys`. */
  function OverGroups(rows: seq<Entry>, keys: seq<nat>): int {
    if keys == [] then 0 else OverGroups(rows, keys[..|keys| - 1]) + Of(rows, keys[|keys| - 1])
  }

  predicate NoDuplicates(keys: seq<nat>) {
    forall i, j :: 0 <= i < j < |keys| ==> keys[i] != keys[j]
  }

  predicate Covers(keys: seq<nat>, rows: seq<Entry>) {
    forall i :: 0 <= i < |rows| ==> rows[i].key in keys
  }

  lemma Append(rows: seq<Entry>, e: Entry)
    ensures Total(rows + [e]) == Total(rows) + e.amount
    ensures forall k: nat :: Of(rows + [e], k) == Of(rows, k) + if e.key == k then e.amount else 0
  {
    assert (rows + [e])[..|rows|] == rows;
  }

  /** Changing one row's amount moves its own group and the total by the difference. */
  lemma {:induction false} Amend(rows: seq<Entry>, i: nat, amount: int)
    requires i < |rows|
    ensures var rows' := rows[i := rows[i].(amount := amount)];
            && Total(rows') == Total(rows) - rows[i].amount + amount
            && forall k: nat :: Of(rows', k) == Of(rows, k) + if rows[i].key == k then amount - rows[i].amount else 0
  {
    var rows' := rows[i := rows[i].(amount := amount)];
    var n := |rows| - 1;
    if i == n {
      assert rows'[..n] == rows[..n];
    } else {
      Amend(rows[..n], i, amount);
      assert rows'[..n] == rows[..n][i := rows[i].(amount := amount)];
    }
  }

  lemma {:induction false} NonNegative(rows: seq<Entry>, key: nat)
    requires forall i :: 0 <= i < |rows| ==> rows[i].amount >= 0
    ensures 0 <= Of(rows, key) && 0 <= Total(rows)
  {
    if rows != [] {
      NonNegative(rows[..|rows| - 1], key);
    }
  }

  lemma {:induction false} GroupsOfNothing(keys: seq<nat>)
    ensures OverGroups([], keys) == 0
  {
    if keys != [] {
      GroupsOfNothing(keys[..|keys| - 1]);
    }
  }

  lemma {:induction false} GroupsAppend(rows: seq<Entry>, e: Entry, keys: seq<nat>)
    requires NoDuplicates(keys)
    ensures OverGroups(rows + [e], keys) == OverGroups(rows, keys) + if e.key in keys then e.amount else 0
  {
    Append(rows, e);
    if keys != [] {
      var front, last := keys[..|keys| - 1], keys[|keys| - 1];
      assert keys == front + [last];
      GroupsAppend(rows, e, front);
      assert last !in front;
    }
  }

  /** Grouping loses nothing: the groups of a covering key list add up to the grand total. */
  lemma {:induction false} GroupsAddUp(rows: seq<Entry>, keys: seq<nat>)
    requires NoDuplicates(keys) && Covers(keys, rows)
    ensures OverGroups(rows, keys) == Total(rows)
  {
    if rows == [] {
      GroupsOfNothing(keys);
    } else {
      var front, last := rows[..|rows| - 1], rows[|rows| - 1];
      assert rows == front + [last];
      GroupsAddUp(front, keys);
      GroupsAppend(front, last, keys);
      Append(front, last);
    }
  }

  /** Every finite set of keys can be listed without repetition. */
  lemma {:induction false} Listing(keys: set<nat>) returns (list: seq<nat>)
    ensures NoDuplicates(list)
    ensures forall k :: k in keys <==> k in list
  {
    if keys == {} {
      list := [];
    } else {
      var k :| k in keys;
      var rest := Listing(keys - {k});
      list := rest + [k];
      assert k !in rest;
      forall x ensures x in keys <==> x in list {
        assert x in list <==> x in rest || x == k;
      }
    }
  }

  /** A key list that covers two tables at once. */
  lemma CommonKeys(a: seq<Entry>, b: seq<Entry>) returns (keys: seq<nat>)
    ensures NoDuplicates(keys) && Covers(keys, a) && Covers(keys, b)
  {
    var all := (set e | e in a :: e.key) + (set e | e in b :: e.key);
    keys := Listing(all);
    forall i | 0 <= i < |a| ensures a[i].key in keys {
      assert a[i] in a;
      assert a[i].key in all;
    }
    forall i | 0 <= i < |b| ensures b[i].key in keys {
      assert b[i] in b;
      assert b[i].key in all;
    }
  }
}
