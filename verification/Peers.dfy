/** One pass of wg-sync: the tunnel interface's peers against the provisioned devices. */
module Peers {

  /** A row of the query: a device's public key and tunnel address. */
  datatype Row = Row(pub: string, ip: string)

  /** The script's associative array: rows with an empty column are skipped, a repeated key
      keeps its last address. */
  function Want(rows: seq<Row>): map<string, string> {
    if rows == [] then map[]
    else
      var front, last := Want(rows[..|rows| - 1]), rows[|rows| - 1];
      if last.pub == "" || last.ip == "" then front else front[last.pub := last.ip]
  }

  /** Row i has this key and address, and no later row has the key with an address. */
  predicate LastAt(rows: seq<Row>, i: nat, pub: string, ip: string) {
    && i < |rows| && rows[i] == Row(pub, ip)
    && forall j :: i < j < |rows| ==> rows[j].pub != pub || rows[j].ip == ""
  }

  /** The query's last complete row with this key has this address. */
  predicate LastRow(rows: seq<Row>, pub: string, ip: string) {
    pub != "" && ip != "" && exists i :: 0 <= i < |rows| && LastAt(rows, i, pub, ip)
  }

  lemma LastRowStep(rows: seq<Row>, last: Row, pub: string, ip: string)
    ensures LastRow(rows + [last], pub, ip) <==>
              if last.pub == pub && last.ip != "" then last.ip == ip && pub != "" else LastRow(rows, pub, ip)
  {
    var all, n := rows + [last], |rows|;
    assert all[n] == last && forall j :: 0 <= j < n ==> all[j] == rows[j];
    assert forall i :: 0 <= i < n && !(last.pub == pub && last.ip != "") ==>
        (LastAt(all, i, pub, ip) <==> LastAt(rows, i, pub, ip));
    assert last == Row(pub, ip) ==> LastAt(all, n, pub, ip);
    if LastRow(all, pub, ip) {
      var i :| 0 <= i < |all| && LastAt(all, i, pub, ip);
      assert i < n ==> all[n] == last;
    }
  }

  lemma {:induction false} WantIsLast(rows: seq<Row>, pub: string, ip: string)
    ensures pub in Want(rows) && Want(rows)[pub] == ip <==> LastRow(rows, pub, ip)
  {
    if rows != [] {
      var n := |rows| - 1;
      assert rows == rows[..n] + [rows[n]];
      WantIsLast(rows[..n], pub, ip);
      LastRowStep(rows[..n], rows[n], pub, ip);
    }
  }

  predicate Injective(want: map<string, string>) {
    forall p, q :: p in want && q in want && p != q ==> want[p] != want[q]
  }

  /** Every wanted peer with its one address and no other peer. */
  function Exact(want: map<string, string>): map<string, set<string>> {
    map p | p in want :: {want[p]}
  }

  /** wg set peer allowed-ips: the peer is added if missing and gets this one address, which
      every other peer loses. */
  function SetPeer(peers: map<string, set<string>>, pub: string, ip: string): map<string, set<string>> {
    map p | p in peers.Keys + {pub} :: if p == pub then {ip} else peers[p] - {ip}
  }

  lemma {:induction false} WantEntries(rows: seq<Row>, pub: string) returns (i: nat)
    requires pub in Want(rows)
    ensures i < |rows| && rows[i] == Row(pub, Want(rows)[pub]) && pub != "" && Want(rows)[pub] != ""
  {
    var last := rows[|rows| - 1];
    if last.pub == pub && last.ip != "" && pub != "" {
      i := |rows| - 1;
    } else {
      i := WantEntries(rows[..|rows| - 1], pub);
    }
  }

  /** wg_ip is unique among devices, so the wanted addresses are pairwise distinct. */
  lemma WantInjective(rows: seq<Row>)
    requires forall i, j :: 0 <= i < j < |rows| ==> rows[i].ip != rows[j].ip
    ensures Injective(Want(rows))
  {
    forall p, q | p in Want(rows) && q in Want(rows) && p != q ensures Want(rows)[p] != Want(rows)[q] {
      var i := WantEntries(rows, p);
      var j := WantEntries(rows, q);
    }
  }

  /** With distinct keys no row is lost: the wanted peers are the complete rows. */
  lemma {:induction false} WantComplete(rows: seq<Row>, i: nat)
    requires forall i, j :: 0 <= i < j < |rows| ==> rows[i].pub != rows[j].pub
    requires i < |rows| && rows[i].pub != "" && rows[i].ip != ""
    ensures rows[i].pub in Want(rows) && Want(rows)[rows[i].pub] == rows[i].ip
  {
    if i < |rows| - 1 {
      WantComplete(rows[..|rows| - 1], i);
    }
  }

  /** A pass leaves no peer at all if and only if the query yields no complete row; a query that
      fails yields no row. */
  lemma {:induction false} NothingWantedIff(rows: seq<Row>)
    ensures Want(rows) == map[] <==> forall i :: 0 <= i < |rows| ==> rows[i].pub == "" || rows[i].ip == ""
    ensures Want([]) == map[] && Exact(Want([])) == map[] && Injective(Want([]))
  {
    if rows != [] {
      NothingWantedIff(rows[..|rows| - 1]);
      var last := rows[|rows| - 1];
      if last.pub != "" && last.ip != "" {
        assert last.pub in Want(rows);
      }
    }
  }

  /** At most one peer holds the address. */
  predicate HeldOnce(peers: map<string, set<string>>, ip: string) {
    forall p, q :: p in peers && q in peers && ip in peers[p] && ip in peers[q] ==> p == q
  }

  /** On peers that are already right every command of a later pass changes nothing. */
  lemma ExactIsStable(want: map<string, string>, pub: string)
    requires Injective(want) && pub in want
    ensures SetPeer(Exact(want), pub, want[pub]) == Exact(want)
  {
    var peers, peers' := Exact(want), SetPeer(Exact(want), pub, want[pub]);
    assert peers'.Keys == peers.Keys;
    forall p | p in peers ensures peers'[p] == peers[p] {
      assert p != pub ==> want[p] != want[pub];
    }
  }

  lemma SharedAddressNotExact(want: map<string, string>)
    requires !Injective(want)
    ensures !(forall p :: p in want ==> HeldOnce(Exact(want), want[p]))
  {
    var p, q :| p in want && q in want && p != q && want[p] == want[q];
    var peers := Exact(want);
    assert p in peers && q in peers && want[p] in peers[p] && want[p] in peers[q];
  }

  /** Where the second loop stands: `left` is still to be set. */
  predicate Placed(peers: map<string, set<string>>, want: map<string, string>, left: set<string>) {
    forall p :: p in want && p !in left ==> p in peers && peers[p] == {want[p]}
  }

  predicate Unshared(peers: map<string, set<string>>, want: map<string, string>, left: set<string>) {
    forall p :: p in want && p !in left ==> HeldOnce(peers, want[p])
  }

  lemma SetPeerPlaces(peers: map<string, set<string>>, want: map<string, string>, left: set<string>, pub: string)
    requires Placed(peers, want, left) && Injective(want) && pub in want
    ensures Placed(SetPeer(peers, pub, want[pub]), want, left - {pub})
  {
    var peers' := SetPeer(peers, pub, want[pub]);
    forall p | p in want && p !in left - {pub} ensures p in peers' && peers'[p] == {want[p]} {
      assert p != pub ==> want[p] != want[pub];
    }
  }

  class Interface {
    var peers: map<string, set<string>>

    method Remove(pub: string)
      modifies this
      ensures peers == old(peers) - {pub}
    {
      peers := peers - {pub};
    }

    method Allow(pub: string, ip: string)
      modifies this
      ensures peers == SetPeer(old(peers), pub, ip)
      ensures peers.Keys == old(peers).Keys + {pub} && peers[pub] == {ip}
      ensures forall p :: p in old(peers) && p != pub ==> peers[p] == old(peers)[p] - {ip}
    {
      peers := map p | p in peers.Keys + {pub} :: if p == pub then {ip} else peers[p] - {ip};
    }

    method BuildWant(rows: seq<Row>) returns (want: map<string, string>)
      ensures want == Want(rows)
      ensures forall pub, ip :: pub in want && want[pub] == ip <==> LastRow(rows, pub, ip)
    {
      want := map[];
      var i := 0;
      while i < |rows|
        invariant 0 <= i <= |rows|
        invariant want == Want(rows[..i])
      {
        assert rows[..i + 1][..i] == rows[..i];
        if rows[i].pub != "" && rows[i].ip != "" {
          want := want[rows[i].pub := rows[i].ip];
        }
        i := i + 1;
      }
      assert rows[..|rows|] == rows;
      forall pub, ip ensures pub in want && want[pub] == ip <==> LastRow(rows, pub, ip) {
        WantIsLast(rows, pub, ip);
      }
    }

    /** The removal loop over a listing of the interface's peers. */
    method RemoveStale(want: map<string, string>)
      requires "" !in peers
      modifies this
      ensures peers == map p | p in old(peers) && p in want :: old(peers)[p]
    {
      var left := peers.Keys;
      while left != {}
        invariant left <= old(peers).Keys
        invariant peers == map p | p in old(peers) && (p in want || p in left) :: old(peers)[p]
        decreases |left|
      {
        var pub :| pub in left;
        left := left - {pub};
        if pub != "" && pub !in want {
          Remove(pub);
        }
      }
    }

    /** The second loop, over the wanted keys in whatever order the shell yields them. */
    method AddWanted(want: map<string, string>)
      requires peers.Keys <= want.Keys
      modifies this
      ensures peers.Keys == want.Keys
      ensures Injective(want) ==> Placed(peers, want, {})
      ensures Unshared(peers, want, {})
    {
      var left := want.Keys;
      while left != {}
        invariant left <= want.Keys
        invariant peers.Keys <= want.Keys && want.Keys - left <= peers.Keys
        invariant Injective(want) ==> Placed(peers, want, left)
        invariant Unshared(peers, want, left)
        decreases |left|
      {
        var pub :| pub in left;
        if Injective(want) {
          SetPeerPlaces(peers, want, left, pub);
        }
        left := left - {pub};
        Allow(pub, want[pub]);
      }
    }

    /** One pass, from any peers at all: exactly the wanted peers are left, with exactly their
        addresses if and only if no two devices share one. */
    method Sync(rows: seq<Row>)
      requires "" !in peers
      modifies this
      ensures peers.Keys == Want(rows).Keys
      ensures peers == Exact(Want(rows)) <==> Injective(Want(rows))
      ensures forall pub, ip :: LastRow(rows, pub, ip) ==>
                pub in peers && (Injective(Want(rows)) ==> peers[pub] == {ip})
      ensures forall pub :: pub in peers ==> exists ip :: LastRow(rows, pub, ip)
    {
      var want := BuildWant(rows);
      assert forall pub :: pub in want ==> LastRow(rows, pub, want[pub]);
      RemoveStale(want);
      AddWanted(want);
      if !Injective(want) {
        SharedAddressNotExact(want);
      }
    }

    /** The pass after a failed query, which reads as an empty table: every router loses its tunnel. */
    method SyncAfterFailedQuery()
      requires "" !in peers
      modifies this
      ensures peers == map[]
    {
      NothingWantedIff([]);
      Sync([]);
    }
  }
}
