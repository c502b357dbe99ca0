/** Majority arithmetic shared by every primitive: quorum size, quorum intersection,
    vote counting and the double count of (node, member) pairs. */
module Quorum {

  /** `Math.floor(clients.length / 2) + 1` */
  function Size(n: nat): (q: nat)
    ensures q <= n || n == 0
    ensures 2 * (q - 1) <= n < 2 * q
  {
    n / 2 + 1
  }

  /** The indexes of an n-node deployment. */
  function Nodes(n: nat): (s: set<int>)
    ensures forall j :: j in s <==> 0 <= j < n
    ensures |s| == n
  {
    if n == 0 then {} else Nodes(n - 1) + {n - 1}
  }

  lemma SubsetSize<T>(a: set<T>, b: set<T>)
    requires a <= b
    ensures |a| <= |b|
  {
    assert b == a + (b - a);
  }

  /** Any two quorums of the same deployment have a node in common. */
  lemma Intersect(n: nat, a: set<int>, b: set<int>) returns (j: int)
    requires a <= Nodes(n) && b <= Nodes(n)
    requires |a| >= Size(n) && |b| >= Size(n)
    ensures j in a && j in b
  {
    if a * b == {} {
      SubsetSize(a + b, Nodes(n));
    }
    j :| j in a * b;
  }

  /** `Promise.race`: any element may come first. */
  method AnyOf<T>(s: set<T>) returns (i: T)
    requires s != {}
    ensures i in s
  {
    i :| i in s;
  }

  lemma SameMembers<T>(a: set<T>, b: set<T>)
    requires forall x :: x in a <==> x in b
    ensures a == b
  {
  }

  lemma SameMap<T, U>(a: map<T, U>, b: map<T, U>)
    requires forall x :: x in a <==> x in b
    requires forall x :: x in a && x in b ==> a[x] == b[x]
    ensures a == b
  {
  }

  lemma SomeMember<T>(s: set<T>) returns (x: T)
    requires s != {}
    ensures x in s
  {
    x :| x in s;
  }

  /** `results.filter(Boolean).length` */
  function Count(votes: seq<bool>): (c: nat)
    ensures c <= |votes|
  {
    if votes == [] then 0
    else Count(votes[..|votes| - 1]) + if votes[|votes| - 1] then 1 else 0
  }

  /** The nodes that voted true. */
  function Voters(votes: seq<bool>): (s: set<int>)
    ensures forall j :: j in s <==> 0 <= j < |votes| && votes[j]
  {
    set j | 0 <= j < |votes| && votes[j]
  }

  lemma {:induction false} CountIsVoters(votes: seq<bool>)
    ensures Count(votes) == |Voters(votes)|
  {
    if votes == [] {
      assert Voters(votes) == {};
    } else {
      var k := |votes| - 1;
      var front := votes[..k];
      CountIsVoters(front);
      assert Voters(votes) == Voters(front) + (if votes[k] then {k} else {});
    }
  }

  // ---- Double counting --------------------------------------------------------------

  /** How many of the nodes hold x, where `held[j]` is the set that node j holds. */
  function Holders<T(==)>(held: seq<set<T>>, x: T): nat {
    if held == [] then 0
    else Holders(held[..|held| - 1], x) + if x in held[|held| - 1] then 1 else 0
  }

  /** How many (node, member) pairs there are in all. */
  function Pairs<T>(held: seq<set<T>>): nat {
    if held == [] then 0 else Pairs(held[..|held| - 1]) + |held[|held| - 1]|
  }

  function Without<T>(held: seq<set<T>>, x: T): (r: seq<set<T>>)
    ensures |r| == |held|
    ensures forall j :: 0 <= j < |held| ==> r[j] == held[j] - {x}
  {
    seq(|held|, j requires 0 <= j < |held| => held[j] - {x})
  }

  lemma {:induction false} WithoutPairs<T>(held: seq<set<T>>, x: T)
    ensures Pairs(held) == Pairs(Without(held, x)) + Holders(held, x)
  {
    if held != [] {
      var k := |held| - 1;
      WithoutPairs(held[..k], x);
      assert Without(held, x)[..k] == Without(held[..k], x);
      if x in held[k] {
        assert held[k] == (held[k] - {x}) + {x};
      } else {
        assert held[k] - {x} == held[k];
      }
    }
  }

  lemma {:induction false} WithoutHolders<T>(held: seq<set<T>>, x: T, y: T)
    requires x != y
    ensures Holders(Without(held, x), y) == Holders(held, y)
  {
    if held != [] {
      var k := |held| - 1;
      WithoutHolders(held[..k], x, y);
      assert Without(held, x)[..k] == Without(held[..k], x);
    }
  }

  lemma {:induction false} PairsBound<T>(held: seq<set<T>>, cap: nat)
    requires forall j :: 0 <= j < |held| ==> |held[j]| <= cap
    ensures Pairs(held) <= |held| * cap
  {
    if held != [] {
      PairsBound(held[..|held| - 1], cap);
    }
  }

  /** The same where each node's excess over another count is bounded. */
  lemma {:induction false} PairsExceed<T>(held: seq<set<T>>, base: seq<set<T>>, cap: nat)
    requires |held| == |base| && forall j :: 0 <= j < |held| ==> |held[j]| <= |base[j]| + cap
    ensures Pairs(held) <= Pairs(base) + |held| * cap
  {
    if held != [] {
      PairsExceed(held[..|held| - 1], base[..|held| - 1], cap);
    }
  }

  /** Members held by at least q nodes each use up at least q pairs each. */
  lemma {:induction false} DoubleCount<T>(held: seq<set<T>>, members: set<T>, q: nat)
    requires forall x :: x in members ==> Holders(held, x) >= q
    ensures |members| * q <= Pairs(held)
    decreases |members|
  {
    if members != {} {
      var x :| x in members;
      var rest := members - {x};
      forall y | y in rest ensures Holders(Without(held, x), y) >= q {
        WithoutHolders(held, x, y);
      }
      DoubleCount(Without(held, x), rest, q);
      WithoutPairs(held, x);
      assert (|rest| + 1) * q == |rest| * q + q;
    }
  }

  /** A member held at every node of `nodes` has at least that many holders. */
  lemma {:induction false} HoldersAtLeast<T>(held: seq<set<T>>, x: T, nodes: set<int>)
    requires forall j :: j in nodes ==> 0 <= j < |held| && x in held[j]
    ensures Holders(held, x) >= |nodes|
  {
    if held == [] {
      assert forall j :: j !in nodes;
    } else {
      var k := |held| - 1;
      HoldersAtLeast(held[..k], x, nodes - {k});
    }
  }
}
