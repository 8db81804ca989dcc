/** Facts about the ready queue and about ids listed in increasing order. */
module Queues {

  ghost predicate NoDuplicates(q: seq<nat>) {
    forall i, j :: 0 <= i < j < |q| ==> q[i] != q[j]
  }

  /** `q` without any copy of `t`, order kept. */
  function Without(q: seq<nat>, t: nat): (r: seq<nat>)
    ensures forall x :: x in r <==> x in q && x != t
    ensures |r| <= |q|
    ensures t !in q ==> r == q
  {
    if q == [] then []
    else if q[0] == t then Without(q[1..], t)
    else [q[0]] + Without(q[1..], t)
  }

  lemma {:induction false} WithoutNewcomer(p: seq<nat>, t: nat)
    requires t !in p
    ensures Without(p + [t], t) == p
  {
    if p == [] {
      assert [t][1..] == [];
    } else {
      assert (p + [t])[0] == p[0] && (p + [t])[1..] == p[1..] + [t];
      WithoutNewcomer(p[1..], t);
    }
  }

  lemma {:induction false} WithoutKeepsNoDuplicates(q: seq<nat>, t: nat)
    requires NoDuplicates(q)
    ensures NoDuplicates(Without(q, t))
  {
    if q != [] {
      assert NoDuplicates(q[1..]);
      WithoutKeepsNoDuplicates(q[1..], t);
      assert q[0] !in q[1..];
    }
  }

  lemma AppendKeepsNoDuplicates(p: seq<nat>, q: seq<nat>)
    requires NoDuplicates(p) && NoDuplicates(q)
    requires forall x :: x in p ==> x !in q
    ensures NoDuplicates(p + q)
  {
    forall i, j | 0 <= i < j < |p + q|
      ensures (p + q)[i] != (p + q)[j]
    {
      if i < |p| && |p| <= j {
        assert p[i] in p && q[j - |p|] in q;
      }
    }
  }

  /** An element keeps its place or moves up when another id is taken out. */
  lemma {:induction false} WithoutMovesUp(q: seq<nat>, t: nat, k: nat)
    returns (k': nat)
    requires k < |q| && q[k] != t
    ensures k' <= k && k' < |Without(q, t)| && Without(q, t)[k'] == q[k]
    ensures forall x :: x in Without(q, t)[..k'] ==> x in q[..k]
    ensures t !in q[..k] ==> k' == k
  {
    if k == 0 {
      k' := 0;
    } else {
      var k'' := WithoutMovesUp(q[1..], t, k - 1);
      k' := if q[0] == t then k'' else k'' + 1;
      assert q[..k] == [q[0]] + q[1..][..k - 1];
      var w := Without(q[1..], t);
      if q[0] != t {
        assert Without(q, t)[..k'] == [q[0]] + w[..k''];
      }
    }
  }

  // ---------------------------------------------------------------- erasing while indexing

  /**
   * What a left-to-right scan does that erases at index i and then still
   * advances i: the element that slides into the gap is never examined.
   */
  function EraseSkipping(q: seq<nat>, t: nat): seq<nat> {
    if q == [] then []
    else if q[0] != t then [q[0]] + EraseSkipping(q[1..], t)
    else if |q| == 1 then []
    else [q[1]] + EraseSkipping(q[2..], t)
  }

  ghost predicate AdjacentCopies(q: seq<nat>, t: nat) {
    exists i :: 0 <= i < |q| - 1 && q[i] == t && q[i + 1] == t
  }

  /** The scan removes every copy of `t` exactly when no two copies are adjacent. */
  lemma {:induction false} EraseSkippingIffNotAdjacent(q: seq<nat>, t: nat)
    ensures EraseSkipping(q, t) == Without(q, t) <==> !AdjacentCopies(q, t)
  {
    if |q| <= 1 {
    } else if q[0] != t {
      EraseSkippingIffNotAdjacent(q[1..], t);
      AdjacentInTail(q, 1, t);
      assert EraseSkipping(q, t)[1..] == EraseSkipping(q[1..], t);
      assert Without(q, t)[1..] == Without(q[1..], t);
    } else if q[1] == t {
      assert q[0] == t && q[0 + 1] == t;
      assert t in EraseSkipping(q, t);
    } else {
      EraseSkippingIffNotAdjacent(q[2..], t);
      AdjacentInTail(q, 2, t);
      assert q[1..][1..] == q[2..];
      assert EraseSkipping(q, t)[1..] == EraseSkipping(q[2..], t);
      assert Without(q, t) == [q[1]] + Without(q[2..], t);
    }
  }

  lemma AdjacentInTail(q: seq<nat>, d: nat, t: nat)
    requires 1 <= d <= 2 && d <= |q|
    requires d == 1 ==> q[0] != t
    requires d == 2 ==> q[1] != t
    ensures AdjacentCopies(q, t) <==> AdjacentCopies(q[d..], t)
  {
  }

  // ---------------------------------------------------------------- increasing order

  ghost predicate StrictlyIncreasing(q: seq<nat>) {
    forall i, j :: 0 <= i < j < |q| ==> q[i] < q[j]
  }

  lemma AppendKeepsIncreasing(q: seq<nat>, x: nat)
    requires StrictlyIncreasing(q) && forall t :: t in q ==> t < x
    ensures StrictlyIncreasing(q + [x])
  {
    assert forall i :: 0 <= i < |q| ==> q[i] in q;
  }

  lemma {:induction false} LeastExists(s: set<nat>) returns (m: nat)
    requires s != {}
    ensures m in s && forall x :: x in s ==> m <= x
  {
    var y :| y in s;
    if s == {y} {
      m := y;
    } else {
      var rest := s - {y};
      m := LeastExists(rest);
      assert forall x :: x in s ==> x == y || x in rest;
      m := if y < m then y else m;
    }
  }

  ghost function Least(s: set<nat>): (m: nat)
    requires s != {}
    ensures m in s && forall x :: x in s ==> m <= x
  {
    assert exists m :: m in s && forall x :: x in s ==> m <= x by {
      var m := LeastExists(s);
    }
    var m :| m in s && forall x :: x in s ==> m <= x;
    m
  }

  /** The elements of `s`, smallest first: the order in which `std::map` visits its keys. */
  ghost function Ascending(s: set<nat>): (r: seq<nat>)
    ensures StrictlyIncreasing(r)
    ensures forall x :: x in r <==> x in s
    ensures |r| == |s|
  {
    if s == {} then []
    else
      var m := Least(s);
      [m] + Ascending(s - {m})
  }

  lemma AscendingStartsWithLeast(s: set<nat>)
    requires s != {}
    ensures Ascending(s) == [Least(s)] + Ascending(s - {Least(s)})
  {
  }

  lemma AscendingIsUnique(p: seq<nat>, s: set<nat>)
    requires StrictlyIncreasing(p)
    requires forall x :: x in p <==> x in s
    ensures p == Ascending(s)
  {
    var r := Ascending(s);
    SameElementsSameOrder(p, r);
  }

  lemma NonEmptyHasMember(q: seq<nat>)
    ensures q != [] <==> exists x :: x in q
  {
    if q != [] {
      assert q[0] in q;
    }
  }

  lemma {:induction false} SameElementsSameOrder(p: seq<nat>, r: seq<nat>)
    requires StrictlyIncreasing(p) && StrictlyIncreasing(r)
    requires forall x :: x in p <==> x in r
    ensures p == r
  {
    NonEmptyHasMember(p);
    NonEmptyHasMember(r);
    if p != [] {
      assert p[0] in r;
      assert r[0] in p;
      assert p[0] == r[0];
      forall x
        ensures x in p[1..] <==> x in r[1..]
      {
        assert x in p[1..] <==> x in p && x != p[0];
        assert x in r[1..] <==> x in r && x != r[0];
      }
      SameElementsSameOrder(p[1..], r[1..]);
    }
  }

  /** Ids below a bound: as many of them as the bound only if none is missing. */
  lemma {:induction false} Pigeonhole(s: set<nat>, n: nat)
    requires forall x :: x in s ==> x < n
    ensures |s| <= n
    ensures |s| == n <==> forall x :: 0 <= x < n ==> x in s
  {
    if n == 0 {
      assert s == {} by { assert forall x :: x !in s; }
    } else {
      var rest := s - {n - 1};
      Pigeonhole(rest, n - 1);
      if n - 1 in s {
        assert |s| == |rest| + 1;
        assert forall x :: 0 <= x < n - 1 ==> (x in s <==> x in rest);
      } else {
        assert s == rest;
      }
    }
  }

  lemma {:induction false} NoDuplicatesLength(q: seq<nat>, s: set<nat>)
    requires NoDuplicates(q)
    requires forall x :: x in q ==> x in s
    ensures |q| <= |s|
  {
    if q != [] {
      assert q[0] in s;
      forall x | x in q[1..]
        ensures x in s - {q[0]}
      {
        assert x in q;
      }
      NoDuplicatesLength(q[1..], s - {q[0]});
    }
  }
}
