/**
 * The pending list of 1-based atom indices from the InChI u-layer.
 * Duplicates are meaningful: each occurrence stands for one unpaired electron.
 */
module PendingIndices {

  /** Position of the first occurrence of v in u. */
  function FirstIndex(u: seq<int>, v: int): (k: nat)
    requires v in u
    ensures k < |u| && u[k] == v && v !in u[..k]
  {
    if u[0] == v then 0 else 1 + FirstIndex(u[1..], v)
  }

  /** Python's `u.remove(v)`: deletes the first occurrence of v (the source
      raises when v is absent, so callers show that v is present). */
  function RemoveFirst(u: seq<int>, v: int): seq<int>
    requires v in u
  {
    if u[0] == v then u[1..] else [u[0]] + RemoveFirst(u[1..], v)
  }

  /** u.remove(v) is u with the position of the first v cut out. */
  lemma {:induction false} RemoveFirstSplit(u: seq<int>, v: int)
    requires v in u
    ensures RemoveFirst(u, v) == u[..FirstIndex(u, v)] + u[FirstIndex(u, v) + 1..]
  {
    if u[0] != v {
      var t := u[1..];
      var k := FirstIndex(t, v);
      RemoveFirstSplit(t, v);
      assert FirstIndex(u, v) == k + 1;
      assert u[..k + 1] == [u[0]] + t[..k];
      assert u[k + 2..] == t[k + 1..];
    }
  }

  /** One occurrence of v fewer, every other value kept. */
  lemma RemoveFirstCount(u: seq<int>, v: int)
    requires v in u
    ensures |RemoveFirst(u, v)| == |u| - 1
    ensures multiset(RemoveFirst(u, v)) == multiset(u) - multiset{v}
  {
    RemoveFirstSplit(u, v);
    var k := FirstIndex(u, v);
    var a, b := u[..k], u[k + 1..];
    assert u == a + [v] + b;
    calc {
      multiset(u);
      multiset(a + [v] + b);
      multiset(a) + multiset{v} + multiset(b);
    }
    assert multiset(RemoveFirst(u, v)) == multiset(a) + multiset(b);
  }

  /** Number of occurrences of v in u. */
  function Count(u: seq<int>, v: int): nat
  {
    if u == [] then 0 else (if u[0] == v then 1 else 0) + Count(u[1..], v)
  }

  lemma {:induction false} CountPositive(u: seq<int>, v: int)
    ensures v in u <==> Count(u, v) > 0
  {
    if u != [] {
      CountPositive(u[1..], v);
      assert u == [u[0]] + u[1..];
    }
  }

  /** `u.remove(v)` takes exactly one v away and no other value. */
  lemma {:induction false} CountRemoveFirst(u: seq<int>, v: int, w: int)
    requires v in u
    ensures Count(RemoveFirst(u, v), w) == Count(u, w) - (if w == v then 1 else 0)
  {
    if u[0] != v {
      CountRemoveFirst(u[1..], v, w);
      assert RemoveFirst(u, v)[1..] == RemoveFirst(u[1..], v);
    }
  }

  predicate InRange(u: seq<int>, n: nat)
  {
    forall k | 0 <= k < |u| :: 0 <= u[k] < n
  }

  /** Every value of u is a 1-based index of one of n atoms. */
  predicate OneBased(u: seq<int>, n: nat)
  {
    forall k | 0 <= k < |u| :: 1 <= u[k] <= n
  }

  /** Whatever `u.remove(v)` keeps was in u. */
  lemma RemoveFirstKeeps(u: seq<int>, v: int)
    requires v in u
    ensures forall x | x in RemoveFirst(u, v) :: x in u
  {
    RemoveFirstSplit(u, v);
    var k := FirstIndex(u, v);
    assert u == u[..k] + [v] + u[k + 1..];
  }

  lemma OneBasedRemoveFirst(u: seq<int>, v: int, n: nat)
    requires v in u && OneBased(u, n)
    ensures OneBased(RemoveFirst(u, v), n)
  {
    RemoveFirstKeeps(u, v);
    var r := RemoveFirst(u, v);
    forall k | 0 <= k < |r| ensures 1 <= r[k] <= n {
      assert r[k] in r;
    }
  }

  /** Two positions holding the same value count it twice. */
  lemma {:induction false} CountTwice(u: seq<int>, p: nat, q: nat)
    requires p < q < |u| && u[p] == u[q]
    ensures Count(u, u[p]) >= 2
  {
    if p == 0 {
      assert u[1..][q - 1] == u[q];
      CountPositive(u[1..], u[q]);
    } else {
      assert u[1..][p - 1] == u[p] && u[1..][q - 1] == u[q];
      CountTwice(u[1..], p - 1, q - 1);
    }
  }

  /** The pair at positions p < q can be removed one value after the other,
      as `u.remove(u1); u.remove(u2)` does. */
  lemma SecondOccurrence(u: seq<int>, p: nat, q: nat)
    requires p < q < |u|
    ensures u[q] in RemoveFirst(u, u[p])
  {
    CountPositive(u, u[q]);
    if u[p] == u[q] {
      CountTwice(u, p, q);
    }
    CountRemoveFirst(u, u[p], u[q]);
    CountPositive(RemoveFirst(u, u[p]), u[q]);
  }

  /** A list whose every value u holds at least as often: its head is in u,
      and its tail stays covered whether or not that head is removed from u. */
  lemma CoveredHead(todo: seq<int>, u: seq<int>)
    requires todo != [] && forall v :: Count(todo, v) <= Count(u, v)
    ensures todo[0] in u
    ensures forall v :: Count(todo[1..], v) <= Count(RemoveFirst(u, todo[0]), v)
    ensures forall v :: Count(todo[1..], v) <= Count(u, v)
  {
    assert Count(todo, todo[0]) > 0;
    CountPositive(u, todo[0]);
    forall v ensures Count(todo[1..], v) <= Count(RemoveFirst(u, todo[0]), v) {
      CountRemoveFirst(u, todo[0], v);
    }
  }

  /** u with the first need[v] occurrences of every value v deleted. */
  function Skip(u: seq<int>, need: seq<nat>): (r: seq<int>)
    requires InRange(u, |need|)
  {
    if u == [] then []
    else if need[u[0]] > 0 then Skip(u[1..], need[u[0] := need[u[0]] - 1])
    else [u[0]] + Skip(u[1..], need)
  }

  /** Removing one more v from a Skip result is the Skip that deletes one more
      v; when u holds no more v than already deleted, v is no longer there. */
  lemma {:induction false} SkipRemoveFirst(u: seq<int>, need: seq<nat>, v: int)
    requires InRange(u, |need|) && 0 <= v < |need|
    ensures Count(u, v) > need[v] ==>
      v in Skip(u, need) && RemoveFirst(Skip(u, need), v) == Skip(u, need[v := need[v] + 1])
    ensures Count(u, v) <= need[v] ==> v !in Skip(u, need)
  {
    if u != [] {
      var x, t := u[0], u[1..];
      var need2 := need[v := need[v] + 1];
      if need[x] > 0 {
        var need1 := need[x := need[x] - 1];
        assert Skip(u, need) == Skip(t, need1);
        SkipRemoveFirst(t, need1, v);
        assert need2[x] > 0;
        assert Skip(u, need2) == Skip(t, need2[x := need2[x] - 1]);
        assert need2[x := need2[x] - 1] == need1[v := need1[v] + 1];
      } else if x == v {
        assert Skip(u, need) == [x] + Skip(t, need);
        assert Skip(u, need2) == Skip(t, need2[x := need2[x] - 1]);
        assert need2[x := need2[x] - 1] == need;
      } else {
        assert Skip(u, need) == [x] + Skip(t, need);
        SkipRemoveFirst(t, need, v);
        assert Skip(u, need2) == [x] + Skip(t, need2);
      }
    }
  }

  /** With nothing to delete, Skip is the identity. */
  lemma {:induction false} SkipNothing(u: seq<int>, need: seq<nat>)
    requires InRange(u, |need|)
    requires forall v | 0 <= v < |need| :: need[v] == 0
    ensures Skip(u, need) == u
  {
    if u != [] {
      SkipNothing(u[1..], need);
    }
  }

  /** Skip deletes exactly need[v] occurrences of v, or all of them when u
      holds fewer. */
  lemma {:induction false} SkipCount(u: seq<int>, need: seq<nat>, v: int)
    requires InRange(u, |need|) && 0 <= v < |need|
    ensures Count(Skip(u, need), v) == if Count(u, v) > need[v] then Count(u, v) - need[v] else 0
  {
    if u != [] {
      var x, t := u[0], u[1..];
      if need[x] > 0 {
        SkipCount(t, need[x := need[x] - 1], v);
      } else {
        SkipCount(t, need, v);
        assert ([x] + Skip(t, need))[1..] == Skip(t, need);
      }
    }
  }

  /** A list that holds no value more often than a 1-based list is 1-based. */
  lemma CountedOneBased(u: seq<int>, u': seq<int>, n: nat)
    requires OneBased(u, n) && forall v :: Count(u', v) <= Count(u, v)
    ensures OneBased(u', n)
  {
    forall k | 0 <= k < |u'| ensures 1 <= u'[k] <= n {
      CountPositive(u', u'[k]);
      CountPositive(u, u'[k]);
      var j :| 0 <= j < |u| && u[j] == u'[k];
    }
  }

  /** Skip only deletes. */
  lemma {:induction false} SkipSub(u: seq<int>, need: seq<nat>, v: int)
    requires InRange(u, |need|)
    ensures Count(Skip(u, need), v) <= Count(u, v)
  {
    if u != [] {
      var x, t := u[0], u[1..];
      if need[x] > 0 {
        SkipSub(t, need[x := need[x] - 1], v);
      } else {
        SkipSub(t, need, v);
        assert ([x] + Skip(t, need))[1..] == Skip(t, need);
      }
    }
  }
}
