/**
 Partition assignment: both strategies, over the sorted distinct members and
 partitions.
 */
module Assignor {

  import Bytes

  datatype TopicPartition = TopicPartition(topic: string, partition: int)

  // ------------------------------------------------------------------ ordering

  // std::string comparison.
  predicate StringLess(a: string, b: string) {
    b != [] && (a == [] || a[0] < b[0] || (a[0] == b[0] && StringLess(a[1..], b[1..])))
  }

  predicate PartitionLess(a: TopicPartition, b: TopicPartition) {
    if a.topic != b.topic then StringLess(a.topic, b.topic) else a.partition < b.partition
  }

  ghost predicate TotalOrder<T(!new)>(less: (T, T) -> bool) {
    && (forall x :: !less(x, x))
    && (forall x, y, z :: less(x, y) && less(y, z) ==> less(x, z))
    && (forall x, y :: x == y || less(x, y) || less(y, x))
  }

  lemma {:induction false} StringTrans(a: string, b: string, c: string)
    requires StringLess(a, b) && StringLess(b, c)
    ensures StringLess(a, c)
    decreases |b|
  {
    if a != [] && a[0] == b[0] == c[0] {
      StringTrans(a[1..], b[1..], c[1..]);
    }
  }

  lemma {:induction false} StringTotal(a: string, b: string)
    ensures !StringLess(a, a) && (a == b || StringLess(a, b) || StringLess(b, a))
    decreases |a|
  {
    if a != [] {
      if b != [] && a[0] == b[0] {
        StringTotal(a[1..], b[1..]);
        assert a == [a[0]] + a[1..] && b == [b[0]] + b[1..];
      } else {
        StringTotal(a[1..], []);
      }
    }
  }

  // a and b agree up to place n, where a ends or has the smaller character.
  predicate FirstDifference(a: string, b: string, n: nat) {
    n <= |a| && n < |b| && a[..n] == b[..n] && (n == |a| || a[n] < b[n])
  }

  /** Lexicographic order: the first place where the strings differ decides. */
  lemma {:induction false} StringLessMeans(a: string, b: string)
    ensures StringLess(a, b) <==> exists n :: FirstDifference(a, b, n)
    decreases |a|
  {
    if a == [] || b == [] {
      assert b != [] ==> FirstDifference(a, b, 0);
    } else if a[0] != b[0] {
      assert FirstDifference(a, b, 0) <==> a[0] < b[0];
      forall n: nat ensures n > 0 ==> !FirstDifference(a, b, n) {
        if 0 < n <= |a| && n < |b| {
          assert a[..n][0] == a[0] && b[..n][0] == b[0];
        }
      }
    } else {
      StringLessMeans(a[1..], b[1..]);
      forall n: nat
        ensures FirstDifference(a[1..], b[1..], n) <==> FirstDifference(a, b, n + 1)
      {
        NextDifference(a, b, n);
      }
      if StringLess(a, b) {
        var n: nat :| FirstDifference(a[1..], b[1..], n);
        assert FirstDifference(a, b, n + 1);
      } else if n: nat :| FirstDifference(a, b, n) {
        assert n > 0 && FirstDifference(a[1..], b[1..], n - 1);
      }
    }
  }

  lemma NextDifference(a: string, b: string, n: nat)
    requires a != [] && b != [] && a[0] == b[0]
    ensures FirstDifference(a[1..], b[1..], n) <==> FirstDifference(a, b, n + 1)
  {
    if n < |a| && n < |b| {
      assert a[..n + 1] == [a[0]] + a[1..][..n] && b[..n + 1] == [b[0]] + b[1..][..n];
      assert a[..n + 1][1..] == a[1..][..n] && b[..n + 1][1..] == b[1..][..n];
    }
  }

  lemma StringOrder()
    ensures TotalOrder(StringLess)
  {
    forall a: string, b: string, c: string | StringLess(a, b) && StringLess(b, c)
      ensures StringLess(a, c)
    {
      StringTrans(a, b, c);
    }
    forall a: string, b: string
      ensures !StringLess(a, a) && (a == b || StringLess(a, b) || StringLess(b, a))
    {
      StringTotal(a, b);
    }
  }

  lemma PartitionOrder()
    ensures TotalOrder(PartitionLess)
  {
    StringOrder();
    hide StringLess;
    forall a: TopicPartition, b: TopicPartition
      ensures a == b || PartitionLess(a, b) || PartitionLess(b, a)
    {
      assert a.topic == b.topic || StringLess(a.topic, b.topic) || StringLess(b.topic, a.topic);
    }
  }

  // -------------------------------------------------------- sort and deduplicate

  ghost predicate StrictlySorted<T>(s: seq<T>, less: (T, T) -> bool) {
    forall i, j :: 0 <= i < j < |s| ==> less(s[i], s[j])
  }

  ghost predicate SameElements<T(!new)>(s: seq<T>, t: seq<T>) {
    forall x :: x in s <==> x in t
  }

  /** std::sort then std::unique. */
  method SortUnique<T(==, !new)>(xs: seq<T>, less: (T, T) -> bool) returns (ys: seq<T>)
    requires TotalOrder(less)
    ensures StrictlySorted(ys, less) && SameElements(ys, xs)
  {
    ys := [];
    var i := 0;
    while i < |xs|
      invariant i <= |xs| && StrictlySorted(ys, less) && SameElements(ys, xs[..i])
    {
      ys := Insert(ys, xs[i], less);
      assert xs[..i + 1] == xs[..i] + [xs[i]];
      i := i + 1;
    }
    assert xs[..i] == xs;
  }

  /** Sorted partitions: topics in order, and ascending numbers inside a topic. */
  lemma SortedPartitions(ps: seq<TopicPartition>, i: nat, j: nat)
    requires StrictlySorted(ps, PartitionLess) && i < j < |ps|
    ensures ps[i].topic == ps[j].topic ==> ps[i].partition < ps[j].partition
    ensures ps[i].topic == ps[j].topic || exists n :: FirstDifference(ps[i].topic, ps[j].topic, n)
  {
    hide StringLess;
    assert PartitionLess(ps[i], ps[j]);
    StringLessMeans(ps[i].topic, ps[j].topic);
  }

  method Insert<T(==, !new)>(s: seq<T>, x: T, less: (T, T) -> bool) returns (t: seq<T>)
    requires TotalOrder(less) && StrictlySorted(s, less)
    ensures StrictlySorted(t, less) && SameElements(t, s + [x])
  {
    var k := 0;
    while k < |s| && less(s[k], x)
      invariant k <= |s| && forall i :: 0 <= i < k ==> less(s[i], x)
    {
      k := k + 1;
    }
    if k < |s| && s[k] == x {
      return s;
    }
    t := s[..k] + [x] + s[k..];
    forall i | k <= i < |s|
      ensures less(x, s[i])
    {
      if i > k {
        assert less(s[k], s[i]);
      }
    }
    assert s == s[..k] + s[k..];
  }

  lemma EmptyTogether<T(!new)>(a: seq<T>, b: seq<T>)
    ensures SameElements(a, b) && a == [] ==> b == []
  {
    if b != [] {
      assert b[0] in b;
    }
  }

  /** The sorted list is determined by the set: order and repetition of the input do not matter. */
  lemma {:induction false} SortedIsUnique<T(!new)>(a: seq<T>, b: seq<T>, less: (T, T) -> bool)
    requires TotalOrder(less) && StrictlySorted(a, less) && StrictlySorted(b, less) && SameElements(a, b)
    ensures a == b
  {
    EmptyTogether(a, b);
    EmptyTogether(b, a);
    if a != [] {
      assert a[0] in b;
      assert b[0] in a;
      assert a[0] == b[0];
      forall x
        ensures x in a[1..] <==> x in b[1..]
      {
        assert x in a <==> x in b;
        assert a[0] !in a[1..] && b[0] !in b[1..];
      }
      SortedIsUnique(a[1..], b[1..], less);
    }
  }

  // -------------------------------------------------------------------- shares

  type Shares = seq<seq<TopicPartition>>

  function All(shares: Shares): seq<TopicPartition> {
    if shares == [] then [] else All(shares[..|shares| - 1]) + shares[|shares| - 1]
  }

  /** Every partition handed out once: the shares together are a rearrangement of the list. */
  ghost predicate Deals(shares: Shares, ps: seq<TopicPartition>) {
    multiset(All(shares)) == multiset(ps)
  }

  lemma {:induction false} CountInAll(shares: Shares, m: nat, p: TopicPartition)
    requires m < |shares|
    ensures multiset(All(shares))[p] >= multiset(shares[m])[p]
    ensures forall k: nat :: k < |shares| && k != m ==>
      multiset(All(shares))[p] >= multiset(shares[m])[p] + multiset(shares[k])[p]
  {
    var n := |shares| - 1;
    var init := shares[..n];
    assert multiset(All(shares))[p] == multiset(All(init))[p] + multiset(shares[n])[p];
    if m < n {
      CountInAll(init, m, p);
      assert init[m] == shares[m];
      assert forall k: nat :: k < n ==> init[k] == shares[k];
    } else {
      forall k: nat | k < n
        ensures multiset(All(init))[p] >= multiset(shares[k])[p]
      {
        CountInAll(init, k, p);
      }
    }
  }

  lemma {:induction false} InSomeShare(shares: Shares, p: TopicPartition) returns (m: nat)
    requires p in All(shares)
    ensures m < |shares| && p in shares[m]
  {
    var n := |shares| - 1;
    if p in shares[n] {
      m := n;
    } else {
      m := InSomeShare(shares[..n], p);
    }
  }

  ghost predicate OnlyOwner(shares: Shares, m: nat, p: TopicPartition) {
    && m < |shares| && multiset(shares[m])[p] == 1
    && forall k: nat :: k < |shares| && k != m ==> p !in shares[k]
  }

  /** With distinct partitions, each is in exactly one share, once. */
  lemma ExactlyOneOwner(shares: Shares, ps: seq<TopicPartition>, p: TopicPartition)
    requires Deals(shares, ps) && StrictlySorted(ps, PartitionLess)
    ensures p in ps ==> exists m: nat :: OnlyOwner(shares, m, p)
    ensures p !in ps ==> forall k: nat :: k < |shares| ==> p !in shares[k]
  {
    PartitionOrder();
    if p in ps {
      AtMostOnce(ps, p);
      assert p in multiset(ps) && p in multiset(All(shares)) && p in All(shares);
      var m := InSomeShare(shares, p);
      CountInAll(shares, m, p);
      assert p in multiset(shares[m]);
      forall k: nat | k < |shares| && k != m
        ensures p !in shares[k]
      {
        assert multiset(shares[k])[p] == 0;
      }
      assert OnlyOwner(shares, m, p);
    } else {
      forall k: nat | k < |shares|
        ensures p !in shares[k]
      {
        assert p !in multiset(ps);
        CountInAll(shares, k, p);
        assert multiset(shares[k])[p] == 0;
      }
    }
  }

  lemma {:induction false} AtMostOnce(ps: seq<TopicPartition>, p: TopicPartition)
    requires TotalOrder(PartitionLess) && StrictlySorted(ps, PartitionLess)
    ensures multiset(ps)[p] <= 1
  {
    if ps != [] {
      var n := |ps| - 1;
      AtMostOnce(ps[..n], p);
      assert ps == ps[..n] + [ps[n]];
      if ps[n] == p {
        assert forall i :: 0 <= i < n ==> PartitionLess(ps[i], p);
        assert p !in ps[..n];
      }
    }
  }

  // --------------------------------------------------------------- round robin

  function Turn(i: nat, n: nat): (t: nat)
    requires n > 0
    ensures t < n
  {
    i % n
  }

  lemma NextTurn(i: nat, n: nat)
    requires n > 0
    ensures if Turn(i, n) == n - 1 then Turn(i + 1, n) == 0 && (i + 1) / n == i / n + 1
            else Turn(i + 1, n) == Turn(i, n) + 1 && (i + 1) / n == i / n
    ensures Turn(0, n) == 0 && 0 / n == 0
  {
    Bytes.DivModUnique(0, n, 0, 0);
    if i % n == n - 1 {
      Bytes.DivModUnique(i + 1, n, i / n + 1, 0);
    } else {
      Bytes.DivModUnique(i + 1, n, i / n, i % n + 1);
    }
  }

  /** Member m's share: every n-th partition, from the m-th. */
  function Strided(ps: seq<TopicPartition>, n: nat, m: nat): seq<TopicPartition>
    requires n > 0
  {
    if ps == [] then []
    else
      var i := |ps| - 1;
      Strided(ps[..i], n, m) + (if Turn(i, n) == m then [ps[i]] else [])
  }

  function StridedShares(ps: seq<TopicPartition>, n: nat): (shares: Shares)
    requires n > 0
    ensures |shares| == n && forall m :: 0 <= m < n ==> shares[m] == Strided(ps, n, m)
  {
    seq(n, m requires 0 <= m < n => Strided(ps, n, m))
  }

  lemma {:induction false} AllUpdate(shares: Shares, m: nat, p: TopicPartition)
    requires m < |shares|
    ensures multiset(All(shares[m := shares[m] + [p]])) == multiset(All(shares)) + multiset{p}
  {
    var n := |shares| - 1;
    var after := shares[m := shares[m] + [p]];
    if m < n {
      AllUpdate(shares[..n], m, p);
      assert after[..n] == shares[..n][m := shares[..n][m] + [p]];
    } else {
      assert after[..n] == shares[..n];
    }
  }

  lemma {:induction false} AllEmpty(shares: Shares)
    requires forall m :: 0 <= m < |shares| ==> shares[m] == []
    ensures All(shares) == []
  {
    if shares != [] {
      AllEmpty(shares[..|shares| - 1]);
    }
  }

  lemma {:induction false} RoundRobinDeals(ps: seq<TopicPartition>, n: nat)
    requires n > 0
    ensures Deals(StridedShares(ps, n), ps)
  {
    hide Turn, All;
    if ps == [] {
      AllEmpty(StridedShares(ps, n));
    } else {
      var i := |ps| - 1;
      var before, t, p := StridedShares(ps[..i], n), Turn(i, n), ps[i];
      RoundRobinDeals(ps[..i], n);
      AllUpdate(before, t, p);
      var after := before[t := before[t] + [p]];
      forall m | 0 <= m < n
        ensures StridedShares(ps, n)[m] == after[m]
      {
        assert Strided(ps, n, m) == before[m] + if t == m then [p] else [];
      }
      assert StridedShares(ps, n) == after;
      assert ps == ps[..i] + [p];
    }
  }

  /** Totals differ by at most one: the first |ps| mod n members have one more. */
  lemma {:induction false} RoundRobinSizes(ps: seq<TopicPartition>, n: nat, m: nat)
    requires n > 0 && m < n
    ensures |Strided(ps, n, m)| == |ps| / n + (if m < Turn(|ps|, n) then 1 else 0)
  {
    hide Turn;
    if ps == [] {
      NextTurn(0, n);
    } else {
      var i := |ps| - 1;
      RoundRobinSizes(ps[..i], n, m);
      NextTurn(i, n);
    }
  }

  /** Member m's k-th partition is number m + k n of the sorted list. */
  lemma {:induction false} StridedMeans(ps: seq<TopicPartition>, n: nat, m: nat, k: nat)
    requires n > 0 && m < n && k < |Strided(ps, n, m)|
    ensures 0 <= m + k * n < |ps| && Strided(ps, n, m)[k] == ps[m + k * n]
  {
    var i := |ps| - 1;
    var before := Strided(ps[..i], n, m);
    if k < |before| {
      StridedMeans(ps[..i], n, m, k);
    } else {
      RoundRobinSizes(ps[..i], n, m);
      assert i % n == m && k == i / n;
      Recombined(i, n);
    }
  }

  lemma Recombined(i: nat, n: nat)
    requires n > 0
    ensures i % n + (i / n) * n == i
  {
  }

  // --------------------------------------------------------------------- range

  // How many partitions of a topic member m takes: the first count mod n one extra.
  function Take(count: nat, n: nat, m: nat): nat
    requires n > 0
  {
    count / n + (if m < Turn(count, n) then 1 else 0)
  }

  function BlockStart(count: nat, n: nat, m: nat): nat
    requires n > 0
  {
    if m == 0 then 0 else BlockStart(count, n, m - 1) + Take(count, n, m - 1)
  }

  lemma {:induction false} BlockStartClosed(count: nat, n: nat, m: nat)
    requires n > 0
    ensures BlockStart(count, n, m) == m * (count / n) + (if m < Turn(count, n) then m else Turn(count, n))
  {
    hide Turn;
    if m > 0 {
      BlockStartClosed(count, n, m - 1);
      assert m * (count / n) == (m - 1) * (count / n) + count / n;
    }
  }

  lemma BlocksCover(count: nat, n: nat)
    requires n > 0
    ensures BlockStart(count, n, n) == count
  {
    BlockStartClosed(count, n, n);
  }

  lemma {:induction false} BlockStartMonotone(count: nat, n: nat, i: nat, j: nat)
    requires n > 0 && i <= j
    ensures BlockStart(count, n, i) <= BlockStart(count, n, j)
    decreases j - i
  {
    hide Take;
    if i < j {
      BlockStartMonotone(count, n, i, j - 1);
    }
  }

  // The contiguous stretch of one topic that goes to member m.
  function Block(tp: seq<TopicPartition>, n: nat, m: nat): (b: seq<TopicPartition>)
    requires m < n
    ensures |b| == Take(|tp|, n, m)
  {
    BlocksCover(|tp|, n);
    BlockStartMonotone(|tp|, n, m + 1, n);
    tp[BlockStart(|tp|, n, m)..BlockStart(|tp|, n, m + 1)]
  }

  /** Member m's block: equal blocks in order, the first members taking one more as long as the remainder lasts. */
  lemma BlockMeans(tp: seq<TopicPartition>, n: nat, m: nat)
    requires m < n
    ensures var (each, extra) := (|tp| / n, |tp| % n);
      var from := m * each + (if m < extra then m else extra);
      var to := from + each + (if m < extra then 1 else 0);
      0 <= from <= to <= |tp| && Block(tp, n, m) == tp[from..to]
  {
    BlocksCover(|tp|, n);
    BlockStartMonotone(|tp|, n, m, n);
    BlockStartMonotone(|tp|, n, m + 1, n);
    BlockStartClosed(|tp|, n, m);
    BlockStartClosed(|tp|, n, m + 1);
    assert (m + 1) * (|tp| / n) == m * (|tp| / n) + |tp| / n;
  }

  // The length of the leading stretch of one topic.
  function TopicRun(ps: seq<TopicPartition>): (e: nat)
    ensures e <= |ps| && (ps != [] ==> e > 0)
    ensures forall i :: 0 <= i < e ==> ps[i].topic == ps[0].topic
    ensures e < |ps| ==> ps[e].topic != ps[0].topic
  {
    if ps == [] then 0
    else if |ps| == 1 || ps[1].topic != ps[0].topic then 1
    else 1 + TopicRun(ps[1..])
  }

  /** Member m's share: its block of every topic. */
  function RangeShare(ps: seq<TopicPartition>, n: nat, m: nat): seq<TopicPartition>
    requires m < n
  {
    if ps == [] then []
    else Block(ps[..TopicRun(ps)], n, m) + RangeShare(ps[TopicRun(ps)..], n, m)
  }

  function RangeShares(ps: seq<TopicPartition>, n: nat): (shares: Shares)
    ensures |shares| == n && forall m :: 0 <= m < n ==> shares[m] == RangeShare(ps, n, m)
  {
    seq(n, m requires 0 <= m < n => RangeShare(ps, n, m))
  }

  function Blocks(tp: seq<TopicPartition>, n: nat): (shares: Shares)
    ensures |shares| == n && forall m :: 0 <= m < n ==> shares[m] == Block(tp, n, m)
  {
    seq(n, m requires 0 <= m < n => Block(tp, n, m))
  }

  lemma {:induction false} BlocksAre(tp: seq<TopicPartition>, n: nat, m: nat)
    requires m <= n && n > 0
    ensures BlockStart(|tp|, n, m) <= |tp| && All(Blocks(tp, n)[..m]) == tp[..BlockStart(|tp|, n, m)]
  {
    hide Take;
    BlocksCover(|tp|, n);
    BlockStartMonotone(|tp|, n, m, n);
    var shares := Blocks(tp, n);
    if m > 0 {
      BlocksAre(tp, n, m - 1);
      BlockStartMonotone(|tp|, n, m - 1, m);
      assert shares[..m][..m - 1] == shares[..m - 1];
    }
  }

  lemma {:induction false} AllZip(a: Shares, b: Shares, c: Shares)
    requires |a| == |b| == |c| && forall m :: 0 <= m < |a| ==> c[m] == a[m] + b[m]
    ensures multiset(All(c)) == multiset(All(a)) + multiset(All(b))
  {
    if a != [] {
      var n := |a| - 1;
      AllZip(a[..n], b[..n], c[..n]);
    }
  }

  lemma {:induction false} RangeDeals(ps: seq<TopicPartition>, n: nat)
    requires n > 0
    ensures Deals(RangeShares(ps, n), ps)
  {
    hide All, Block;
    if ps == [] {
      AllEmpty(RangeShares(ps, n));
    } else {
      var e := TopicRun(ps);
      RangeDeals(ps[e..], n);
      BlocksAre(ps[..e], n, n);
      BlocksCover(e, n);
      assert Blocks(ps[..e], n)[..n] == Blocks(ps[..e], n) && ps[..e][..e] == ps[..e];
      AllZip(Blocks(ps[..e], n), RangeShares(ps[e..], n), RangeShares(ps, n));
      assert ps == ps[..e] + ps[e..];
    }
  }

  function OfTopic(ps: seq<TopicPartition>, topic: string): seq<TopicPartition> {
    if ps == [] then []
    else OfTopic(ps[..|ps| - 1], topic) + (if ps[|ps| - 1].topic == topic then [ps[|ps| - 1]] else [])
  }

  lemma {:induction false} OfTopicAppend(a: seq<TopicPartition>, b: seq<TopicPartition>, topic: string)
    ensures OfTopic(a + b, topic) == OfTopic(a, topic) + OfTopic(b, topic)
  {
    if b == [] {
      assert a + b == a;
    } else {
      assert (a + b)[..|a + b| - 1] == a + b[..|b| - 1];
      OfTopicAppend(a, b[..|b| - 1], topic);
    }
  }

  lemma OfTopicAll(ps: seq<TopicPartition>, topic: string)
    ensures (forall i :: 0 <= i < |ps| ==> ps[i].topic == topic) ==> OfTopic(ps, topic) == ps
    ensures (forall i :: 0 <= i < |ps| ==> ps[i].topic != topic) ==> OfTopic(ps, topic) == []
  {
    hide OfTopic;
    if forall i :: 0 <= i < |ps| ==> ps[i].topic == topic {
      AllOfTopic(ps, topic);
    }
    if forall i :: 0 <= i < |ps| ==> ps[i].topic != topic {
      NoneOfTopic(ps, topic);
    }
  }

  lemma {:induction false} AllOfTopic(ps: seq<TopicPartition>, topic: string)
    requires forall i :: 0 <= i < |ps| ==> ps[i].topic == topic
    ensures OfTopic(ps, topic) == ps
  {
    if ps != [] {
      AllOfTopic(ps[..|ps| - 1], topic);
      assert ps == ps[..|ps| - 1] + [ps[|ps| - 1]];
    }
  }

  lemma {:induction false} NoneOfTopic(ps: seq<TopicPartition>, topic: string)
    requires forall i :: 0 <= i < |ps| ==> ps[i].topic != topic
    ensures OfTopic(ps, topic) == []
  {
    if ps != [] {
      NoneOfTopic(ps[..|ps| - 1], topic);
    }
  }

  // In sorted order a topic never comes back after its run.
  lemma TopicOnce(ps: seq<TopicPartition>, i: nat)
    requires StrictlySorted(ps, PartitionLess) && ps != [] && TopicRun(ps) <= i < |ps|
    ensures ps[i].topic != ps[0].topic
  {
    hide StringLess, TopicRun;
    var e := TopicRun(ps);
    var a, b, c := ps[0].topic, ps[e].topic, ps[i].topic;
    assert PartitionLess(ps[0], ps[e]);
    StringTotal(a, a);
    if e < i && b != c {
      assert PartitionLess(ps[e], ps[i]);
      StringTrans(a, b, c);
    }
  }

  lemma BlockWithin(run: seq<TopicPartition>, n: nat, m: nat)
    requires m < n
    ensures forall i :: 0 <= i < |Block(run, n, m)| ==> Block(run, n, m)[i] in run
  {
    BlocksCover(|run|, n);
    BlockStartMonotone(|run|, n, m + 1, n);
    hide Take, BlockStart;
    forall i | 0 <= i < |Block(run, n, m)|
      ensures Block(run, n, m)[i] in run
    {
      assert Block(run, n, m)[i] == run[BlockStart(|run|, n, m) + i];
    }
  }

  // The leading run of one topic: all of it is that topic, and none of it any other.
  lemma RunOfTopic(ps: seq<TopicPartition>, n: nat, m: nat, topic: string)
    requires m < n && ps != []
    ensures var run := ps[..TopicRun(ps)];
      if ps[0].topic == topic then OfTopic(run, topic) == run && OfTopic(Block(run, n, m), topic) == Block(run, n, m)
      else OfTopic(run, topic) == [] && OfTopic(Block(run, n, m), topic) == []
  {
    hide TopicRun, OfTopic, Block;
    var run := ps[..TopicRun(ps)];
    BlockWithin(run, n, m);
    OfTopicAll(run, topic);
    OfTopicAll(Block(run, n, m), topic);
  }

  lemma ShareStep(ps: seq<TopicPartition>, n: nat, m: nat, topic: string)
    requires m < n && ps != []
    ensures var e := TopicRun(ps);
      && OfTopic(ps, topic) == OfTopic(ps[..e], topic) + OfTopic(ps[e..], topic)
      && OfTopic(RangeShare(ps, n, m), topic)
         == OfTopic(Block(ps[..e], n, m), topic) + OfTopic(RangeShare(ps[e..], n, m), topic)
  {
    hide TopicRun, OfTopic, Block;
    var e := TopicRun(ps);
    assert ps == ps[..e] + ps[e..];
    OfTopicAppend(ps[..e], ps[e..], topic);
    OfTopicAppend(Block(ps[..e], n, m), RangeShare(ps[e..], n, m), topic);
  }

  lemma {:induction false} ShareTopics(ps: seq<TopicPartition>, n: nat, m: nat, topic: string)
    requires m < n && forall i :: 0 <= i < |ps| ==> ps[i].topic != topic
    ensures OfTopic(RangeShare(ps, n, m), topic) == []
  {
    hide TopicRun, OfTopic, Block;
    if ps == [] {
      OfTopicAll([], topic);
    } else {
      RunOfTopic(ps, n, m, topic);
      ShareStep(ps, n, m, topic);
      ShareTopics(ps[TopicRun(ps)..], n, m, topic);
    }
  }

  /** Of every topic, a member gets one contiguous block of the topic's sorted partitions; block sizes differ by at most one. */
  lemma {:induction false} RangeContiguous(ps: seq<TopicPartition>, n: nat, m: nat, topic: string)
    requires m < n && StrictlySorted(ps, PartitionLess)
    ensures OfTopic(RangeShare(ps, n, m), topic) == Block(OfTopic(ps, topic), n, m)
  {
    hide TopicRun, OfTopic, Block, PartitionLess, RangeShare;
    OfTopicAll([], topic);
    NoShare(n, m);
    if ps == [] {
      NoBlock(n, m);
    } else {
      var rest := ps[TopicRun(ps)..];
      RunOfTopic(ps, n, m, topic);
      ShareStep(ps, n, m, topic);
      if ps[0].topic == topic {
        forall i | 0 <= i < |rest|
          ensures rest[i].topic != topic
        {
          TopicOnce(ps, TopicRun(ps) + i);
        }
        ShareTopics(rest, n, m, topic);
        OfTopicAll(rest, topic);
        var run := ps[..TopicRun(ps)];
        assert run + [] == run && Block(run, n, m) + [] == Block(run, n, m);
      } else {
        RangeContiguous(rest, n, m, topic);
        assert [] + OfTopic(rest, topic) == OfTopic(rest, topic);
      }
    }
  }

  lemma NoShare(n: nat, m: nat)
    requires m < n
    ensures RangeShare([], n, m) == []
  {
  }

  lemma NoBlock(n: nat, m: nat)
    requires m < n
    ensures Block([], n, m) == []
  {
    BlocksCover(0, n);
    BlockStartMonotone(0, n, m + 1, n);
  }

  // ------------------------------------------------------------ the strategies

  type Assignment = map<string, seq<TopicPartition>>

  /** The map gives the i-th member the i-th share, and knows no one else. */
  ghost predicate Gives(assignment: Assignment, members: seq<string>, shares: Shares) {
    && |members| == |shares|
    && (forall name :: name in assignment <==> name in members)
    && forall i :: 0 <= i < |members| ==> assignment[members[i]] == shares[i]
  }

  // push_back onto one member's list.
  lemma GivesUpdate(assignment: Assignment, members: seq<string>, shares: Shares, m: nat, p: TopicPartition)
    requires Gives(assignment, members, shares) && m < |members| && StrictlySorted(members, StringLess)
    ensures members[m] in assignment
    ensures Gives(assignment[members[m] := assignment[members[m]] + [p]], members, shares[m := shares[m] + [p]])
  {
    StringOrder();
    hide StringLess;
    forall i | 0 <= i < |members| && i != m
      ensures members[i] != members[m]
    {
      assert StringLess(members[i], members[m]) || StringLess(members[m], members[i]);
    }
  }

  method EmptyLists(members: seq<string>) returns (assignment: Assignment)
    ensures Gives(assignment, members, seq(|members|, _ => []))
  {
    assignment := map[];
    var i := 0;
    while i < |members|
      invariant i <= |members| && (forall name :: name in assignment <==> name in members[..i])
      invariant forall name :: name in assignment ==> assignment[name] == []
    {
      assignment := assignment[members[i] := []];
      i := i + 1;
    }
  }

  // The sorted distinct members, and the sorted distinct partitions, of the arguments.
  ghost predicate MemberList(ms: seq<string>, memberIds: seq<string>) {
    StrictlySorted(ms, StringLess) && SameElements(ms, memberIds)
  }

  ghost predicate PartitionList(ps: seq<TopicPartition>, partitions: seq<TopicPartition>) {
    StrictlySorted(ps, PartitionLess) && SameElements(ps, partitions)
  }

  ghost predicate Owned(assignment: Assignment, p: TopicPartition) {
    exists a :: a in assignment && p in assignment[a]
  }

  /** Exactly the members appear; every partition is with exactly one of them, once; nothing else is handed out. */
  ghost predicate HandsOut(assignment: Assignment, memberIds: seq<string>, partitions: seq<TopicPartition>) {
    && (forall x :: x in assignment <==> x in memberIds)
    && (forall p :: Owned(assignment, p) <==> p in partitions)
    && (forall a, p :: a in assignment && p in assignment[a] ==> multiset(assignment[a])[p] == 1)
    && (forall a, b, p :: a in assignment && b in assignment && p in assignment[a] && p in assignment[b] ==> a == b)
  }

  lemma GivesHandsOut(range: bool, assignment: Assignment, ms: seq<string>, ps: seq<TopicPartition>,
                      memberIds: seq<string>, partitions: seq<TopicPartition>)
    requires ms != [] && MemberList(ms, memberIds) && PartitionList(ps, partitions)
    requires Gives(assignment, ms, SharesOf(range, ps, |ms|))
    ensures HandsOut(assignment, memberIds, partitions)
  {
    hide StringLess, PartitionLess, StridedShares, RangeShares, OnlyOwner, Owned;
    forall p
      ensures Owned(assignment, p) <==> p in partitions
    {
      HandsOutOne(range, assignment, ms, ps, p);
      assert p in ps <==> p in partitions;
    }
    forall a, p | a in assignment && p in assignment[a]
      ensures multiset(assignment[a])[p] == 1
    {
      HandsOutOne(range, assignment, ms, ps, p);
    }
    forall a, b, p | a in assignment && b in assignment && p in assignment[a] && p in assignment[b]
      ensures a == b
    {
      HandsOutOne(range, assignment, ms, ps, p);
    }
  }

  lemma HandsOutOne(range: bool, assignment: Assignment, ms: seq<string>, ps: seq<TopicPartition>, p: TopicPartition)
    requires ms != [] && StrictlySorted(ms, StringLess) && StrictlySorted(ps, PartitionLess)
    requires Gives(assignment, ms, SharesOf(range, ps, |ms|))
    ensures Owned(assignment, p) <==> p in ps
    ensures forall a :: a in assignment && p in assignment[a] ==> multiset(assignment[a])[p] == 1
    ensures forall a, b :: a in assignment && b in assignment && p in assignment[a] && p in assignment[b] ==> a == b
  {
    hide StringLess, PartitionLess, StridedShares, RangeShares;
    var shares := SharesOf(range, ps, |ms|);
    EveryPartitionOwned(range, ps, |ms|, p);
    if p in ps {
      var m: nat :| OnlyOwner(shares, m, p);
      assert p in multiset(shares[m]);
      assert ms[m] in assignment && p in assignment[ms[m]];
      forall a | a in assignment && p in assignment[a]
        ensures a == ms[m] && multiset(assignment[a])[p] == 1
      {
        var i :| 0 <= i < |ms| && ms[i] == a;
        assert p in shares[i];
      }
    } else {
      forall a | a in assignment
        ensures p !in assignment[a]
      {
        var i :| 0 <= i < |ms| && ms[i] == a;
        assert p !in shares[i];
      }
    }
  }

  /** Round robin: member m gets every n-th of the sorted distinct partitions. */
  method AssignRoundRobin(memberIds: seq<string>, partitions: seq<TopicPartition>) returns (assignment: Assignment)
    ensures if memberIds == [] then assignment == map[] else HandsOut(assignment, memberIds, partitions)
    ensures forall ms, ps :: MemberList(ms, memberIds) && PartitionList(ps, partitions) && ms != [] ==>
      Gives(assignment, ms, StridedShares(ps, |ms|))
  {
    hide StringLess, PartitionLess, Turn, Strided, HandsOut;
    StringOrder();
    PartitionOrder();
    var names := SortUnique(memberIds, StringLess);
    var sorted := SortUnique(partitions, PartitionLess);
    ListsAreUnique(memberIds, partitions, names, sorted);
    if names == [] {
      return map[];
    }
    assignment := EmptyLists(names);
    var n := |names|;
    StridedNothing(n);
    var i := 0;
    while i < |sorted|
      invariant i <= |sorted| && Gives(assignment, names, StridedShares(sorted[..i], n))
    {
      var m := Turn(i, n);
      GivesUpdate(assignment, names, StridedShares(sorted[..i], n), m, sorted[i]);
      assignment := assignment[names[m] := assignment[names[m]] + [sorted[i]]];
      StridedNext(sorted, n, i);
      i := i + 1;
    }
    assert sorted[..i] == sorted;
    assert Gives(assignment, names, SharesOf(false, sorted, n));
    GivesHandsOut(false, assignment, names, sorted, memberIds, partitions);
  }

  lemma ListsAreUnique(memberIds: seq<string>, partitions: seq<TopicPartition>, names: seq<string>, sorted: seq<TopicPartition>)
    requires MemberList(names, memberIds) && PartitionList(sorted, partitions)
    ensures forall ms :: MemberList(ms, memberIds) ==> ms == names
    ensures forall ps :: PartitionList(ps, partitions) ==> ps == sorted
    ensures names == [] <==> memberIds == []
  {
    hide StringLess, PartitionLess;
    StringOrder();
    PartitionOrder();
    EmptyTogether(names, memberIds);
    EmptyTogether(memberIds, names);
    forall ms | MemberList(ms, memberIds)
      ensures ms == names
    {
      SortedIsUnique(ms, names, StringLess);
    }
    forall ps | PartitionList(ps, partitions)
      ensures ps == sorted
    {
      SortedIsUnique(ps, sorted, PartitionLess);
    }
  }

  lemma StridedNothing(n: nat)
    requires n > 0
    ensures StridedShares([], n) == seq(n, _ => [])
  {
  }

  lemma StridedNext(ps: seq<TopicPartition>, n: nat, i: nat)
    requires n > 0 && i < |ps|
    ensures var (before, t) := (StridedShares(ps[..i], n), Turn(i, n));
      StridedShares(ps[..i + 1], n) == before[t := before[t] + [ps[i]]]
  {
    hide Turn;
    var before, t := StridedShares(ps[..i], n), Turn(i, n);
    assert ps[..i + 1][..i] == ps[..i];
    var after := before[t := before[t] + [ps[i]]];
    forall m | 0 <= m < n
      ensures StridedShares(ps[..i + 1], n)[m] == after[m]
    {
      assert Strided(ps[..i + 1], n, m) == before[m] + if t == m then [ps[i]] else [];
    }
  }

  function Plus(a: Shares, b: Shares): (c: Shares)
    requires |a| == |b|
    ensures |c| == |a| && forall m :: 0 <= m < |a| ==> c[m] == a[m] + b[m]
  {
    seq(|a|, m requires 0 <= m < |a| => a[m] + b[m])
  }

  /** Range: member m gets its contiguous block of each topic's sorted distinct partitions. */
  method AssignRange(memberIds: seq<string>, partitions: seq<TopicPartition>) returns (assignment: Assignment)
    ensures if memberIds == [] then assignment == map[] else HandsOut(assignment, memberIds, partitions)
    ensures forall ms, ps :: MemberList(ms, memberIds) && PartitionList(ps, partitions) && ms != [] ==>
      Gives(assignment, ms, RangeShares(ps, |ms|))
  {
    hide StringLess, PartitionLess, RangeShare, Block, Gives, TopicRun, HandsOut;
    StringOrder();
    PartitionOrder();
    var names := SortUnique(memberIds, StringLess);
    var sorted := SortUnique(partitions, PartitionLess);
    ListsAreUnique(memberIds, partitions, names, sorted);
    if names == [] {
      return map[];
    }
    assignment := EmptyLists(names);
    assignment := DealTopics(assignment, names, sorted);
    assert Gives(assignment, names, SharesOf(true, sorted, |names|));
    GivesHandsOut(true, assignment, names, sorted, memberIds, partitions);
  }

  // Topic after topic, in sorted order.
  method DealTopics(given: Assignment, names: seq<string>, sorted: seq<TopicPartition>) returns (assignment: Assignment)
    requires names != [] && StrictlySorted(names, StringLess) && Gives(given, names, seq(|names|, _ => []))
    ensures Gives(assignment, names, RangeShares(sorted, |names|))
  {
    hide StringLess, PartitionLess, RangeShare, Block, Gives, TopicRun, StrictlySorted;
    assignment := given;
    var n := |names|;
    ghost var shares := seq(n, _ => []);
    var at := 0;
    assert sorted[0..] == sorted;
    PlusNothing(shares, RangeShares(sorted, n));
    while at < |sorted|
      invariant at <= |sorted| && |shares| == n && Gives(assignment, names, shares)
      invariant Plus(shares, RangeShares(sorted[at..], n)) == RangeShares(sorted, n)
      decreases |sorted| - at
    {
      var e := TopicRun(sorted[at..]);
      var tp := sorted[at..at + e];
      assignment := DealTopic(assignment, names, tp, shares);
      NextTopic(sorted, at, n, shares);
      shares := Plus(shares, Blocks(tp, n));
      at := at + e;
    }
    NothingLeft(sorted[at..], n);
    PlusNothing(RangeShares(sorted[at..], n), shares);
  }

  lemma PlusNothing(nothing: Shares, a: Shares)
    requires |nothing| == |a| && forall m :: 0 <= m < |a| ==> nothing[m] == []
    ensures Plus(nothing, a) == a && Plus(a, nothing) == a
  {
    forall m | 0 <= m < |a|
      ensures Plus(nothing, a)[m] == a[m] && Plus(a, nothing)[m] == a[m]
    {
      assert [] + a[m] == a[m] && a[m] + [] == a[m];
    }
  }

  lemma NothingLeft(ps: seq<TopicPartition>, n: nat)
    requires ps == []
    ensures forall m :: 0 <= m < n ==> RangeShares(ps, n)[m] == []
  {
  }

  lemma NextTopic(sorted: seq<TopicPartition>, at: nat, n: nat, shares: Shares)
    requires at < |sorted| && |shares| == n
    ensures var e := TopicRun(sorted[at..]);
      at + e <= |sorted|
      && Plus(Plus(shares, Blocks(sorted[at..at + e], n)), RangeShares(sorted[at + e..], n))
         == Plus(shares, RangeShares(sorted[at..], n))
  {
    hide Block, TopicRun;
    var ps, e := sorted[at..], TopicRun(sorted[at..]);
    assert ps[..e] == sorted[at..at + e] && ps[e..] == sorted[at + e..];
    var a := Plus(Plus(shares, Blocks(ps[..e], n)), RangeShares(ps[e..], n));
    var b := Plus(shares, RangeShares(ps, n));
    forall m | 0 <= m < n
      ensures a[m] == b[m]
    {
      assert (shares[m] + Block(ps[..e], n, m)) + RangeShare(ps[e..], n, m)
          == shares[m] + (Block(ps[..e], n, m) + RangeShare(ps[e..], n, m));
    }
  }

  // One topic: the first members take one extra, the cursor never turns back.
  method DealTopic(given: Assignment, members: seq<string>, tp: seq<TopicPartition>, ghost shares: Shares)
    returns (assignment: Assignment)
    requires members != [] && |shares| == |members| && StrictlySorted(members, StringLess) && Gives(given, members, shares)
    ensures Gives(assignment, members, Plus(shares, Blocks(tp, |members|)))
  {
    hide StringLess, Gives, Take, BlockStart, Turn, StrictlySorted, Block;
    var n, count := |members|, |tp|;
    var perMember, remainder := count / n, Turn(count, n);
    assignment := given;
    ghost var now := shares;
    var cursor: nat, m: nat := 0, 0;
    BlockZero(count, n);
    while m < n
      invariant m <= n && cursor == BlockStart(count, n, m) && |now| == n && Gives(assignment, members, now)
      invariant forall k :: 0 <= k < m ==> now[k] == shares[k] + Block(tp, n, k)
      invariant forall k :: m <= k < n ==> now[k] == shares[k]
    {
      var take := perMember + if m < remainder then 1 else 0;
      BlockNext(count, n, m);
      BlockIs(tp, n, m);
      assignment, cursor := GiveRun(assignment, members, tp, now, m, cursor, take);
      now := Grown(now, m, Block(tp, n, m));
      m := m + 1;
    }
    assert now == Plus(shares, Blocks(tp, n));
  }

  method GiveRun(given: Assignment, members: seq<string>, tp: seq<TopicPartition>, ghost shares: Shares,
                 m: nat, from: nat, take: nat) returns (assignment: Assignment, cursor: nat)
    requires m < |members| == |shares| && StrictlySorted(members, StringLess) && Gives(given, members, shares)
    requires from + take <= |tp|
    ensures cursor == from + take && Gives(assignment, members, Grown(shares, m, tp[from..cursor]))
  {
    hide StringLess, Gives, StrictlySorted, Grown;
    assignment, cursor := given, from;
    var i := 0;
    assert tp[from..cursor] == [];
    GrownNothing(shares, m);
    while i < take && cursor < |tp|
      invariant 0 <= i <= take && cursor == from + i <= |tp|
      invariant Gives(assignment, members, Grown(shares, m, tp[from..cursor]))
    {
      GrownMore(shares, m, tp[from..cursor], tp[cursor]);
      GivesUpdate(assignment, members, Grown(shares, m, tp[from..cursor]), m, tp[cursor]);
      assignment := assignment[members[m] := assignment[members[m]] + [tp[cursor]]];
      assert tp[from..cursor + 1] == tp[from..cursor] + [tp[cursor]];
      i, cursor := i + 1, cursor + 1;
    }
  }

  ghost function Grown(shares: Shares, m: nat, more: seq<TopicPartition>): (after: Shares)
    requires m < |shares|
    ensures |after| == |shares| && forall k :: 0 <= k < |shares| && k != m ==> after[k] == shares[k]
    ensures after[m] == shares[m] + more
  {
    shares[m := shares[m] + more]
  }

  lemma GrownNothing(shares: Shares, m: nat)
    requires m < |shares|
    ensures Grown(shares, m, []) == shares
  {
    assert shares[m] + [] == shares[m];
  }

  lemma GrownMore(shares: Shares, m: nat, more: seq<TopicPartition>, p: TopicPartition)
    requires m < |shares|
    ensures var now := Grown(shares, m, more); now[m := now[m] + [p]] == Grown(shares, m, more + [p])
  {
    assert (shares[m] + more) + [p] == shares[m] + (more + [p]);
  }

  lemma BlockIs(tp: seq<TopicPartition>, n: nat, m: nat)
    requires m < n
    ensures BlockStart(|tp|, n, m) <= BlockStart(|tp|, n, m + 1) <= |tp|
    ensures Block(tp, n, m) == tp[BlockStart(|tp|, n, m)..BlockStart(|tp|, n, m + 1)]
  {
    BlocksCover(|tp|, n);
    BlockStartMonotone(|tp|, n, m, m + 1);
    BlockStartMonotone(|tp|, n, m + 1, n);
  }

  lemma BlockZero(count: nat, n: nat)
    requires n > 0
    ensures BlockStart(count, n, 0) == 0
  {
  }

  lemma BlockNext(count: nat, n: nat, m: nat)
    requires m < n
    ensures BlockStart(count, n, m + 1) == BlockStart(count, n, m) + count / n + (if m < Turn(count, n) then 1 else 0) <= count
  {
    BlocksCover(count, n);
    BlockStartMonotone(count, n, m + 1, n);
  }

  function SharesOf(range: bool, ps: seq<TopicPartition>, n: nat): Shares
    requires n > 0
  {
    if range then RangeShares(ps, n) else StridedShares(ps, n)
  }

  /** Equal sets of members and partitions get equal assignments, whatever the order and repetition they arrive in. */
  lemma OnlySetsMatter(range: bool, a: Assignment, b: Assignment, ms: seq<string>, ms': seq<string>,
                       ps: seq<TopicPartition>, ps': seq<TopicPartition>)
    requires StrictlySorted(ms, StringLess) && StrictlySorted(ms', StringLess) && SameElements(ms, ms') && ms != []
    requires StrictlySorted(ps, PartitionLess) && StrictlySorted(ps', PartitionLess) && SameElements(ps, ps')
    requires Gives(a, ms, SharesOf(range, ps, |ms|))
    requires ms' != [] ==> Gives(b, ms', SharesOf(range, ps', |ms'|))
    ensures a == b
  {
    hide StringLess, PartitionLess, StridedShares, RangeShares;
    StringOrder();
    PartitionOrder();
    SortedIsUnique(ms, ms', StringLess);
    SortedIsUnique(ps, ps', PartitionLess);
    forall name | name in a
      ensures name in b && a[name] == b[name]
    {
      var i :| 0 <= i < |ms| && ms[i] == name;
    }
  }

  /** Both strategies hand every distinct partition to exactly one member, once. */
  lemma EveryPartitionOwned(range: bool, ps: seq<TopicPartition>, n: nat, p: TopicPartition)
    requires n > 0 && StrictlySorted(ps, PartitionLess)
    ensures var shares := SharesOf(range, ps, n);
      if p in ps then exists m: nat :: OnlyOwner(shares, m, p) else forall k: nat :: k < |shares| ==> p !in shares[k]
  {
    hide PartitionLess, StridedShares, RangeShares;
    if range {
      RangeDeals(ps, n);
    } else {
      RoundRobinDeals(ps, n);
    }
    ExactlyOneOwner(SharesOf(range, ps, n), ps, p);
  }
}
