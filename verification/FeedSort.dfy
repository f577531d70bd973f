/**
  The feeds of a run of a Go session, put into an order that does not depend on the order in
  which the map of feeds is iterated.
 */
module FeedSort {
  // A C output, its operation given by the address of the operation's name.
  datatype Output = Output(name: nat, index: int)
  type Tensor = nat
  type Feed = (Output, Tensor)

  predicate Before(a: Output, b: Output) {
    if a.name == b.name then a.index < b.index else a.name < b.name
  }

  ghost predicate Sorted(s: seq<Feed>) {
    forall i, j | 0 <= i < j < |s| :: Before(s[i].0, s[j].0)
  }

  ghost predicate DistinctOutputs(s: seq<Feed>) {
    forall i, j | 0 <= i < j < |s| :: s[i].0 != s[j].0
  }

  function Swapped<T>(s: seq<T>, i: nat, j: nat): seq<T>
    requires i < |s| && j < |s|
  {
    s[i := s[j]][j := s[i]]
  }

  lemma SwapPermutes<T>(s: seq<T>, i: nat, j: nat)
    requires i < |s| && j < |s|
    ensures multiset(Swapped(s, i, j)) == multiset(s)
  {
  }

  // The first n feeds are in order, the one in the hole possibly before others to its left.
  ghost predicate InOrder(s: seq<Feed>, n: nat, hole: nat) {
    n <= |s| && forall i, j | 0 <= i < j < n && j != hole :: !Before(s[j].0, s[i].0)
  }

  lemma WiderHole(s: seq<Feed>, n: nat)
    requires InOrder(s, n, n) && n < |s|
    ensures InOrder(s, n + 1, n)
  {
  }

  lemma SwapMovesHole(s: seq<Feed>, n: nat, j: nat)
    requires InOrder(s, n, j) && 0 < j < n && Before(s[j].0, s[j - 1].0)
    ensures InOrder(Swapped(s, j, j - 1), n, j - 1)
  {
  }

  lemma HoleCloses(s: seq<Feed>, n: nat, j: nat)
    requires InOrder(s, n, j) && j < n && (j > 0 ==> !Before(s[j].0, s[j - 1].0))
    ensures InOrder(s, n, n)
  {
    forall i | 0 <= i < j
      ensures !Before(s[j].0, s[i].0)
    {
      assert i < j - 1 ==> !Before(s[j - 1].0, s[i].0);
    }
  }

  // ---- Distinct outputs

  lemma {:induction false} DistinctOccurOnce(s: seq<Feed>, x: Feed)
    requires DistinctOutputs(s)
    ensures multiset(s)[x] <= 1
  {
    if s != [] {
      var front, last := s[..|s| - 1], s[|s| - 1];
      assert s == front + [last];
      DistinctOccurOnce(front, x);
      assert forall k | 0 <= k < |front| :: front[k] == s[k] && s[k].0 != last.0;
    }
  }

  lemma TwiceOccursTwice(s: seq<Feed>, i: nat, j: nat)
    requires i < j < |s| && s[i] == s[j]
    ensures multiset(s)[s[i]] >= 2
  {
    assert s == s[..i] + [s[i]] + s[i + 1..j] + [s[j]] + s[j + 1..];
  }

  lemma DistinctPermuted(s: seq<Feed>, t: seq<Feed>)
    requires DistinctOutputs(s) && multiset(s) == multiset(t)
    ensures DistinctOutputs(t)
  {
    forall i, j | 0 <= i < j < |t|
      ensures t[i].0 != t[j].0
    {
      assert t[i] in multiset(t) && t[j] in multiset(t);
      assert t[i] in s && t[j] in s;
      var k :| 0 <= k < |s| && s[k] == t[i];
      var m :| 0 <= m < |s| && s[m] == t[j];
      if t[i] == t[j] {
        TwiceOccursTwice(t, i, j);
        DistinctOccurOnce(s, t[i]);
      } else {
        assert k != m;
      }
    }
  }

  lemma InOrderIsSorted(s: seq<Feed>)
    requires InOrder(s, |s|, |s|) && DistinctOutputs(s)
    ensures Sorted(s)
  {
  }

  lemma SortedByNameAndIndex(s: seq<Feed>)
    ensures Sorted(s) <==>
            forall i, j | 0 <= i < j < |s| ::
              && s[i].0.name <= s[j].0.name
              && (s[i].0.name == s[j].0.name ==> s[i].0.index < s[j].0.index)
  {
  }

  // There is only one way to sort a set of feeds: the order in which the map was iterated has
  // no influence, and every tensor stays with its own output.
  lemma {:induction false} SortedFeedsAreUnique(s: seq<Feed>, t: seq<Feed>)
    requires Sorted(s) && Sorted(t) && multiset(s) == multiset(t)
    ensures s == t
    decreases |s|
  {
    SameLength(s, t);
    if s != [] {
      SameGreatest(s, t);
      var last := s[|s| - 1];
      var front := WithoutLast(s, multiset(s), last);
      var front' := WithoutLast(t, multiset(s), last);
      SortedFeedsAreUnique(front, front');
    }
  }

  lemma SameLength(s: seq<Feed>, t: seq<Feed>)
    requires multiset(s) == multiset(t)
    ensures |s| == |t|
  {
    assert |s| == |multiset(s)| == |multiset(t)| == |t|;
  }

  lemma WithoutLast(s: seq<Feed>, feeds: multiset<Feed>, last: Feed) returns (front: seq<Feed>)
    requires Sorted(s) && s != [] && s[|s| - 1] == last && multiset(s) == feeds
    ensures Sorted(front) && multiset(front) == feeds - multiset{last} && s == front + [last]
  {
    front := s[..|s| - 1];
    assert s == front + [last];
  }

  lemma SameGreatest(s: seq<Feed>, t: seq<Feed>)
    requires Sorted(s) && Sorted(t) && multiset(s) == multiset(t) && |s| == |t| > 0
    ensures s[|s| - 1] == t[|t| - 1]
  {
    assert s[|s| - 1] in multiset(s) && t[|t| - 1] in multiset(t);
    GreatestIsLast(t, s[|s| - 1]);
    GreatestIsLast(s, t[|t| - 1]);
  }

  lemma GreatestIsLast(s: seq<Feed>, x: Feed)
    requires Sorted(s) && x in multiset(s)
    ensures |s| > 0 && (x == s[|s| - 1] || Before(x.0, s[|s| - 1].0))
  {
    var i :| 0 <= i < |s| && s[i] == x;
  }

  // Two parallel arrays that are sorted together.
  class Feeds {
    const feeds: array<Output>
    const feedTensors: array<Tensor>

    ghost predicate Valid() {
      feeds.Length == feedTensors.Length
    }

    ghost function Pairs(): (s: seq<Feed>)
      requires Valid()
      reads feeds, feedTensors
      ensures |s| == feeds.Length
    {
      seq(feeds.Length, i requires 0 <= i < feeds.Length reads feeds, feedTensors => (feeds[i], feedTensors[i]))
    }

    // The loop of newCRunArgs over the map of feeds.
    constructor (order: seq<Feed>)
      ensures Valid() && Pairs() == order && fresh(feeds) && fresh(feedTensors)
    {
      feeds := new Output[|order|](i requires 0 <= i < |order| => order[i].0);
      feedTensors := new Tensor[|order|](i requires 0 <= i < |order| => order[i].1);
    }

    method Less(i: nat, j: nat) returns (r: bool)
      requires Valid() && i < feeds.Length && j < feeds.Length
      ensures r == Before(Pairs()[i].0, Pairs()[j].0)
      ensures r <==> feeds[i].name < feeds[j].name ||
                     (feeds[i].name == feeds[j].name && feeds[i].index < feeds[j].index)
    {
      var ni, nj := feeds[i].name, feeds[j].name;
      if ni == nj {
        return feeds[i].index < feeds[j].index;
      }
      return ni < nj;
    }

    method Swap(i: nat, j: nat)
      requires Valid() && i < feeds.Length && j < feeds.Length
      modifies feeds, feedTensors
      ensures Pairs() == Swapped(old(Pairs()), i, j)
    {
      feeds[i], feeds[j] := feeds[j], feeds[i];
      feedTensors[i], feedTensors[j] := feedTensors[j], feedTensors[i];
    }

    // The inner loop of Sort: feed i moves to its place among the feeds before it.
    method Insert(i: nat)
      requires Valid() && i < feeds.Length && InOrder(Pairs(), i + 1, i)
      modifies feeds, feedTensors
      ensures multiset(Pairs()) == multiset(old(Pairs())) && InOrder(Pairs(), i + 1, i + 1)
    {
      hide InOrder, Before, Swapped;
      var j := i;
      while j > 0
        invariant 0 <= j <= i && multiset(Pairs()) == multiset(old(Pairs()))
        invariant InOrder(Pairs(), i + 1, j)
      {
        var less := Less(j, j - 1);
        if !less {
          break;
        }
        SwapMovesHole(Pairs(), i + 1, j);
        SwapPermutes(Pairs(), j, j - 1);
        Swap(j, j - 1);
        j := j - 1;
      }
      HoleCloses(Pairs(), i + 1, j);
    }

    // What sort.Sort does to a short list, by means of Less and Swap.
    method Sort()
      requires Valid()
      modifies feeds, feedTensors
      ensures multiset(Pairs()) == multiset(old(Pairs()))
      ensures DistinctOutputs(old(Pairs())) ==> Sorted(Pairs())
      // By the address of the operation's name, and by the index of the output within it.
      ensures DistinctOutputs(old(Pairs())) ==>
                forall i, j | 0 <= i < j < feeds.Length ::
                  feeds[i].name <= feeds[j].name && (feeds[i].name == feeds[j].name ==> feeds[i].index < feeds[j].index)
    {
      var i := 1;
      assert feeds.Length >= 1 ==> InOrder(Pairs(), 1, 1);
      hide InOrder, Before, Swapped, Sorted, DistinctOutputs;
      while i < feeds.Length
        invariant 1 <= i && multiset(Pairs()) == multiset(old(Pairs()))
        invariant i <= feeds.Length ==> InOrder(Pairs(), i, i)
        invariant i > feeds.Length ==> feeds.Length == 0
      {
        WiderHole(Pairs(), i);
        Insert(i);
        i := i + 1;
      }
      if DistinctOutputs(old(Pairs())) {
        DistinctPermuted(old(Pairs()), Pairs());
        if feeds.Length > 0 {
          InOrderIsSorted(Pairs());
        }
        SortedByNameAndIndex(Pairs());
        forall i, j | 0 <= i < j < feeds.Length
          ensures feeds[i].name <= feeds[j].name && (feeds[i].name == feeds[j].name ==> feeds[i].index < feeds[j].index)
        {
          assert Pairs()[i].0 == feeds[i] && Pairs()[j].0 == feeds[j];
        }
      }
    }
  }

  // newCRunArgs, given the order in which the map of feeds happens to be iterated.
  method NewFeeds(order: seq<Feed>) returns (feeds: Feeds)
    ensures fresh(feeds) && feeds.Valid() && multiset(feeds.Pairs()) == multiset(order)
    ensures DistinctOutputs(order) ==> Sorted(feeds.Pairs())
  {
    feeds := new Feeds(order);
    if |order| > 1 {
      feeds.Sort();
    }
  }

  // The arrays that two runs with the same feeds pass to the C API.
  method FeedsOfTwoRuns(order: seq<Feed>, other: seq<Feed>)
    returns (feeds: seq<Output>, tensors: seq<Tensor>, feeds': seq<Output>, tensors': seq<Tensor>)
    requires DistinctOutputs(order) && multiset(order) == multiset(other)
    ensures feeds == feeds' && tensors == tensors' && |feeds| == |tensors| == |order|
    ensures forall i | 0 <= i < |feeds| :: (feeds[i], tensors[i]) in order
    ensures forall i, j | 0 <= i < j < |feeds| ::
              feeds[i].name <= feeds[j].name && (feeds[i].name == feeds[j].name ==> feeds[i].index < feeds[j].index)
  {
    var a := NewFeeds(order);
    var b := NewFeeds(other);
    DistinctPermuted(order, other);
    SortedFeedsAreUnique(a.Pairs(), b.Pairs());
    SortedByNameAndIndex(a.Pairs());
    ghost var pairs := a.Pairs();
    assert |pairs| == |multiset(pairs)| == |multiset(order)| == |order|;
    feeds, tensors, feeds', tensors' := a.feeds[..], a.feedTensors[..], b.feeds[..], b.feedTensors[..];
    forall i | 0 <= i < |pairs|
      ensures a.Pairs()[i] == b.Pairs()[i] && pairs[i] in order
    {
      assert pairs[i] in multiset(pairs);
    }
    assert forall i | 0 <= i < |feeds| :: pairs[i] == (feeds[i], tensors[i]) && b.Pairs()[i] == (feeds'[i], tensors'[i]);
  }
}
