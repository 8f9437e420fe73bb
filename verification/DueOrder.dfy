/** Queries for due rows: the rows wanted, earliest next attempt first, up to a limit. */
module DueOrder {
  predicate InRange(selected: seq<nat>, n: nat) {
    forall k | 0 <= k < |selected| :: selected[k] < n
  }

  /** The ordering (next attempt, creation); rows are stored in creation order. */
  predicate Earlier(times: seq<int>, i: nat, j: nat)
    requires i < |times| && j < |times|
  {
    times[i] < times[j] || (times[i] == times[j] && i < j)
  }

  function Place(times: seq<int>, i: nat, selected: seq<nat>): (r: seq<nat>)
    requires i < |times| && InRange(selected, |times|)
    ensures InRange(r, |times|)
  {
    if selected == [] then [i]
    else if Earlier(times, i, selected[0]) then [i] + selected
    else [selected[0]] + Place(times, i, selected[1..])
  }

  /** The wanted rows among the first n, in order. */
  function Ordered(times: seq<int>, wanted: seq<bool>, n: nat): (r: seq<nat>)
    requires n <= |times| == |wanted|
    ensures InRange(r, |times|)
  {
    if n == 0 then []
    else if wanted[n - 1] then Place(times, n - 1, Ordered(times, wanted, n - 1))
    else Ordered(times, wanted, n - 1)
  }

  function Picked(times: seq<int>, wanted: seq<bool>, limit: nat): (r: seq<nat>)
    requires |times| == |wanted|
    ensures InRange(r, |times|)
  {
    var all := Ordered(times, wanted, |times|);
    if |all| <= limit then all else all[..limit]
  }

  ghost predicate InOrder(times: seq<int>, selected: seq<nat>)
    requires InRange(selected, |times|)
  {
    forall j, k | 0 <= j < k < |selected| :: Earlier(times, selected[j], selected[k])
  }

  lemma {:induction false} PlaceElements(times: seq<int>, i: nat, selected: seq<nat>, x: nat)
    requires i < |times| && InRange(selected, |times|)
    ensures x in Place(times, i, selected) <==> x == i || x in selected
  {
    if selected != [] && !Earlier(times, i, selected[0]) {
      PlaceElements(times, i, selected[1..], x);
      assert selected == [selected[0]] + selected[1..];
    }
  }

  lemma {:induction false} PlaceSorts(times: seq<int>, i: nat, selected: seq<nat>)
    requires i < |times| && InRange(selected, |times|) && InOrder(times, selected) && i !in selected
    ensures InOrder(times, Place(times, i, selected))
  {
    if selected == [] {
    } else if Earlier(times, i, selected[0]) {
      forall k | 0 < k < |selected| ensures Earlier(times, i, selected[k]) {
        assert Earlier(times, selected[0], selected[k]);
      }
    } else {
      PlaceSorts(times, i, selected[1..]);
      var tail := Place(times, i, selected[1..]);
      forall k | 0 <= k < |tail| ensures Earlier(times, selected[0], tail[k]) {
        PlaceElements(times, i, selected[1..], tail[k]);
        if tail[k] != i {
          var j :| 1 <= j < |selected| && selected[j] == tail[k];
          assert Earlier(times, selected[0], selected[j]);
        }
      }
    }
  }

  lemma {:induction false} OrderedAreExactly(times: seq<int>, wanted: seq<bool>, n: nat, i: nat)
    requires n <= |times| == |wanted|
    ensures i in Ordered(times, wanted, n) <==> i < n && wanted[i]
  {
    if n > 0 {
      OrderedAreExactly(times, wanted, n - 1, i);
      PlaceElements(times, n - 1, Ordered(times, wanted, n - 1), i);
    }
  }

  lemma {:induction false} OrderedInOrder(times: seq<int>, wanted: seq<bool>, n: nat)
    requires n <= |times| == |wanted|
    ensures InOrder(times, Ordered(times, wanted, n))
  {
    if n > 0 {
      OrderedInOrder(times, wanted, n - 1);
      if wanted[n - 1] {
        OrderedAreExactly(times, wanted, n - 1, n - 1);
        PlaceSorts(times, n - 1, Ordered(times, wanted, n - 1));
      }
    }
  }

  /** Distinct wanted rows in order, where a wanted row is passed over only if the limit is used up by earlier ones. */
  lemma PickedIsEarliestFirst(times: seq<int>, wanted: seq<bool>, limit: nat)
    requires |times| == |wanted|
    ensures var s := Picked(times, wanted, limit);
            && |s| <= limit && InOrder(times, s)
            && (forall k | 0 <= k < |s| :: wanted[s[k]])
            && (forall j, k | 0 <= j < k < |s| :: s[j] != s[k])
            && (forall i: nat | i < |times| && wanted[i] && i !in s ::
                  |s| == limit && forall k | 0 <= k < |s| :: Earlier(times, s[k], i))
  {
    OrderedInOrder(times, wanted, |times|);
    var all := Ordered(times, wanted, |times|);
    var s := Picked(times, wanted, limit);
    forall k | 0 <= k < |s| ensures wanted[s[k]] {
      OrderedAreExactly(times, wanted, |times|, all[k]);
    }
    forall i: nat | i < |times| && wanted[i] && i !in s
      ensures |s| == limit && forall k | 0 <= k < |s| :: Earlier(times, s[k], i)
    {
      OrderedAreExactly(times, wanted, |times|, i);
      var j :| 0 <= j < |all| && all[j] == i;
      assert j >= |s|;
    }
  }
}
