/**
 The scheduler: a pure view of the item list against the master clock `time`.
 It splits the items into those still to start and those in progress, orders
 both lists, computes each row's begin-in value, and finds the next item(s) to
 start together with the wait until then.
 */
module Schedule {
  import opened Lists
  import opened Items
  import opened Sorting

  /** The next-up lookup's test: the item's duration is below the clock. */
  function IsPending(time: nat): Item -> bool
  {
    (x: Item) => x.duration < time
  }

  /** The to-start test of the item list: the begin-in value `time - duration` is positive. */
  function IsWaiting(time: nat): Item -> bool
  {
    (x: Item) => 0 < time - x.duration
  }

  /** The in-progress test of the item list: the begin-in value is zero or negative. */
  function IsStarted(time: nat): Item -> bool
  {
    (x: Item) => 0 >= time - x.duration
  }

  /** The two spellings of "not yet started" select the same items. */
  lemma PendingIsWaiting(time: nat)
    ensures forall x :: IsPending(time)(x) == IsWaiting(time)(x)
  {
  }

  /** The items to start, longest first: they must be put on soonest. */
  function ToStart(items: seq<Item>, time: nat): (r: seq<Item>)
    ensures forall x :: x in r <==> x in items && x.duration < time
    ensures Sorted(Descending, r)
  {
    var w := Filter(items, IsWaiting(time));
    assert forall x :: x in w <==> x in items && x.duration < time by {
      forall x | x in items && x.duration < time
        ensures x in w
      {
        var i :| 0 <= i < |items| && items[i] == x;
        assert IsWaiting(time)(items[i]);
      }
    }
    SortMembers(Descending, w);
    Sort(Descending, w)
  }

  /** The items in progress, shortest first. An item whose duration equals the clock is in progress. */
  function InProgress(items: seq<Item>, time: nat): (r: seq<Item>)
    ensures forall x :: x in r <==> x in items && time <= x.duration
    ensures Sorted(Ascending, r)
  {
    var s := Filter(items, IsStarted(time));
    assert forall x :: x in s <==> x in items && time <= x.duration by {
      forall x | x in items && time <= x.duration
        ensures x in s
      {
        var i :| 0 <= i < |items| && items[i] == x;
        assert IsStarted(time)(items[i]);
      }
    }
    SortMembers(Ascending, s);
    Sort(Ascending, s)
  }

  /** Every item is listed exactly once: the two lists together are a permutation of the items. */
  lemma Partition(items: seq<Item>, time: nat)
    ensures multiset(ToStart(items, time)) + multiset(InProgress(items, time)) == multiset(items)
    ensures forall x :: x in items ==> (x in ToStart(items, time) <==> x !in InProgress(items, time))
  {
    FilterSplits(items, IsWaiting(time), IsStarted(time));
  }

  /** The "Begin in" value of a row: `Math.max(time - duration, 0)`. */
  function BeginIn(time: nat, duration: nat): (r: nat)
    ensures r == 0 <==> time <= duration
    ensures r > 0 ==> r + duration == time
  {
    if time - duration > 0 then time - duration else 0
  }

  /** Every item to start shows a positive begin-in value, and the clamp to 0 never applies to it. */
  lemma BeginInToStart(items: seq<Item>, time: nat)
    ensures forall x :: x in ToStart(items, time) ==> BeginIn(time, x.duration) == time - x.duration > 0
  {
  }

  /** The pending items of the next-up lookup, in list order. */
  function Pending(items: seq<Item>, time: nat): (r: seq<Item>)
    ensures forall x :: x in r <==> x in items && x.duration < time
  {
    var p := Filter(items, IsPending(time));
    assert forall x :: x in items && x.duration < time ==> x in p by {
      forall x | x in items && x.duration < time
        ensures x in p
      {
        var i :| 0 <= i < |items| && items[i] == x;
        assert IsPending(time)(items[i]);
      }
    }
    p
  }

  /** The first item of a list sorted longest first carries the longest duration. */
  lemma SortedLongest(s: seq<Item>)
    requires |s| > 0
    ensures Sort(Descending, s)[0].duration == Longest(s)
  {
    var r := Sort(Descending, s);
    assert Longest(r) == Longest(s) by {
      SortMembers(Descending, s);
      LongestMembers(r, s);
    }
    var j :| 0 <= j < |r| && r[j].duration == Longest(r);
    if j > 0 {
      assert Key(Descending, r[0]) <= Key(Descending, r[j]);
    }
  }

  /**
   Taking the items that share the head's duration from the descending sort
   selects the items of the longest duration, in their original order; there
   is at least one when the list is not empty.
   */
  lemma LongestFirst(p: seq<Item>)
    requires |p| > 0
    ensures Filter(Sort(Descending, p), HasDuration(Sort(Descending, p)[0].duration))
      == Filter(p, HasDuration(Longest(p)))
    ensures |Filter(p, HasDuration(Longest(p)))| > 0
  {
    var k := Longest(p);
    SortedLongest(p);
    SortStable(Descending, p, k);
    var i :| 0 <= i < |p| && p[i].duration == k;
    assert HasDuration(k)(p[i]);
    assert p[i] in Filter(p, HasDuration(k));
  }

  /**
   The next item(s) to start: the pending items sorted longest first, then
   those sharing the first one's duration. This is exactly the pending items
   of the longest pending duration, ties included and in list order, and it is
   empty when nothing is pending.
   */
  function NextUp(items: seq<Item>, time: nat): (r: seq<Item>)
    ensures r == Filter(Pending(items, time), HasDuration(Longest(Pending(items, time))))
    ensures forall x :: x in r <==>
      x in items && x.duration < time && x.duration == Longest(Pending(items, time))
    ensures |r| == 0 <==> |Pending(items, time)| == 0
  {
    var p := Pending(items, time);
    if |p| == 0 then
      assert Filter(p, HasDuration(Longest(p))) == [];
      if |items| == 0 then [] else
        assert Sort(Descending, p) == [];
        []
    else
      LongestFirst(p);
      assert |items| > 0 by {
        assert p[0] in items;
      }
      var s := Sort(Descending, p);
      Filter(s, HasDuration(s[0].duration))
  }

  /**
   The names shown after "Next:" (joined with ", " for display): one per
   next-up item and in its order, each the name of a pending item of the
   longest pending duration, every such item's name among them, and none when
   nothing is pending.
   */
  function NextItems(items: seq<Item>, time: nat): (r: seq<string>)
    ensures |r| == |NextUp(items, time)|
    ensures forall i :: 0 <= i < |r| ==> r[i] == NextUp(items, time)[i].name
    ensures forall x :: x in items && x.duration < time && x.duration == Longest(Pending(items, time)) ==>
      x.name in r
    ensures forall i :: 0 <= i < |r| ==>
      (exists x :: x in items && x.duration < time && x.duration == Longest(Pending(items, time)) && x.name == r[i])
    ensures |r| == 0 <==> |Pending(items, time)| == 0
  {
    var up := NextUp(items, time);
    assert forall i :: 0 <= i < |up| ==> up[i] in up;
    NamesCover(up);
    Names(up)
  }

  /**
   The wait shown after "in": 0 when nothing is pending; otherwise the clock
   minus the longest pending duration, positive, and no longer than the wait
   of any pending item.
   */
  function NextItemTimer(items: seq<Item>, time: nat): (r: int)
    ensures |Pending(items, time)| == 0 ==> r == 0
    ensures |Pending(items, time)| > 0 ==> r == time - Longest(Pending(items, time)) > 0
    ensures forall x :: x in items && x.duration < time ==> 0 < r <= time - x.duration
  {
    var p := Pending(items, time);
    if |items| == 0 then 0
    else
      var s := Sort(Descending, p);
      if |s| == 0 then
        assert |p| == 0 by {
          SortMembers(Descending, p);
        }
        0
      else
        SortedLongest(p);
        var i :| 0 <= i < |p| && p[i].duration == Longest(p);
        assert p[i] in p;
        time - s[0].duration
  }
}
