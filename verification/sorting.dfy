/**
 Ordering items by duration. The source sorts with `Array.prototype.sort` and
 a duration-difference comparator; that sort is stable, so items of equal
 duration keep their list order. A stable insertion sort gives the same result.
 */
module Sorting {
  import opened Lists
  import opened Items

  /** The two orders the timer uses: shortest first and longest first. */
  datatype Order = Ascending | Descending

  /** The sort key: the duration, negated for the longest-first order. */
  function Key(o: Order, x: Item): int
  {
    match o
    case Ascending => x.duration
    case Descending => 0 - x.duration
  }

  /**
   `a` strictly precedes `b` in order `o`: the source's comparator
   (`a.duration - b.duration` ascending, `b.duration - a.duration` descending)
   is negative.
   */
  predicate Before(o: Order, a: Item, b: Item)
  {
    Key(o, a) < Key(o, b)
  }

  /** No later item strictly precedes an earlier one. */
  predicate Sorted(o: Order, s: seq<Item>)
  {
    forall i, j :: 0 <= i < j < |s| ==> Key(o, s[i]) <= Key(o, s[j])
  }

  /** `y` may stand in front of every item of `s`. */
  predicate Leads(o: Order, y: Item, s: seq<Item>)
  {
    forall i :: 0 <= i < |s| ==> Key(o, y) <= Key(o, s[i])
  }

  /** Inserts `x` after every item that strictly precedes it and before all the others. */
  function Insert(o: Order, x: Item, s: seq<Item>): (r: seq<Item>)
    ensures multiset(r) == multiset(s) + multiset{x}
  {
    if |s| == 0 then [x]
    else if Before(o, s[0], x) then
      assert s == [s[0]] + s[1..];
      [s[0]] + Insert(o, x, s[1..])
    else
      [x] + s
  }

  /** An item that leads a list and does not come after `x` still leads it once `x` is inserted. */
  lemma {:induction false} InsertLeads(o: Order, x: Item, s: seq<Item>, y: Item)
    requires Leads(o, y, s)
    requires Key(o, y) <= Key(o, x)
    ensures Leads(o, y, Insert(o, x, s))
  {
    if |s| > 0 && Before(o, s[0], x) {
      InsertLeads(o, x, s[1..], y);
    }
  }

  /** A leading item followed by a sorted list is sorted. */
  lemma ConsSorted(o: Order, y: Item, s: seq<Item>)
    requires Leads(o, y, s)
    requires Sorted(o, s)
    ensures Sorted(o, [y] + s)
  {
    var r := [y] + s;
    forall i, j | 0 <= i < j < |r|
      ensures Key(o, r[i]) <= Key(o, r[j])
    {
      assert r[j] == s[j - 1];
      if i > 0 {
        assert r[i] == s[i - 1];
      }
    }
  }

  /** Inserting into a sorted list keeps it sorted. */
  lemma {:induction false} InsertSorted(o: Order, x: Item, s: seq<Item>)
    requires Sorted(o, s)
    ensures Sorted(o, Insert(o, x, s))
  {
    if |s| == 0 {
      assert Insert(o, x, s) == [x];
    } else if Before(o, s[0], x) {
      var tail := s[1..];
      assert Sorted(o, tail) by {
        assert forall i :: 0 <= i < |tail| ==> tail[i] == s[i + 1];
      }
      assert Leads(o, s[0], tail) by {
        assert forall i :: 0 <= i < |tail| ==> tail[i] == s[i + 1];
      }
      InsertSorted(o, x, tail);
      InsertLeads(o, x, tail, s[0]);
      ConsSorted(o, s[0], Insert(o, x, tail));
    } else {
      assert Leads(o, x, s);
      ConsSorted(o, x, s);
    }
  }

  /** Insertion sort: a sorted permutation of `s`. */
  function Sort(o: Order, s: seq<Item>): (r: seq<Item>)
    ensures multiset(r) == multiset(s)
    ensures Sorted(o, r)
  {
    if |s| == 0 then []
    else
      assert s == [s[0]] + s[1..];
      var rest := Sort(o, s[1..]);
      InsertSorted(o, s[0], rest);
      Insert(o, s[0], rest)
  }

  /** Sorting neither adds nor drops an item. */
  lemma SortMembers(o: Order, s: seq<Item>)
    ensures forall x :: x in Sort(o, s) <==> x in s
  {
    var r := Sort(o, s);
    forall x
      ensures x in r <==> x in s
    {
      assert x in r <==> x in multiset(r);
      assert x in s <==> x in multiset(s);
    }
  }

  /** Filtering a one-item list keeps the item exactly when it passes. */
  lemma FilterSingle(y: Item, k: nat)
    ensures Filter([y], HasDuration(k)) == if y.duration == k then [y] else []
  {
    assert [y][1..] == [];
  }

  /** Two lists of which one is empty can be exchanged in front of a third. */
  lemma Commute(a: seq<Item>, b: seq<Item>, c: seq<Item>)
    requires a == [] || b == []
    ensures b + (a + c) == a + (b + c)
  {
  }

  /** Moving `x` past an item `y` of another duration does not change the order within any one duration. */
  lemma SwapStable(x: Item, y: Item, t: seq<Item>, rest: seq<Item>, k: nat)
    requires x.duration != y.duration
    requires Filter(rest, HasDuration(k)) == Filter([x], HasDuration(k)) + Filter(t, HasDuration(k))
    ensures Filter([y] + rest, HasDuration(k)) == Filter([x], HasDuration(k)) + Filter([y] + t, HasDuration(k))
  {
    var p := HasDuration(k);
    FilterAppend([y], rest, p);
    FilterAppend([y], t, p);
    FilterSingle(x, k);
    FilterSingle(y, k);
    Commute(Filter([x], p), Filter([y], p), Filter(t, p));
  }

  /** Inserting `x` adds it in front of the items of its own duration and moves no other item of that duration. */
  lemma {:induction false} InsertStable(o: Order, x: Item, s: seq<Item>, k: nat)
    ensures Filter(Insert(o, x, s), HasDuration(k)) == Filter([x], HasDuration(k)) + Filter(s, HasDuration(k))
  {
    var p := HasDuration(k);
    if |s| == 0 {
      assert Insert(o, x, s) == [x];
      assert Filter(s, p) == [];
    } else if Before(o, s[0], x) {
      var y, t := s[0], s[1..];
      assert Insert(o, x, s) == [y] + Insert(o, x, t);
      assert s == [y] + t;
      InsertStable(o, x, t, k);
      SwapStable(x, y, t, Insert(o, x, t), k);
    } else {
      assert Insert(o, x, s) == [x] + s;
      FilterAppend([x], s, p);
    }
  }

  /** Sort is stable: for every duration, the items of that duration appear in their original order. */
  lemma {:induction false} SortStable(o: Order, s: seq<Item>, k: nat)
    ensures Filter(Sort(o, s), HasDuration(k)) == Filter(s, HasDuration(k))
  {
    if |s| > 0 {
      assert s == [s[0]] + s[1..];
      SortStable(o, s[1..], k);
      InsertStable(o, s[0], Sort(o, s[1..]), k);
      FilterAppend([s[0]], s[1..], HasDuration(k));
    }
  }
}
