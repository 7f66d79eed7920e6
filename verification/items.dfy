/**
 The cooking items and the list operations of the item store: append on add,
 removal by identity, replacement by identity on edit, and the longest duration
 that sets the master clock's full scale.
 */
module Items {
  import opened Lists

  /** Stands in for object identity: the source compares items with `===`. */
  type Id = nat

  /** A cooking item; `duration` is its cook time in seconds. */
  datatype Item = Item(id: Id, name: string, duration: nat)

  /** Durations are entered in whole minutes and stored in seconds. */
  function Seconds(minutes: nat): (s: nat)
    ensures s % 60 == 0 && s / 60 == minutes
  {
    minutes * 60
  }

  /** The identities present in `items`. */
  function Ids(items: seq<Item>): set<Id>
  {
    set i | 0 <= i < |items| :: items[i].id
  }

  /** No two positions hold the same item identity. */
  predicate UniqueIds(items: seq<Item>)
  {
    forall i, j :: 0 <= i < |items| && 0 <= j < |items| && i != j ==> items[i].id != items[j].id
  }

  /** Selects the items whose identity is not `id`. */
  function NotId(id: Id): Item -> bool
  {
    (x: Item) => x.id != id
  }

  /** Selects the items whose duration is exactly `k` seconds. */
  function HasDuration(k: nat): Item -> bool
  {
    (x: Item) => x.duration == k
  }

  /** The names of `items`, position by position. */
  function Names(items: seq<Item>): (r: seq<string>)
    ensures |r| == |items|
    ensures forall i :: 0 <= i < |items| ==> r[i] == items[i].name
  {
    seq(|items|, i requires 0 <= i < |items| => items[i].name)
  }

  /** Every item's name is among the names of its list. */
  lemma NamesCover(items: seq<Item>)
    ensures forall x :: x in items ==> x.name in Names(items)
  {
    forall x | x in items
      ensures x.name in Names(items)
    {
      var j :| 0 <= j < |items| && items[j] == x;
      assert Names(items)[j] == x.name;
    }
  }

  /** Removal by identity: every item whose identity is `id` goes, every other item stays. */
  function Without(items: seq<Item>, id: Id): (r: seq<Item>)
    ensures forall x :: x in r <==> x in items && x.id != id
    ensures Ids(r) == Ids(items) - {id}
  {
    var r := Filter(items, NotId(id));
    assert forall i :: 0 <= i < |r| ==> r[i] in items && r[i].id != id;
    assert forall x :: x in items && x.id != id ==> x in r by {
      forall x | x in items && x.id != id
        ensures x in r
      {
        var i :| 0 <= i < |items| && items[i] == x;
        assert NotId(id)(items[i]);
      }
    }
    r
  }

  /** Removing an identity that is not present leaves the list unchanged. */
  lemma WithoutAbsent(items: seq<Item>, id: Id)
    requires forall i :: 0 <= i < |items| ==> items[i].id != id
    ensures Without(items, id) == items
  {
    FilterKeepsAll(items, NotId(id));
  }

  /** Removal keeps the surviving items in their original order: it distributes over concatenation. */
  lemma WithoutAppend(a: seq<Item>, b: seq<Item>, id: Id)
    ensures Without(a + b, id) == Without(a, id) + Without(b, id)
  {
    FilterAppend(a, b, NotId(id));
  }

  /** Removing the identity of `x` from a list where only `x` carries it leaves the items around `x`. */
  lemma WithoutSplit(pre: seq<Item>, x: Item, post: seq<Item>)
    requires forall j :: 0 <= j < |pre| ==> pre[j].id != x.id
    requires forall j :: 0 <= j < |post| ==> post[j].id != x.id
    ensures Without(pre + [x] + post, x.id) == pre + post
  {
    var px := pre + [x];
    WithoutAbsent(pre, x.id);
    WithoutAbsent(post, x.id);
    assert Without([x], x.id) == [] by {
      assert Filter([x], NotId(x.id)) == [];
    }
    WithoutAppend(pre, [x], x.id);
    assert Without(px, x.id) == pre;
    WithoutAppend(px, post, x.id);
  }

  /** With unique identities, removing a present item deletes exactly its one position. */
  lemma WithoutUnique(items: seq<Item>, k: nat)
    requires UniqueIds(items)
    requires k < |items|
    ensures Without(items, items[k].id) == items[..k] + items[k+1..]
    ensures |Without(items, items[k].id)| == |items| - 1
  {
    var pre, post := items[..k], items[k+1..];
    assert items == pre + [items[k]] + post;
    assert forall j :: 0 <= j < |post| ==> post[j] == items[k + 1 + j];
    WithoutSplit(pre, items[k], post);
  }

  /** A list of unique identities stays so when an item with a new identity is put in front. */
  lemma ConsUnique(x: Item, rest: seq<Item>)
    requires UniqueIds(rest)
    requires x.id !in Ids(rest)
    ensures UniqueIds([x] + rest)
  {
    var r := [x] + rest;
    forall i, j | 0 <= i < |r| && 0 <= j < |r| && i != j
      ensures r[i].id != r[j].id
    {
      if i == 0 {
        assert r[j] == rest[j - 1];
      } else if j == 0 {
        assert r[i] == rest[i - 1];
      } else {
        assert r[i] == rest[i - 1] && r[j] == rest[j - 1];
      }
    }
  }

  /** The first item of a list of unique identities does not share its identity with the rest, which are unique too. */
  lemma UnconsUnique(items: seq<Item>)
    requires UniqueIds(items)
    requires |items| > 0
    ensures UniqueIds(items[1..])
    ensures items[0].id !in Ids(items[1..])
  {
    var tail := items[1..];
    assert forall i :: 0 <= i < |tail| ==> tail[i] == items[i + 1];
  }

  /** Removal never creates a duplicate identity. */
  lemma {:induction false} WithoutKeepsUnique(items: seq<Item>, id: Id)
    requires UniqueIds(items)
    ensures UniqueIds(Without(items, id))
  {
    if |items| > 0 {
      var x, tail := items[0], items[1..];
      UnconsUnique(items);
      WithoutKeepsUnique(tail, id);
      var rest := Without(tail, id);
      assert x.id !in Ids(rest);
      assert items == [x] + tail;
      WithoutAppend([x], tail, id);
      if x.id != id {
        assert Without([x], id) == [x] by {
          assert Filter([x], NotId(id)) == [x];
        }
        ConsUnique(x, rest);
      } else {
        assert Without([x], id) == [] by {
          assert Filter([x], NotId(id)) == [];
        }
      }
    }
  }

  /**
   Edit by identity: every item whose identity is `id` takes the new name and
   duration, every other item and the order of the list stay as they were.
   */
  function Replace(items: seq<Item>, id: Id, name: string, duration: nat): (r: seq<Item>)
    ensures |r| == |items|
    ensures forall i :: 0 <= i < |items| ==> r[i].id == items[i].id
    ensures forall i :: 0 <= i < |items| && items[i].id != id ==> r[i] == items[i]
    ensures forall i :: 0 <= i < |items| && items[i].id == id ==> r[i].name == name && r[i].duration == duration
  {
    seq(|items|, i requires 0 <= i < |items| =>
      if items[i].id == id then items[i].(name := name, duration := duration) else items[i])
  }

  /** Editing leaves the set of identities, and hence their uniqueness, intact. */
  lemma ReplaceKeepsIds(items: seq<Item>, id: Id, name: string, duration: nat)
    ensures Ids(Replace(items, id, name, duration)) == Ids(items)
    ensures UniqueIds(items) ==> UniqueIds(Replace(items, id, name, duration))
  {
    var r := Replace(items, id, name, duration);
    assert forall x :: x in Ids(r) ==> x in Ids(items);
    assert forall x :: x in Ids(items) ==> x in Ids(r) by {
      forall x | x in Ids(items)
        ensures x in Ids(r)
      {
        var i :| 0 <= i < |items| && items[i].id == x;
        assert r[i].id == x;
      }
    }
  }

  /** Editing an identity that is not present leaves the list unchanged. */
  lemma ReplaceAbsent(items: seq<Item>, id: Id, name: string, duration: nat)
    requires id !in Ids(items)
    ensures Replace(items, id, name, duration) == items
  {
    var r := Replace(items, id, name, duration);
    forall i | 0 <= i < |items|
      ensures r[i] == items[i]
    {
      assert items[i].id in Ids(items);
    }
  }

  /** Saving the same edit twice gives the same list as saving it once. */
  lemma ReplaceIdempotent(items: seq<Item>, id: Id, name: string, duration: nat)
    ensures Replace(Replace(items, id, name, duration), id, name, duration) == Replace(items, id, name, duration)
  {
  }

  /** Removing an edited item gives the same list as removing it unedited. */
  lemma {:induction false} WithoutReplace(items: seq<Item>, id: Id, name: string, duration: nat)
    ensures Without(Replace(items, id, name, duration), id) == Without(items, id)
  {
    if |items| > 0 {
      var r := Replace(items, id, name, duration);
      assert r == [r[0]] + r[1..];
      assert items == [items[0]] + items[1..];
      assert r[1..] == Replace(items[1..], id, name, duration);
      WithoutAppend([r[0]], r[1..], id);
      WithoutAppend([items[0]], items[1..], id);
      WithoutReplace(items[1..], id, name, duration);
      assert Without([r[0]], id) == Without([items[0]], id) by {
        assert Filter([r[0]], NotId(id)) == if r[0].id != id then [r[0]] else [];
        assert Filter([items[0]], NotId(id)) == if items[0].id != id then [items[0]] else [];
      }
    }
  }

  /**
   The longest duration in the list: the master clock's full scale. An empty
   list gives 0 (the source yields `-Infinity` here; see SpreadMax in Kitchen).
   */
  function Longest(items: seq<Item>): (m: nat)
    ensures forall i :: 0 <= i < |items| ==> items[i].duration <= m
    ensures |items| == 0 ==> m == 0
    ensures |items| > 0 ==> exists i :: 0 <= i < |items| && items[i].duration == m
  {
    if |items| == 0 then 0
    else
      var rest := Longest(items[1..]);
      assert forall i :: 1 <= i < |items| ==> items[i] == items[1..][i - 1];
      if items[0].duration >= rest then items[0].duration
      else
        assert exists i :: 0 <= i < |items[1..]| && items[1..][i].duration == rest;
        rest
  }

  /** Longest is a maximum that only depends on which items are present. */
  lemma LongestMembers(a: seq<Item>, b: seq<Item>)
    requires forall x :: x in a <==> x in b
    ensures Longest(a) == Longest(b)
  {
    if |a| > 0 {
      var i :| 0 <= i < |a| && a[i].duration == Longest(a);
      assert a[i] in b;
    }
    if |b| > 0 {
      var j :| 0 <= j < |b| && b[j].duration == Longest(b);
      assert b[j] in a;
    }
  }

  /** Appending an item raises the longest duration to at least that item's: the result is the larger of the two. */
  lemma {:induction false} LongestAppend(items: seq<Item>, x: Item)
    ensures Longest(items + [x]) == if Longest(items) >= x.duration then Longest(items) else x.duration
  {
    var all := items + [x];
    var m := Longest(all);
    assert forall i :: 0 <= i < |items| ==> items[i] == all[i];
    assert all[|items|] == x;
    var j :| 0 <= j < |all| && all[j].duration == m;
    if |items| > 0 {
      var k :| 0 <= k < |items| && items[k].duration == Longest(items);
      assert all[k].duration <= m;
    }
  }
}
