/**
 The start-of-cooking alerts of the item list. After every change of the items
 or the clock, each item whose begin-in value is exactly 0 while the timer runs
 rings once; the list remembers the positions that have rung and never rings a
 remembered position again.
 */
module Alerts {
  import opened Items

  /** The remembered positions after a pass, and the positions that rang in it, in order. */
  datatype Pass = Pass(played: set<nat>, rang: seq<nat>)

  /** Strictly increasing positions. */
  predicate Increasing(s: seq<nat>)
  {
    forall a, b :: 0 <= a < b < |s| ==> s[a] < s[b]
  }

  /** No position occurs twice. */
  predicate NoRepeats(s: seq<nat>)
  {
    forall a, b :: 0 <= a < b < |s| ==> s[a] != s[b]
  }

  /** The positions occurring in `s`. */
  function Members(s: seq<nat>): set<nat>
  {
    set i | i in s
  }

  /** The `forEach` over the items, from position `from` to the end. */
  function Scan(items: seq<Item>, time: nat, active: bool, played: set<nat>, from: nat): (r: Pass)
    requires from <= |items|
    ensures forall i :: i in r.rang <==>
      from <= i < |items| && items[i].duration == time && active && i !in played
    ensures r.played == played + Members(r.rang)
    ensures Increasing(r.rang)
    ensures forall k :: 0 <= k < |r.rang| ==> from <= r.rang[k]
    ensures !active ==> r == Pass(played, [])
    decreases |items| - from
  {
    if from == |items| then Pass(played, [])
    else
      var rings := time - items[from].duration == 0 && from !in played && active;
      var next := if rings then played + {from} else played;
      var rest := Scan(items, time, active, next, from + 1);
      if rings then Pass(rest.played, [from] + rest.rang) else rest
  }

  /**
   One run of the alert effect: position `i` rings exactly when its begin-in
   value is 0, the timer is running and `i` has not rung before; the rung
   positions are added to the remembered set and nothing is removed from it.
   */
  function AlertPass(items: seq<Item>, time: nat, active: bool, played: set<nat>): (r: Pass)
    ensures played <= r.played
    ensures forall i :: i in r.rang <==>
      0 <= i < |items| && items[i].duration == time && active && i !in played
    ensures r.played == played + Members(r.rang)
    ensures NoRepeats(r.rang)
    ensures !active ==> r == Pass(played, [])
  {
    Scan(items, time, active, played, 0)
  }

  /**
   Two runs in a row: when the first run's positions are new and the second
   run's positions are new after the first, no position occurs twice overall.
   */
  lemma Join(played: set<nat>, first: seq<nat>, between: set<nat>, rest: seq<nat>)
    requires NoRepeats(first) && NoRepeats(rest)
    requires forall k :: 0 <= k < |first| ==> first[k] !in played
    requires between == played + Members(first)
    requires forall k :: 0 <= k < |rest| ==> rest[k] !in between
    ensures NoRepeats(first + rest)
    ensures forall k :: 0 <= k < |first + rest| ==> (first + rest)[k] !in played
    ensures Members(first + rest) == Members(first) + Members(rest)
  {
    var all := first + rest;
    forall a, b | 0 <= a < b < |all|
      ensures all[a] != all[b]
    {
      if b >= |first| {
        assert all[b] == rest[b - |first|];
        if a < |first| {
          assert all[a] in Members(first);
        } else {
          assert all[a] == rest[a - |first|];
        }
      }
    }
    forall k | 0 <= k < |all|
      ensures all[k] !in played
    {
      if k >= |first| {
        assert all[k] == rest[k - |first|];
      }
    }
  }

  /** The state the alert effect sees on one run: the items, the clock and the run flag. */
  datatype Frame = Frame(items: seq<Item>, time: nat, active: bool)

  /**
   The alert effect run over a series of frames, threading the remembered set.
   Whatever the frames, no position rings twice and no remembered position rings.
   */
  function Replay(played: set<nat>, frames: seq<Frame>): (r: Pass)
    ensures played <= r.played
    ensures r.played == played + Members(r.rang)
    ensures NoRepeats(r.rang)
    ensures forall k :: 0 <= k < |r.rang| ==> r.rang[k] !in played
    decreases |frames|
  {
    if |frames| == 0 then Pass(played, [])
    else
      var f := frames[0];
      var first := AlertPass(f.items, f.time, f.active, played);
      var rest := Replay(first.played, frames[1..]);
      var rang := first.rang + rest.rang;
      Join(played, first.rang, first.played, rest.rang);
      Pass(rest.played, rang)
  }

  /** The identities of the items from position `from` on whose start is at `time`. */
  function StartIds(items: seq<Item>, time: nat, from: nat): set<Id>
    requires from <= |items|
  {
    set i | from <= i < |items| && items[i].duration == time :: items[i].id
  }

  /** StartIds takes the item at `from`, if it starts now, and those after it. */
  lemma StartIdsStep(items: seq<Item>, time: nat, from: nat)
    requires from < |items|
    ensures StartIds(items, time, from)
      == (if items[from].duration == time then {items[from].id} else {}) + StartIds(items, time, from + 1)
  {
  }

  /** A sequence has no members exactly when it is empty. */
  lemma MembersEmpty(s: seq<nat>)
    ensures Members(s) == {} <==> s == []
  {
    if |s| > 0 {
      assert s[0] in Members(s);
    }
  }

  /** The members of a sequence with one more position in front. */
  lemma MembersCons(x: nat, s: seq<nat>)
    ensures Members([x] + s) == {x} + Members(s)
  {
    assert forall i :: i in [x] + s <==> i == x || i in s;
  }

  /**
   The alert run keyed by item identity instead of list position: the rung
   identities are exactly those of the items that start now and have not
   rung before, each once, and only while the clock runs. Removing or editing
   other items cannot move an item onto a remembered key.
   */
  function ScanById(items: seq<Item>, time: nat, active: bool, heard: set<Id>, from: nat): (r: Pass)
    requires from <= |items|
    ensures Members(r.rang) == if active then StartIds(items, time, from) - heard else {}
    ensures r.played == heard + Members(r.rang)
    ensures NoRepeats(r.rang)
    ensures forall k :: 0 <= k < |r.rang| ==> r.rang[k] !in heard
    decreases |items| - from
  {
    if from == |items| then Pass(heard, [])
    else
      var id := items[from].id;
      var rings := time - items[from].duration == 0 && id !in heard && active;
      var next := if rings then heard + {id} else heard;
      var rest := ScanById(items, time, active, next, from + 1);
      StartIdsStep(items, time, from);
      if rings then
        var rang := [id] + rest.rang;
        MembersCons(id, rest.rang);
        assert forall k :: 1 <= k < |rang| ==> rang[k] == rest.rang[k - 1];
        Pass(rest.played, rang)
      else rest
  }

  /** One run of the identity-keyed alert effect over the whole list. */
  function AlertPassById(items: seq<Item>, time: nat, active: bool, heard: set<Id>): (r: Pass)
    ensures Members(r.rang) == if active then StartIds(items, time, 0) - heard else {}
    ensures r.played == heard + Members(r.rang)
    ensures NoRepeats(r.rang)
    ensures forall k :: 0 <= k < |r.rang| ==> r.rang[k] !in heard
  {
    ScanById(items, time, active, heard, 0)
  }

  /**
   The identity-keyed alert effect over a series of frames: whatever items
   are removed, added or edited between runs, no item identity rings twice,
   and no identity heard beforehand rings.
   */
  function ReplayById(heard: set<Id>, frames: seq<Frame>): (r: Pass)
    ensures heard <= r.played
    ensures r.played == heard + Members(r.rang)
    ensures NoRepeats(r.rang)
    ensures forall k :: 0 <= k < |r.rang| ==> r.rang[k] !in heard
    decreases |frames|
  {
    if |frames| == 0 then Pass(heard, [])
    else
      var f := frames[0];
      var first := AlertPassById(f.items, f.time, f.active, heard);
      var rest := ReplayById(first.played, frames[1..]);
      Join(heard, first.rang, first.played, rest.rang);
      Pass(rest.played, first.rang + rest.rang)
  }

  /** The starting identities of a list include those of any list drawn from its items. */
  lemma StartIdsWithin(items: seq<Item>, fewer: seq<Item>, time: nat)
    requires forall x :: x in fewer ==> x in items
    ensures StartIds(fewer, time, 0) <= StartIds(items, time, 0)
  {
    forall id | id in StartIds(fewer, time, 0)
      ensures id in StartIds(items, time, 0)
    {
      var i :| 0 <= i < |fewer| && fewer[i].duration == time && fewer[i].id == id;
      assert fewer[i] in items;
      var j :| 0 <= j < |items| && items[j] == fewer[i];
    }
  }

  /** An item of the list that starts at `time` has its identity among the starting ones. */
  lemma StartIdsHas(items: seq<Item>, x: Item)
    requires x in items
    ensures x.id in StartIds(items, x.duration, 0)
  {
    var i :| 0 <= i < |items| && items[i] == x;
  }

  /**
   Removing any item while the clock stands, replayed with identities: the
   alert run that follows the removal rings nothing new, wherever the removal
   moves the remaining items, so every item that rang before it rings once.
   */
  lemma RemovalRingsOnceById(items: seq<Item>, time: nat, heard: set<Id>, id: Id)
    ensures ReplayById(heard, [Frame(items, time, true), Frame(Without(items, id), time, true)]).rang
      == AlertPassById(items, time, true, heard).rang
  {
    var frames := [Frame(items, time, true), Frame(Without(items, id), time, true)];
    var first := AlertPassById(items, time, true, heard);
    StartIdsWithin(items, Without(items, id), time);
    var second := AlertPassById(Without(items, id), time, true, first.played);
    assert Members(second.rang) == {};
    MembersEmpty(second.rang);
    assert frames[1..] == [Frame(Without(items, id), time, true)];
    assert ReplayById(second.played, []) == Pass(second.played, []);
    assert ReplayById(first.played, frames[1..]).rang == [] + [];
    assert ReplayById(heard, frames).rang == first.rang + [];
  }

  /**
   Removing a rung item, replayed with identities: when the items have unique
   identities, an item that stays, has not rung and did not start at the
   first run rings when its own start arrives after the removal, whatever
   position the removal moves it to.
   */
  lemma RemovalKeepsNextById(items: seq<Item>, before: nat, heard: set<Id>, id: Id, x: Item)
    requires UniqueIds(items)
    requires x in items && x.id != id && x.id !in heard && x.duration != before
    ensures x.id in ReplayById(heard, [Frame(items, before, true), Frame(Without(items, id), x.duration, true)]).rang
  {
    var frames := [Frame(items, before, true), Frame(Without(items, id), x.duration, true)];
    var first := AlertPassById(items, before, true, heard);
    assert x.id !in StartIds(items, before, 0) by {
      var j :| 0 <= j < |items| && items[j] == x;
      assert forall i :: 0 <= i < |items| && items[i].duration == before ==> i != j;
    }
    StartIdsHas(Without(items, id), x);
    var second := AlertPassById(Without(items, id), x.duration, true, first.played);
    assert x.id in Members(second.rang);
    assert frames[1..] == [Frame(Without(items, id), x.duration, true)];
    assert ReplayById(second.played, []) == Pass(second.played, []);
    assert ReplayById(first.played, frames[1..]).rang == second.rang + [];
  }
}
