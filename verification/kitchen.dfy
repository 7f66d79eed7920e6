/**
 The timer application as a whole: the item list, the master clock with its
 run flag, the remembered alert positions of the item list, and the source of
 fresh item identities. Each button handler and each second of the countdown
 is a function from state to state.
 */
module Kitchen {
  import opened Lists
  import opened Items
  import opened Countdown
  import opened Alerts
  import opened Sorting
  import opened Schedule

  datatype State = State(items: seq<Item>, timer: Timer, played: set<nat>, nextId: Id)

  /** Identities are unique and all below the next one to be handed out. */
  predicate Valid(s: State)
  {
    && UniqueIds(s.items)
    && forall i :: 0 <= i < |s.items| ==> s.items[i].id < s.nextId
  }

  /** No items, the clock at 0 and stopped, nothing rung. */
  function Init(): (s: State)
    ensures Valid(s)
    ensures |s.items| == 0 && s.timer == Timer(0, false) && s.played == {}
  {
    State([], Timer(0, false), {}, 0)
  }

  /**
   Adding an item appends it with its duration converted to seconds and raises
   the clock to at least that duration; the clock never shrinks on add.
   */
  function AddItem(s: State, name: string, minutes: nat): (r: State)
    ensures |r.items| == |s.items| + 1
    ensures r.items[..|s.items|] == s.items
    ensures r.items[|s.items|].name == name && r.items[|s.items|].duration == minutes * 60
    ensures r.items[|s.items|].id !in Ids(s.items) || !Valid(s)
    ensures r.timer.time >= s.timer.time && r.timer.time >= minutes * 60
    ensures r.timer.time == s.timer.time || r.timer.time == minutes * 60
    ensures r.timer.active == s.timer.active && r.played == s.played
    ensures Valid(s) ==> Valid(r)
  {
    var d := Seconds(minutes);
    var items := s.items + [Item(s.nextId, name, d)];
    assert items[..|s.items|] == s.items;
    State(items, Timer(if s.timer.time >= d then s.timer.time else d, s.timer.active), s.played, s.nextId + 1)
  }

  /** A clock set to the longest item stays at the longest item when an item is added. */
  lemma AddKeepsFullScale(s: State, name: string, minutes: nat)
    requires s.timer.time == Longest(s.items)
    ensures AddItem(s, name, minutes).timer.time == Longest(AddItem(s, name, minutes).items)
  {
    LongestAppend(s.items, Item(s.nextId, name, Seconds(minutes)));
  }

  /** Removing an item drops every item with that identity and changes nothing else in the state. */
  function RemoveItem(s: State, id: Id): (r: State)
    ensures forall x :: x in r.items <==> x in s.items && x.id != id
    ensures id !in Ids(r.items)
    ensures r.timer == s.timer && r.played == s.played && r.nextId == s.nextId
  {
    State(Without(s.items, id), s.timer, s.played, s.nextId)
  }

  /** Removal keeps identities unique and below the next one. */
  lemma RemoveKeepsValid(s: State, id: Id)
    requires Valid(s)
    ensures Valid(RemoveItem(s, id))
  {
    WithoutKeepsUnique(s.items, id);
    var r := RemoveItem(s, id).items;
    assert forall i :: 0 <= i < |r| ==> r[i] in s.items;
  }

  /**
   In a valid state removal deletes exactly the one position holding the
   identity, keeping the rest in order; an absent identity changes nothing.
   */
  lemma RemoveExact(s: State, id: Id)
    requires Valid(s)
    ensures forall k :: 0 <= k < |s.items| && s.items[k].id == id ==>
      RemoveItem(s, id).items == s.items[..k] + s.items[k+1..]
    ensures id !in Ids(s.items) ==> RemoveItem(s, id) == s
  {
    forall k | 0 <= k < |s.items| && s.items[k].id == id
      ensures RemoveItem(s, id).items == s.items[..k] + s.items[k+1..]
    {
      WithoutUnique(s.items, k);
    }
    if id !in Ids(s.items) {
      WithoutAbsent(s.items, id);
    }
  }

  /**
   Saving an edit gives the item with identity `id` the new name and duration
   in seconds and leaves every other item in place. A stopped clock is then set
   to the longest duration of the edited list; a running clock is untouched.
   */
  function SaveItem(s: State, id: Id, name: string, minutes: nat): (r: State)
    ensures |r.items| == |s.items|
    ensures forall i :: 0 <= i < |s.items| && s.items[i].id != id ==> r.items[i] == s.items[i]
    ensures forall i :: 0 <= i < |s.items| && s.items[i].id == id ==>
      r.items[i] == Item(id, name, minutes * 60)
    ensures s.timer.active ==> r.timer == s.timer
    ensures !s.timer.active ==> !r.timer.active
    ensures !s.timer.active ==> forall i :: 0 <= i < |r.items| ==> r.items[i].duration <= r.timer.time
    ensures !s.timer.active && |r.items| > 0 ==>
      exists i :: 0 <= i < |r.items| && r.items[i].duration == r.timer.time
    ensures r.played == s.played && r.nextId == s.nextId
    ensures Valid(s) ==> Valid(r)
  {
    var items := Replace(s.items, id, name, Seconds(minutes));
    ReplaceKeepsIds(s.items, id, name, Seconds(minutes));
    var timer := if s.timer.active then s.timer else Timer(Longest(items), s.timer.active);
    State(items, timer, s.played, s.nextId)
  }

  /** The reset button: stop, and set the clock to the longest item (0 when there are none). */
  function ResetTimer(s: State): (r: State)
    ensures !r.timer.active
    ensures r.timer.time == Longest(s.items)
    ensures r.items == s.items && r.played == s.played && r.nextId == s.nextId
  {
    State(s.items, Reset(s.items), s.played, s.nextId)
  }

  /** Resetting twice is resetting once. */
  lemma ResetIdempotent(s: State)
    ensures ResetTimer(ResetTimer(s)) == ResetTimer(s)
  {
  }

  /** The play/pause button. */
  function PlayPause(s: State): (r: State)
    ensures r.timer.active != s.timer.active
    ensures r.timer.time == s.timer.time && r.items == s.items && r.played == s.played
    ensures r.nextId == s.nextId
    ensures Valid(s) ==> Valid(r)
  {
    State(s.items, Toggle(s.timer), s.played, s.nextId)
  }

  /** What one second of the countdown produced: the new state, the final bell, and the item alerts by position. */
  datatype Second = Second(state: State, bell: bool, rang: seq<nat>)

  /**
   The item list's alert effect, run after every change of the items or of the
   clock (a button handler or a tick): the positions whose item starts now ring
   if the clock runs and they have not rung before, and are remembered. With
   the clock stopped it rings nothing and changes nothing; this is the case
   after add, reset and the set-timer prompt, whose buttons are disabled while
   the clock runs.
   */
  function Alert(s: State): (r: Second)
    ensures r.state.items == s.items && r.state.timer == s.timer && r.state.nextId == s.nextId
    ensures !r.bell
    ensures forall i :: i in r.rang <==>
      0 <= i < |s.items| && s.items[i].duration == s.timer.time && s.timer.active && i !in s.played
    ensures r.state.played == s.played + Members(r.rang)
    ensures NoRepeats(r.rang)
    ensures !s.timer.active ==> r == Second(s, false, [])
  {
    var pass := AlertPass(s.items, s.timer.time, s.timer.active, s.played);
    Second(State(s.items, s.timer, pass.played, s.nextId), false, pass.rang)
  }

  /**
   An edit made while the clock runs that gives an unplayed item a duration
   equal to the clock rings that item's position at once: the edit buttons
   stay enabled while running, and the edit re-runs the alert effect.
   */
  lemma EditWhileRunning(s: State, k: nat, name: string, minutes: nat)
    requires k < |s.items| && s.timer.active && minutes * 60 == s.timer.time && k !in s.played
    ensures k in Alert(SaveItem(s, s.items[k].id, name, minutes)).rang
  {
  }

  /**
   One second: the clock effect ticks, and when the clock moved the item
   list's alert effect runs against the new clock and run flag.
   */
  function Step(s: State): (r: Second)
    ensures r.state.items == s.items && r.state.nextId == s.nextId
    ensures s.timer.active && s.timer.time > 0 ==> r.state.timer.time == s.timer.time - 1
    ensures !(s.timer.active && s.timer.time > 0) ==> r.state.timer.time == s.timer.time
    ensures r.state.timer.active <==> s.timer.active && s.timer.time > 1
    ensures r.bell <==> s.timer.active && s.timer.time == 1
    ensures forall i :: i in r.rang <==>
      0 <= i < |s.items| && s.items[i].duration == r.state.timer.time && r.state.timer.active && i !in s.played
    ensures r.state.played == s.played + Members(r.rang)
    ensures NoRepeats(r.rang)
  {
    var tock := Tick(s.timer);
    var ticked := State(s.items, tock.timer, s.played, s.nextId);
    var after := if tock.timer.time != s.timer.time then Alert(ticked) else Second(ticked, false, []);
    Second(after.state, tock.bell, after.rang)
  }

  /** The outcome of `n` seconds: the final state, the bells rung and all item alerts in order. */
  datatype Trace = Trace(state: State, bells: nat, rang: seq<nat>)

  function RunSeconds(s: State, n: nat): (r: Trace)
    ensures r.state.items == s.items
    ensures r.state.played == s.played + Members(r.rang)
    ensures NoRepeats(r.rang)
    ensures forall k :: 0 <= k < |r.rang| ==> r.rang[k] !in s.played
    decreases n
  {
    if n == 0 then Trace(s, 0, [])
    else
      var first := Step(s);
      var rest := RunSeconds(first.state, n - 1);
      var rang := first.rang + rest.rang;
      Join(s.played, first.rang, first.state.played, rest.rang);
      Trace(rest.state, rest.bells + (if first.bell then 1 else 0), rang)
  }

  /** The positions whose items start strictly inside a countdown from `time`, not yet rung. */
  function StartsWithin(items: seq<Item>, time: nat, played: set<nat>): set<nat>
  {
    set i | 0 <= i < |items| && 0 < items[i].duration < time && i !in played
  }

  /**
   A full countdown from `time` with the clock running: after `time` seconds
   the clock is at 0 and stopped, the bell has rung once, and every position
   whose item starts strictly inside the countdown has rung exactly once. An
   item whose duration equals the starting clock does not ring (pressing play
   does not re-run the alert effect), nor does one of duration 0 (the clock is
   already stopped at 0).
   */
  lemma {:induction false} FullCountdownAlerts(s: State, time: nat)
    requires time > 0 && s.timer == Timer(time, true)
    ensures RunSeconds(s, time).state.timer == Timer(0, false)
    ensures RunSeconds(s, time).bells == 1
    ensures Members(RunSeconds(s, time).rang) == StartsWithin(s.items, time, s.played)
    ensures NoRepeats(RunSeconds(s, time).rang)
    decreases time
  {
    var first := Step(s);
    var next := first.state;
    if time == 1 {
      assert Members(first.rang) == {};
      assert StartsWithin(s.items, time, s.played) == {};
    } else {
      assert next.timer == Timer(time - 1, true) && !first.bell;
      assert next.items == s.items;
      FullCountdownAlerts(next, time - 1);
      var now := Members(first.rang);
      assert now == set i | 0 <= i < |s.items| && s.items[i].duration == time - 1 && i !in s.played;
      assert StartsWithin(s.items, time, s.played)
        == now + StartsWithin(s.items, time - 1, next.played);
      assert Members(RunSeconds(s, time).rang) == now + Members(RunSeconds(next, time - 1).rang);
    }
  }

  /**
   A running countdown in which no item starts during the next `n` seconds
   runs them quietly: the clock is `n` lower and still running, no bell, no
   alert, and nothing new is remembered.
   */
  lemma {:induction false} QuietRun(s: State, n: nat)
    requires s.timer.active && n < s.timer.time
    requires forall i :: 0 <= i < |s.items| ==> !(s.timer.time - n <= s.items[i].duration < s.timer.time)
    ensures RunSeconds(s, n) == Trace(State(s.items, Timer(s.timer.time - n, true), s.played, s.nextId), 0, [])
    decreases n
  {
    if n > 0 {
      var first := Step(s);
      MembersEmpty(first.rang);
      assert first.state == State(s.items, Timer(s.timer.time - 1, true), s.played, s.nextId);
      QuietRun(first.state, n - 1);
      assert first.rang + [] == [];
    }
  }

  /**
   Whole minutes entered from a fresh timer: items a, b and c of the given
   minutes added in that order, then play pressed.
   */
  function ThreeItems(first: nat, second: nat, third: nat): State
  {
    PlayPause(AddItem(AddItem(AddItem(Init(), "a", first), "b", second), "c", third))
  }

  /**
   With a and b of at most 2 minutes and c of 3, the clock starts at 3:00 and
   the first 59 seconds are quiet: the clock then reads 2:01, still running,
   with nothing rung.
   */
  lemma ThreeItemsAt121(first: nat, second: nat)
    requires first <= 2 && second <= 2
    ensures RunSeconds(ThreeItems(first, second, 3), 59)
      == Trace(State([Item(0, "a", first * 60), Item(1, "b", second * 60), Item(2, "c", 180)],
                     Timer(121, true), {}, 3), 0, [])
  {
    var s := ThreeItems(first, second, 3);
    assert s == State([Item(0, "a", first * 60), Item(1, "b", second * 60), Item(2, "c", 180)],
                      Timer(180, true), {}, 3);
    QuietRun(s, 59);
  }

  /** Removing the first of three items with distinct identities leaves the other two. */
  lemma WithoutFirst(a: Item, b: Item, c: Item)
    requires a.id != b.id && a.id != c.id
    ensures Without([a, b, c], a.id) == [b, c]
  {
    assert !NotId(a.id)(a) && NotId(a.id)(b) && NotId(a.id)(c);
    assert [a, b, c][1..] == [b, c];
    assert [b, c][1..] == [c];
    assert Filter([c], NotId(a.id)) == [c] by {
      assert [c][1..] == [];
    }
    assert Filter([b, c], NotId(a.id)) == [b, c];
  }

  /** The alert passes of the ring-again trace, position by position. */
  lemma RingAgainPasses(a: Item, b: Item, c: Item)
    requires a.duration == 60 && b.duration == 120 && c.duration == 180
    ensures AlertPass([a, b, c], 120, true, {}) == Pass({1}, [1])
    ensures AlertPass([b, c], 120, true, {1}) == Pass({0, 1}, [0])
  {
    assert Scan([a, b, c], 120, true, {1}, 3) == Pass({1}, []);
    assert Scan([a, b, c], 120, true, {1}, 2) == Pass({1}, []);
    assert {} + {1} == {1} && [1] + [] == [1];
    assert Scan([a, b, c], 120, true, {}, 1) == Pass({1}, [1]);
    assert Scan([a, b, c], 120, true, {}, 0) == Pass({1}, [1]);
    assert {1} + {0} == {0, 1} && [0] + [] == [0];
    assert Scan([b, c], 120, true, {0, 1}, 2) == Pass({0, 1}, []);
    assert Scan([b, c], 120, true, {0, 1}, 1) == Pass({0, 1}, []);
  }

  /** The alert passes of the silencing trace, position by position. */
  lemma SilencePasses(a: Item, b: Item, c: Item)
    requires a.duration == 120 && b.duration == 60 && c.duration == 180
    ensures AlertPass([a, b, c], 120, true, {}) == Pass({0}, [0])
    ensures AlertPass([b, c], 120, true, {0}) == Pass({0}, [])
  {
    assert Scan([a, b, c], 120, true, {0}, 3) == Pass({0}, []);
    assert Scan([a, b, c], 120, true, {0}, 2) == Pass({0}, []);
    assert Scan([a, b, c], 120, true, {0}, 1) == Pass({0}, []);
    assert {} + {0} == {0} && [0] + [] == [0];
    assert Scan([b, c], 120, true, {0}, 2) == Pass({0}, []);
    assert Scan([b, c], 120, true, {0}, 1) == Pass({0}, []);
  }

  /**
   Positions, as written, ring an item twice. Add a (1 minute), b (2
   minutes) and c (3 minutes) and press play: the first 59 seconds are quiet,
   and when the clock reaches 2:00 b rings at position 1. Removing a then
   moves b to position 0, which has not rung, so b rings again at once.
   */
  lemma RemoveRingsAgain()
    ensures var b, c := Item(1, "b", 120), Item(2, "c", 180);
      var first := Step(RunSeconds(ThreeItems(1, 2, 3), 59).state);
      var after := RemoveItem(first.state, 0);
      && first.state.timer == Timer(120, true) && first.rang == [1]
      && after.items == [b, c] && Alert(after).rang == [0]
  {
    var a, b, c := Item(0, "a", 60), Item(1, "b", 120), Item(2, "c", 180);
    ThreeItemsAt121(1, 2);
    RingAgainPasses(a, b, c);
    WithoutFirst(a, b, c);
    var first := Step(State([a, b, c], Timer(121, true), {}, 3));
    assert first.state == State([a, b, c], Timer(120, true), {1}, 3);
  }

  /**
   Positions, as written, also silence an item. Add a (2 minutes), b (1
   minute) and c (3 minutes) and press play: when the clock reaches 2:00 a
   rings at position 0. Removing a moves b onto that remembered position, so b
   never rings, however long the clock runs.
   */
  lemma RemoveSilences(n: nat)
    ensures var b, c := Item(1, "b", 60), Item(2, "c", 180);
      var after := RemoveItem(Step(RunSeconds(ThreeItems(2, 1, 3), 59).state).state, 0);
      && after.items == [b, c] && Alert(after).rang == []
      && 0 !in RunSeconds(Alert(after).state, n).rang
  {
    var a, b, c := Item(0, "a", 120), Item(1, "b", 60), Item(2, "c", 180);
    ThreeItemsAt121(2, 1);
    SilencePasses(a, b, c);
    WithoutFirst(a, b, c);
    var first := Step(State([a, b, c], Timer(121, true), {}, 3));
    assert first.state == State([a, b, c], Timer(120, true), {0}, 3);
    var quiet := Alert(RemoveItem(first.state, 0));
    assert 0 in quiet.state.played;
  }

  /** `Math.max` over durations as a JavaScript number: minus infinity or an integer. */
  datatype Extended = NegInfinity | Finite(value: int)

  /** `Math.max(...durations)` as written: minus infinity for an empty list. */
  function SpreadMax(items: seq<Item>): (r: Extended)
    ensures |items| == 0 ==> r == NegInfinity
    ensures |items| > 0 ==> r == Finite(Longest(items))
  {
    if |items| == 0 then NegInfinity
    else
      match SpreadMax(items[1..])
      case NegInfinity => Finite(items[0].duration)
      case Finite(m) => Finite(if items[0].duration >= m then items[0].duration else m)
  }

  /** The clock value the reset button stores, as written in the source. */
  function ResetAsWritten(s: State): (clock: Extended)
    ensures |s.items| > 0 ==> clock == Finite(ResetTimer(s).timer.time)
  {
    SpreadMax(s.items)
  }

  /** With no items the source's reset stores minus infinity, which is not a count of seconds. */
  lemma ResetWithNoItems(s: State)
    requires |s.items| == 0
    ensures ResetAsWritten(s) == NegInfinity
    ensures ResetTimer(s).timer == Timer(0, false)
  {
  }

  /** The schedule of a 20:00 clock over rice (20 minutes) and chicken (5 minutes), in that order. */
  lemma RiceAndChickenViews(rice: Item, chicken: Item)
    requires rice == Item(0, "rice", 1200) && chicken == Item(1, "chicken", 300)
    ensures ToStart([rice, chicken], 1200) == [chicken]
    ensures InProgress([rice, chicken], 1200) == [rice]
    ensures NextItems([rice, chicken], 1200) == ["chicken"]
    ensures NextItemTimer([rice, chicken], 1200) == 900
  {
    var items := [rice, chicken];
    assert items[1..] == [chicken];
    assert Filter(items, IsWaiting(1200)) == [chicken] by {
      assert Filter([chicken], IsWaiting(1200)) == [chicken] by {
        assert Filter([chicken][1..], IsWaiting(1200)) == [];
      }
    }
    assert Filter(items, IsStarted(1200)) == [rice] by {
      assert Filter([chicken], IsStarted(1200)) == [] by {
        assert Filter([chicken][1..], IsStarted(1200)) == [];
      }
    }
    assert Pending(items, 1200) == [chicken] by {
      assert Filter([chicken], IsPending(1200)) == [chicken] by {
        assert Filter([chicken][1..], IsPending(1200)) == [];
      }
    }
    assert Sort(Descending, [chicken]) == [chicken] by {
      assert [chicken][1..] == [];
    }
    assert Sort(Ascending, [rice]) == [rice] by {
      assert [rice][1..] == [];
    }
    assert Filter([chicken], HasDuration(300)) == [chicken] by {
      assert Filter([chicken][1..], HasDuration(300)) == [];
    }
  }

  /**
   Rice (20 minutes) and chicken (5 minutes) added to a fresh timer: the clock
   becomes 20:00, rice is in progress at once, chicken is to start and is next
   up, 15:00 from now.
   */
  lemma RiceAndChicken()
    ensures var s := AddItem(AddItem(Init(), "rice", 20), "chicken", 5);
      && s.timer == Timer(1200, false)
      && s.items == [Item(0, "rice", 1200), Item(1, "chicken", 300)]
      && ToStart(s.items, 1200) == [Item(1, "chicken", 300)]
      && InProgress(s.items, 1200) == [Item(0, "rice", 1200)]
      && NextItems(s.items, 1200) == ["chicken"]
      && NextItemTimer(s.items, 1200) == 900
  {
    var s := AddItem(AddItem(Init(), "rice", 20), "chicken", 5);
    var rice, chicken := Item(0, "rice", 1200), Item(1, "chicken", 300);
    assert s.items == [rice, chicken];
    RiceAndChickenViews(rice, chicken);
  }
}
