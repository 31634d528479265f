/** High-resolution timers: any number of handles share one timer, whose period is the smallest that a handle
    asks for. Each handle smooths what it asks for over its last eight updates.
 */
module HrTime {
  import opened Bits

  const MIN_PERIOD := 1
  const MAX_PERIOD := 16

  /** Whole milliseconds, from 1 to 16; the maximum means that no high resolution is needed. */
  type Period = p: nat | MIN_PERIOD <= p <= MAX_PERIOD witness MAX_PERIOD

  /** The conversion goes through a byte, in which large values do not fit. */
  function FromMillis(ms: nat): Period {
    var rounded := if ms <= 255 then ms else MAX_PERIOD;
    if rounded < MIN_PERIOD then MIN_PERIOD else if rounded > MAX_PERIOD then MAX_PERIOD else rounded
  }

  lemma FromMillisClamps(ms: nat)
    ensures FromMillis(ms) == if ms == 0 then 1 else if ms > 16 then 16 else ms
    ensures forall ms': nat :: ms <= ms' ==> FromMillis(ms) <= FromMillis(ms')
  {
  }

  // ----- The live handles -----

  type HandleId = nat

  ghost function Asking(live: map<HandleId, Period>, p: Period): set<HandleId> {
    set id | id in live && live[id] == p
  }

  ghost function Count(live: map<HandleId, Period>, p: Period): nat {
    |Asking(live, p)|
  }

  lemma CountChange(live: map<HandleId, Period>, id: HandleId, p: Period, q: Period)
    ensures id !in live ==> Count(live[id := p], q) == Count(live, q) + (if p == q then 1 else 0)
    ensures id in live ==>
              Count(live[id := p], q) + (if live[id] == q then 1 else 0) == Count(live, q) + (if p == q then 1 else 0)
  {
    var rest := Asking(live, q) - {id};
    assert Asking(live, q) == if id in live && live[id] == q then rest + {id} else rest;
    assert Asking(live[id := p], q) == if p == q then rest + {id} else rest;
  }

  lemma CountRemove(live: map<HandleId, Period>, id: HandleId, q: Period)
    requires id in live
    ensures Count(live - {id}, q) == Count(live, q) - (if live[id] == q then 1 else 0)
    ensures Count(live, live[id]) > 0
  {
    var rest := Asking(live, q) - {id};
    assert Asking(live - {id}, q) == rest;
    assert Asking(live, q) == if live[id] == q then rest + {id} else rest;
    assert id in Asking(live, live[id]);
  }

  /** The period that the live handles need: the smallest one, unless all are content with the maximum. */
  ghost predicate Needed(live: map<HandleId, Period>, r: Option<Period>) {
    match r
    case None => forall id :: id in live ==> live[id] == MAX_PERIOD
    case Some(p) =>
      && p < MAX_PERIOD && (exists id :: id in live && live[id] == p)
      && forall id :: id in live ==> p <= live[id]
  }

  ghost predicate CountedAt(counts: seq<nat>, live: map<HandleId, Period>, p: Period)
    requires |counts| == MAX_PERIOD - MIN_PERIOD
  {
    p < MAX_PERIOD ==> counts[p - MIN_PERIOD] == Count(live, p)
  }

  /** Each count is the number of live handles with that period; the maximum is not counted. */
  ghost predicate Counted(counts: seq<nat>, live: map<HandleId, Period>) {
    |counts| == MAX_PERIOD - MIN_PERIOD && forall p: Period :: CountedAt(counts, live, p)
  }

  /** The first count that is not zero. */
  predicate IsFirst(counts: seq<nat>, r: Option<Period>) {
    && |counts| == MAX_PERIOD - MIN_PERIOD
    && match r
       case None => forall i :: 0 <= i < |counts| ==> counts[i] == 0
       case Some(p) =>
         && p < MAX_PERIOD && counts[p - MIN_PERIOD] > 0
         && forall i :: 0 <= i < p - MIN_PERIOD ==> counts[i] == 0
  }

  lemma FirstIsNeeded(counts: seq<nat>, live: map<HandleId, Period>, r: Option<Period>)
    requires Counted(counts, live) && IsFirst(counts, r)
    ensures Needed(live, r)
  {
    forall id | id in live
      ensures live[id] < MAX_PERIOD ==> counts[live[id] - MIN_PERIOD] > 0
    {
      CountRemove(live, id, live[id]);
      assert CountedAt(counts, live, live[id]);
    }
    if r.Some? {
      assert CountedAt(counts, live, r.value) && Asking(live, r.value) != {};
      var id :| id in Asking(live, r.value);
    }
  }

  class PeriodSet {
    const counts: array<nat>

    ghost predicate Valid()
      reads this, counts
    {
      counts.Length == MAX_PERIOD - MIN_PERIOD
    }

    constructor ()
      ensures Valid() && fresh(counts) && forall i :: 0 <= i < counts.Length ==> counts[i] == 0
    {
      counts := new nat[MAX_PERIOD - MIN_PERIOD](i => 0);
    }

    method Add(p: Period, ghost live: map<HandleId, Period>, ghost id: HandleId)
      requires Valid() && Counted(counts[..], live) && id !in live
      modifies counts
      ensures Counted(counts[..], live[id := p])
    {
      if p != MAX_PERIOD {
        counts[p - MIN_PERIOD] := counts[p - MIN_PERIOD] + 1;
      }
      ghost var now, counted := live[id := p], counts[..];
      forall q: Period
        ensures CountedAt(counted, now, q)
      {
        assert CountedAt(old(counts[..]), live, q);
        CountChange(live, id, p, q);
      }
    }

    /** The count of a live handle's period is not zero, so it can be taken down. */
    method Remove(p: Period, ghost live: map<HandleId, Period>, ghost id: HandleId)
      requires Valid() && Counted(counts[..], live) && id in live && live[id] == p
      modifies counts
      ensures Counted(counts[..], live - {id})
    {
      CountRemove(live, id, p);
      assert CountedAt(counts[..], live, p);
      if p != MAX_PERIOD {
        counts[p - MIN_PERIOD] := counts[p - MIN_PERIOD] - 1;
      }
      forall q: Period
        ensures CountedAt(counts[..], live - {id}, q)
      {
        assert CountedAt(old(counts[..]), live, q);
        CountRemove(live, id, q);
      }
    }

    method Min() returns (r: Option<Period>)
      requires Valid()
      ensures IsFirst(counts[..], r)
    {
      for i := 0 to counts.Length
        invariant forall j :: 0 <= j < i ==> counts[j] == 0
      {
        if counts[i] > 0 {
          return Some(i + MIN_PERIOD);
        }
      }
      r := None;
    }
  }

  // ----- The second smallest -----

  function CountBelow(s: seq<Period>, p: nat): nat {
    if s == [] then 0 else CountBelow(s[..|s| - 1], p) + (if s[|s| - 1] < p then 1 else 0)
  }

  /** At most one slot is below p, and at least two are at or below it. */
  predicate IsSecondSmallest(s: seq<Period>, p: Period) {
    CountBelow(s, p) <= 1 && CountBelow(s, p + 1) >= 2
  }

  /** The two smallest of a sequence, if it is completed with two maxima. */
  predicate TwoSmallest(s: seq<Period>, first: Period, second: Period) {
    && first <= second && CountBelow(s, first) == 0 && CountBelow(s, second) <= 1
    && (first < MAX_PERIOD ==> CountBelow(s, first + 1) >= 1)
    && (second < MAX_PERIOD ==> CountBelow(s, second + 1) >= 2)
  }

  lemma CountBelowAppend(s: seq<Period>, x: Period, p: nat)
    ensures CountBelow(s + [x], p) == CountBelow(s, p) + (if x < p then 1 else 0)
  {
  }

  lemma {:induction false} CountBelowMonotone(s: seq<Period>, p: nat, q: nat)
    requires p <= q
    ensures CountBelow(s, p) <= CountBelow(s, q) <= |s|
  {
    if s != [] {
      CountBelowMonotone(s[..|s| - 1], p, q);
    }
  }

  lemma {:induction false} CountAll(s: seq<Period>)
    ensures CountBelow(s, MAX_PERIOD + 1) == |s|
  {
    if s != [] {
      CountAll(s[..|s| - 1]);
    }
  }

  /** There is only one second smallest. */
  lemma SecondSmallestUnique(s: seq<Period>, p: Period, q: Period)
    requires IsSecondSmallest(s, p) && IsSecondSmallest(s, q)
    ensures p == q
  {
    if p < q {
      CountBelowMonotone(s, p + 1, q);
    } else if q < p {
      CountBelowMonotone(s, q + 1, p);
    }
  }

  lemma TwoSmallestStep(s: seq<Period>, x: Period, first: Period, second: Period)
    requires TwoSmallest(s, first, second)
    ensures x < first ==> TwoSmallest(s + [x], x, first)
    ensures first <= x < second ==> TwoSmallest(s + [x], first, x)
    ensures second <= x ==> TwoSmallest(s + [x], first, second)
  {
    var t := s + [x];
    forall p: nat
      ensures CountBelow(t, p) == CountBelow(s, p) + (if x < p then 1 else 0)
    {
      CountBelowAppend(s, x, p);
    }
    if x < first {
      CountBelowMonotone(s, x, first);
    } else if x < second {
      CountBelowMonotone(s, first + 1, x + 1);
      CountBelowMonotone(s, x, second);
    }
  }

  /** The two smallest of the slots. */
  method Smooth(slots: array<Period>) returns (second: Period)
    requires slots.Length >= 2
    ensures IsSecondSmallest(slots[..], second)
  {
    var first: Period := MAX_PERIOD;
    second := MAX_PERIOD;
    for i := 0 to slots.Length
      invariant TwoSmallest(slots[..i], first, second)
    {
      var x := slots[i];
      TwoSmallestStep(slots[..i], x, first, second);
      assert slots[..i] + [x] == slots[..i + 1];
      if x < first {
        second := first;
        first := x;
      } else if x < second {
        second := x;
      }
    }
    assert slots[..slots.Length] == slots[..];
    CountAll(slots[..]);
  }

  // ----- The timer and its handles -----

  /** The calls that change the timer resolution of the operating system. A period that was begun has to be
      ended. */
  class System {
    ghost var begun: multiset<Period>

    constructor ()
      ensures begun == multiset{}
    {
      begun := multiset{};
    }

    method BeginPeriod(p: Period)
      modifies this
      ensures begun == old(begun) + multiset{p}
    {
      begun := begun + multiset{p};
    }

    method EndPeriod(p: Period)
      requires p in begun
      modifies this
      ensures begun == old(begun) - multiset{p}
    {
      begun := begun - multiset{p};
    }
  }

  ghost function Begun(active: Option<Period>): multiset<Period> {
    if active.Some? then multiset{active.value} else multiset{}
  }

  class Time {
    const os: System
    const periods: PeriodSet
    var active: Option<Period>
    ghost var live: map<HandleId, Period>

    /** The counts are right. */
    ghost predicate Tracks()
      reads this, periods, periods.counts
    {
      periods.Valid() && Counted(periods.counts[..], live)
    }

    /** And the timer runs with the period that is needed. */
    ghost predicate Valid()
      reads this, os, periods, periods.counts
    {
      Tracks() && Needed(live, active) && os.begun == Begun(active)
    }

    constructor (os: System)
      requires os.begun == multiset{}
      ensures Valid() && live == map[] && this.os == os && fresh(periods) && fresh(periods.counts)
    {
      this.os := os;
      periods := new PeriodSet();
      active, live := None, map[];
      new;
      forall p: Period
        ensures CountedAt(periods.counts[..], map[], p)
      {
        assert Asking(map[], p) == {};
      }
    }

    method Start()
      modifies os
      ensures os.begun == old(os.begun) + Begun(active)
    {
      if active.Some? {
        os.BeginPeriod(active.value);
      }
    }

    method Stop()
      requires Begun(active) <= os.begun
      modifies os
      ensures os.begun == old(os.begun) - Begun(active)
    {
      if active.Some? {
        os.EndPeriod(active.value);
      }
    }

    method Update()
      requires Tracks() && os.begun == Begun(active)
      modifies this`active, os
      ensures Valid()
    {
      var next := periods.Min();
      FirstIsNeeded(periods.counts[..], live, next);
      if next != active {
        Stop();
        active := next;
        Start();
      }
    }

    method Add(p: Period, ghost id: HandleId)
      requires Valid() && id !in live
      modifies this, periods.counts, os
      ensures Valid() && live == old(live)[id := p]
    {
      periods.Add(p, live, id);
      live := live[id := p];
      Update();
    }

    method Remove(p: Period, ghost id: HandleId)
      requires Valid() && id in live && live[id] == p
      modifies this, periods.counts, os
      ensures Valid() && live == old(live) - {id}
    {
      periods.Remove(p, live, id);
      live := live - {id};
      Update();
    }
  }

  /** How far slot i is behind slot i0 in a ring of eight. */
  ghost function Behind(i0: nat, i: nat): nat
    requires i0 < 8 && i < 8
  {
    if i0 <= i then i - i0 else i + 8 - i0
  }

  ghost predicate Filled(s: seq<Period>, i0: nat, k: nat, v: Period)
    requires |s| == 8 && i0 < 8
  {
    forall i :: 0 <= i < 8 && Behind(i0, i) < k ==> s[i] == v
  }

  lemma FillNext(s: seq<Period>, i0: nat, i: nat, k: nat, v: Period)
    requires |s| == 8 && i0 < 8 && i < 8 && k < 8 && Behind(i0, i) == k && Filled(s, i0, k, v)
    ensures Filled(s[i := v], i0, k + 1, v) && Behind(i0, (i + 1) % 8) == (k + 1) % 8
  {
  }

  lemma {:induction false} CountSame(s: seq<Period>, v: Period, p: nat)
    requires forall i :: 0 <= i < |s| ==> s[i] == v
    ensures CountBelow(s, p) == if v < p then |s| else 0
  {
    if s != [] {
      var front := s[..|s| - 1];
      CountSame(front, v, p);
      CountBelowAppend(front, s[|s| - 1], p);
      assert front + [s[|s| - 1]] == s;
    }
  }

  lemma AllFilled(s: seq<Period>, i0: nat, v: Period, p: Period)
    requires |s| == 8 && i0 < 8 && Filled(s, i0, 8, v) && IsSecondSmallest(s, p)
    ensures p == v
  {
    CountSame(s, v, p);
    CountSame(s, v, p + 1);
  }

  const HISTORY := 8

  class Handle {
    const hrt: Time
    var active: Period
    const hysteresis: array<Period>
    var index: nat
    ghost const id: HandleId

    ghost predicate Valid()
      reads this, hrt
    {
      && hysteresis.Length == 8 && index < 8
      && id in hrt.live && hrt.live[id] == active
    }

    constructor (hrt: Time, active: Period, ghost id: HandleId)
      requires id in hrt.live && hrt.live[id] == active
      ensures Valid() && this.hrt == hrt && this.active == active && this.id == id && index == 0
      ensures fresh(hysteresis) && forall i :: 0 <= i < 8 ==> hysteresis[i] == 16
    {
      this.hrt, this.active, index, this.id := hrt, active, 0, id;
      hysteresis := new Period[HISTORY](i => MAX_PERIOD);
    }

    /** Ask for a different period: what counts is the second smallest of the last eight. */
    method Update(ms: nat)
      requires Valid() && hrt.Valid() && hysteresis != (hrt.periods.counts as object)
      modifies this`active, this`index, hysteresis, hrt, hrt.periods.counts, hrt.os
      ensures Valid() && hrt.Valid() && hrt.live == old(hrt.live)[id := active]
      ensures hysteresis[..] == old(hysteresis[..])[old(index) := FromMillis(ms)] && index == (old(index) + 1) % 8
      ensures IsSecondSmallest(hysteresis[..], active)
    {
      hysteresis[index] := FromMillis(ms);
      index := (index + 1) % HISTORY;
      var second := Smooth(hysteresis);
      if second != active {
        Change(second);
      }
    }

    /** Asking eight times for the same is enough. */
    method UpdateAll(ms: nat)
      requires Valid() && hrt.Valid() && hysteresis != (hrt.periods.counts as object)
      modifies this`active, this`index, hysteresis, hrt, hrt.periods.counts, hrt.os
      ensures Valid() && hrt.Valid() && active == FromMillis(ms)
    {
      for k := 0 to 8
        invariant Valid() && hrt.Valid()
        invariant Behind(old(index), index) == k % 8 && Filled(hysteresis[..], old(index), k, FromMillis(ms))
        invariant k > 0 ==> IsSecondSmallest(hysteresis[..], active)
      {
        FillNext(hysteresis[..], old(index), index, k, FromMillis(ms));
        Update(ms);
      }
      AllFilled(hysteresis[..], old(index), FromMillis(ms), active);
    }

    method Change(p: Period)
      requires Valid() && hrt.Valid()
      modifies this`active, hrt, hrt.periods.counts, hrt.os
      ensures Valid() && hrt.Valid() && hrt.live == old(hrt.live)[id := p] && active == p
    {
      hrt.periods.Remove(active, hrt.live, id);
      ghost var others := hrt.live - {id};
      active := p;
      hrt.periods.Add(active, others, id);
      assert others[id := active] == hrt.live[id := active];
      hrt.live := hrt.live[id := active];
      hrt.Update();
    }

    /** The handle goes away. */
    method Drop()
      requires Valid() && hrt.Valid()
      modifies hrt, hrt.periods.counts, hrt.os
      ensures hrt.Valid() && hrt.live == old(hrt.live) - {id}
    {
      hrt.Remove(active, id);
    }
  }

  // ----- Every run of a thread -----

  /** What is true of one handle among others. */
  ghost predicate Registered(handles: map<HandleId, Handle>, t: Time, id: HandleId)
    requires id in handles
    reads t, handles.Values
  {
    var h := handles[id];
    h.hrt == t && h.id == id && h.Valid() && h.hysteresis != (t.periods.counts as object)
  }

  /** The handles of a thread and the timer they share, which exists as long as there is a handle. */
  class Thread {
    const os: System
    var hrt: Option<Time>
    var handles: map<HandleId, Handle>

    ghost predicate Distinct()
      reads this
    {
      forall i, j :: i in handles && j in handles && i != j ==>
        handles[i] != handles[j] && handles[i].hysteresis != handles[j].hysteresis
    }

    ghost predicate AllRegistered(t: Time)
      reads this, t, handles.Values
    {
      t.live.Keys == handles.Keys && forall id :: id in handles ==> Registered(handles, t, id)
    }

    ghost predicate Valid()
      reads this, os, handles.Values
      reads if hrt.Some? then {hrt.value as object, hrt.value.periods, hrt.value.periods.counts, hrt.value.os} else {}
    {
      match hrt
      case None => handles == map[] && os.begun == multiset{}
      case Some(t) => t.os == os && t.Valid() && handles != map[] && Distinct() && AllRegistered(t)
    }

    constructor ()
      ensures Valid() && handles == map[]
    {
      os := new System();
      hrt, handles := None, map[];
    }

    /** A period is in force in the operating system exactly if a handle needs it: it is then the smallest
        that a handle has, it was begun once, and all others have been ended. */
    lemma Correct()
      requires Valid()
      ensures forall id :: id in handles ==>
                handles[id].active < MAX_PERIOD ==> exists p: Period :: os.begun == multiset{p} && p <= handles[id].active
      ensures os.begun == multiset{} || exists id :: id in handles && os.begun == multiset{handles[id].active}
      ensures os.begun == multiset{} <==> forall id :: id in handles ==> handles[id].active == MAX_PERIOD
    {
    }

    /** The timer of the thread, or a new one. */
    method Upgrade() returns (t: Time)
      requires Valid()
      ensures t.os == os && t.Valid() && AllRegistered(t)
      ensures hrt.Some? ==> t == hrt.value
      ensures hrt.None? ==> fresh(t) && fresh(t.periods) && fresh(t.periods.counts)
    {
      if hrt.None? {
        t := new Time(os);
      } else {
        t := hrt.value;
      }
    }

    /** A handle of the timer enters the table. */
    method Enter(t: Time, p: Period, id: HandleId) returns (h: Handle)
      requires t.os == os && t.Valid() && Distinct() && AllRegistered(t) && id !in handles
      modifies this`hrt, this`handles, t, t.periods.counts, os
      ensures hrt == Some(t) && t.Valid() && Distinct() && AllRegistered(t)
      ensures handles == old(handles)[id := h] && fresh(h) && h.active == p
    {
      t.Add(p, id);
      h := new Handle(t, p, id);
      hrt := Some(t);
      handles := handles[id := h];
      forall x | x in handles
        ensures Registered(handles, t, x)
      {
        if x != id {
          assert old(Registered(handles, t, x));
        }
      }
    }

    /** A new handle, and a new timer if there was none. */
    method Get(ms: nat, id: HandleId) returns (h: Handle)
      requires Valid() && id !in handles
      modifies this, os, if hrt.Some? then {hrt.value as object, hrt.value.periods.counts} else {}
      ensures Valid() && handles == old(handles)[id := h] && fresh(h) && h.active == FromMillis(ms)
    {
      var t := Upgrade();
      h := Enter(t, FromMillis(ms), id);
    }

    method Update(id: HandleId, ms: nat)
      requires Valid() && id in handles
      modifies handles[id], handles[id].hysteresis, handles[id].hrt, handles[id].hrt.periods.counts, os
      ensures Valid() && IsSecondSmallest(handles[id].hysteresis[..], handles[id].active)
    {
      var t := hrt.value;
      assert Registered(handles, t, id);
      handles[id].Update(ms);
      forall x | x in handles
        ensures Registered(handles, t, x)
      {
        assert old(Registered(handles, t, x));
      }
    }

    /** The last handle takes the timer with it. */
    method Drop(id: HandleId)
      requires Valid() && id in handles
      modifies this, handles[id].hrt, handles[id].hrt.periods.counts, os
      ensures Valid() && handles == old(handles) - {id}
    {
      var t := hrt.value;
      assert Registered(handles, t, id);
      handles[id].Drop();
      forall x | x in handles && x != id
        ensures Registered(handles, t, x)
      {
        assert old(Registered(handles, t, x));
      }
      Forget(id, t);
    }

    /** The timer goes when nobody refers to it any more. */
    method Forget(id: HandleId, t: Time)
      requires t.os == os && t.Valid() && Distinct() && hrt == Some(t) && t.live.Keys == handles.Keys - {id}
      requires forall x :: x in handles && x != id ==> Registered(handles, t, x)
      modifies this, os
      ensures Valid() && handles == old(handles) - {id}
    {
      handles := handles - {id};
      if handles == map[] {
        assert t.live == map[];
        t.Stop();
        hrt := None;
      }
    }
  }
}
