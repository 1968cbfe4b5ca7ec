/** yasio's timer queue (highp_timer and io_service): a vector sorted by expiry, the earliest timer at its back. */
module Timers {

  type Id = nat

  /** A timer's period and the time at which it expires, in microseconds. */
  datatype Timer = Timer(duration: int, expire: int)

  /** A queue entry: the timer and the number of its callback. */
  datatype Entry = Entry(id: Id, callback: nat)

  type Clocks = map<Id, Timer>

  function Init(q: seq<Entry>): seq<Entry>
    requires q != []
  {
    q[..|q| - 1]
  }

  function Last(q: seq<Entry>): Entry
    requires q != []
  {
    q[|q| - 1]
  }

  /** Every timer has one entry at most. */
  predicate Distinct(q: seq<Entry>, timers: Clocks)
    decreases |q|
  {
    q == [] || (Last(q).id in timers && Distinct(Init(q), timers) && Absent(Init(q), Last(q).id))
  }

  predicate Absent(q: seq<Entry>, id: Id) {
    forall e | e in q :: e.id != id
  }

  /** No entry of q expires before the time t. */
  predicate NoneBefore(q: seq<Entry>, timers: Clocks, t: int) {
    forall e | e in q :: e.id in timers && timers[e.id].expire >= t
  }

  /** Distinct, and in the order of sort_timers: no entry expires before one behind it. */
  predicate Ordered(q: seq<Entry>, timers: Clocks)
    decreases |q|
  {
    || q == []
    || (&& Last(q).id in timers && Ordered(Init(q), timers) && Absent(Init(q), Last(q).id)
        && NoneBefore(Init(q), timers, timers[Last(q).id].expire))
  }

  lemma {:induction false} OrderedIsDistinct(q: seq<Entry>, timers: Clocks)
    requires Ordered(q, timers)
    ensures Distinct(q, timers)
    decreases |q|
  {
    if q != [] {
      OrderedIsDistinct(Init(q), timers);
    }
  }

  lemma {:induction false} DistinctAt(q: seq<Entry>, timers: Clocks, i: nat, j: nat)
    requires Distinct(q, timers) && i < j < |q|
    ensures q[i].id != q[j].id && q[i].id in timers && q[j].id in timers
    decreases |q|
  {
    if j == |q| - 1 {
      assert Init(q)[i] in Init(q);
      DistinctKnown(q, timers, i);
    } else {
      DistinctAt(Init(q), timers, i, j);
    }
  }

  lemma {:induction false} DistinctKnown(q: seq<Entry>, timers: Clocks, i: nat)
    requires Distinct(q, timers) && i < |q|
    ensures q[i].id in timers
    decreases |q|
  {
    if i < |q| - 1 {
      DistinctKnown(Init(q), timers, i);
    }
  }

  /** What the order means for any two positions. */
  lemma {:induction false} OrderedAt(q: seq<Entry>, timers: Clocks, i: nat, j: nat)
    requires Ordered(q, timers) && i < j < |q|
    ensures q[i].id in timers && q[j].id in timers && q[i].id != q[j].id
    ensures timers[q[i].id].expire >= timers[q[j].id].expire
    decreases |q|
  {
    if j == |q| - 1 {
      assert Init(q)[i] in Init(q);
    } else {
      OrderedAt(Init(q), timers, i, j);
    }
  }

  /** e put before the entries that expire earlier. */
  function Insert(q: seq<Entry>, timers: Clocks, e: Entry): seq<Entry>
    requires Distinct(q, timers) && e.id in timers
    decreases |q|
  {
    if q == [] || timers[Last(q).id].expire >= timers[e.id].expire then q + [e]
    else Insert(Init(q), timers, e) + [Last(q)]
  }

  lemma {:induction false} InsertMembers(q: seq<Entry>, timers: Clocks, e: Entry)
    requires Distinct(q, timers) && e.id in timers
    ensures multiset(Insert(q, timers, e)) == multiset(q) + multiset{e}
    ensures forall x :: x in Insert(q, timers, e) <==> x == e || x in q
    decreases |q|
  {
    if q != [] {
      assert q == Init(q) + [Last(q)];
      InsertMembers(Init(q), timers, e);
    }
  }

  lemma {:induction false} InsertOrdered(q: seq<Entry>, timers: Clocks, e: Entry)
    requires Ordered(q, timers) && Distinct(q, timers) && e.id in timers && Absent(q, e.id)
    ensures Ordered(Insert(q, timers, e), timers)
    decreases |q|
  {
    if q == [] || timers[Last(q).id].expire >= timers[e.id].expire {
      var r := q + [e];
      assert Init(r) == q && Last(r) == e;
      forall x | x in q ensures x.id in timers && timers[x.id].expire >= timers[e.id].expire {
        assert q == Init(q) + [Last(q)];
      }
    } else {
      assert q == Init(q) + [Last(q)];
      InsertOrdered(Init(q), timers, e);
      InsertMembers(Init(q), timers, e);
      var r := Insert(q, timers, e);
      assert Init(r) == Insert(Init(q), timers, e) && Last(r) == Last(q);
    }
  }

  lemma SameMembers(q: seq<Entry>, p: seq<Entry>)
    requires multiset(q) == multiset(p)
    ensures |q| == |p| && forall e :: e in q <==> e in p
  {
    assert |multiset(q)| == |q| && |multiset(p)| == |p|;
    forall e ensures e in q <==> e in p {
      assert e in q <==> e in multiset(q);
      assert e in p <==> e in multiset(p);
    }
  }

  lemma {:induction false} DistinctPrefix(q: seq<Entry>, timers: Clocks, i: nat)
    requires Distinct(q, timers) && i < |q|
    ensures q[i].id in timers && Absent(q[..i], q[i].id)
    decreases |q|
  {
    if i < |q| - 1 {
      DistinctPrefix(Init(q), timers, i);
      assert Init(q)[..i] == q[..i];
    }
  }

  /** The first i entries of q, in order. */
  ghost predicate Partly(q: seq<Entry>, timers: Clocks, i: nat, sorted: seq<Entry>)
    requires i <= |q|
  {
    Ordered(sorted, timers) && Distinct(sorted, timers) && multiset(sorted) == multiset(q[..i])
  }

  lemma SortStep(q: seq<Entry>, timers: Clocks, i: nat, sorted: seq<Entry>)
    requires Distinct(q, timers) && i < |q| && Partly(q, timers, i, sorted)
    ensures q[i].id in timers && Partly(q, timers, i + 1, Insert(sorted, timers, q[i]))
  {
    DistinctPrefix(q, timers, i);
    SameMembers(sorted, q[..i]);
    InsertOrdered(sorted, timers, q[i]);
    InsertMembers(sorted, timers, q[i]);
    OrderedIsDistinct(Insert(sorted, timers, q[i]), timers);
    assert q[..i + 1] == q[..i] + [q[i]];
  }

  lemma {:induction false} DistinctMore(q: seq<Entry>, timers: Clocks, id: Id, t: Timer)
    requires Distinct(q, timers)
    ensures Distinct(q, timers[id := t])
    ensures Ordered(q, timers) && Absent(q, id) ==> Ordered(q, timers[id := t])
    decreases |q|
  {
    if q != [] {
      assert q == Init(q) + [Last(q)];
      DistinctMore(Init(q), timers, id, t);
    }
  }

  lemma {:induction false} ReplaceDistinct(q: seq<Entry>, timers: Clocks, k: nat, e: Entry)
    requires Distinct(q, timers) && k < |q| && q[k].id == e.id
    ensures Distinct(q[k := e], timers)
    ensures forall x: Entry :: x.id != e.id ==> (x in q[k := e] <==> x in q)
    decreases |q|
  {
    var r := q[k := e];
    if k == |q| - 1 {
      assert Init(r) == Init(q);
    } else {
      assert Init(r) == Init(q)[k := e];
      ReplaceDistinct(Init(q), timers, k, e);
      assert Absent(Init(r), Last(q).id) by {
        forall x | x in Init(r) ensures x.id != Last(q).id {
          DistinctAt(q, timers, k, |q| - 1);
        }
      }
    }
    assert q == Init(q) + [Last(q)] && r == Init(r) + [Last(r)];
  }

  lemma {:induction false} EraseDistinct(q: seq<Entry>, timers: Clocks, k: nat)
    requires Distinct(q, timers) && k < |q|
    ensures Distinct(q[..k] + q[k + 1..], timers)
    ensures Absent(q[..k] + q[k + 1..], q[k].id)
    ensures forall x: Entry :: x.id != q[k].id ==> (x in q[..k] + q[k + 1..] <==> x in q)
    decreases |q|
  {
    var r := q[..k] + q[k + 1..];
    assert q == Init(q) + [Last(q)];
    if k == |q| - 1 {
      assert r == Init(q);
    } else {
      var p := Init(q)[..k] + Init(q)[k + 1..];
      assert r == p + [Last(q)];
      assert Init(r) == p;
      EraseDistinct(Init(q), timers, k);
      DistinctAt(q, timers, k, |q| - 1);
      assert forall x | x in p :: x in Init(q);
    }
  }

  /** The back of an ordered queue expires first. */
  lemma BackIsEarliest(q: seq<Entry>, timers: Clocks)
    requires Ordered(q, timers) && q != []
    ensures NoneBefore(q, timers, timers[Last(q).id].expire)
  {
    assert q == Init(q) + [Last(q)];
  }

  /**
   The entries that one pass fires: from the back as long as they are expired, ending with the first whose callback
   asks to wait again.
   */
  function Fire(q: seq<Entry>, timers: Clocks, now: int, done: Entry -> bool): (fired: seq<Entry>)
    ensures |fired| <= |q|
    decreases |q|
  {
    if q == [] || Last(q).id !in timers || timers[Last(q).id].expire > now then []
    else [Last(q)] + if done(Last(q)) then Fire(Init(q), timers, now, done) else []
  }

  predicate Rearms(fired: seq<Entry>, done: Entry -> bool) {
    fired != [] && !done(Last(fired))
  }

  /** The entries in the queue after a pass, up to their order. */
  function Kept(q: seq<Entry>, fired: seq<Entry>, done: Entry -> bool): seq<Entry>
    requires |fired| <= |q|
  {
    if Rearms(fired, done) then q[..|q| - |fired| + 1] else q[..|q| - |fired|]
  }

  function Rearmed(timers: Clocks, fired: seq<Entry>, done: Entry -> bool, clock: Entry -> int): Clocks {
    if Rearms(fired, done) && Last(fired).id in timers then
      var id, t := Last(fired).id, timers[Last(fired).id];
      timers[id := t.(expire := clock(Last(fired)) + t.duration)]
    else timers
  }

  /** What a pass fires is expired, comes off the back one by one, and all but the last are done. */
  lemma {:induction false} FiredAt(q: seq<Entry>, timers: Clocks, now: int, done: Entry -> bool, k: nat)
    requires k < |Fire(q, timers, now, done)|
    ensures
      var fired := Fire(q, timers, now, done);
      && fired[k] == q[|q| - 1 - k] && fired[k].id in timers && timers[fired[k].id].expire <= now
      && (k < |fired| - 1 ==> done(fired[k]))
    decreases |q|
  {
    if k > 0 {
      FiredAt(Init(q), timers, now, done, k - 1);
    }
  }

  /** A pass leaves nothing expired behind unless it re-armed a timer; if it fires nothing, nothing was expired. */
  lemma {:induction false} NothingLeft(q: seq<Entry>, timers: Clocks, now: int, done: Entry -> bool)
    requires Ordered(q, timers)
    ensures
      var fired := Fire(q, timers, now, done);
      !Rearms(fired, done) ==> NoneBefore(q[..|q| - |fired|], timers, now + 1)
    decreases |q|
  {
    if q == [] {
    } else if timers[Last(q).id].expire > now {
      BackIsEarliest(q, timers);
      assert q[..|q|] == q;
    } else if done(Last(q)) {
      var more := Fire(Init(q), timers, now, done);
      NothingLeft(Init(q), timers, now, done);
      assert Fire(q, timers, now, done) == [Last(q)] + more;
      assert Init(q)[..|q| - 1 - |more|] == q[..|q| - 1 - |more|];
      assert more != [] ==> Last([Last(q)] + more) == Last(more);
    }
  }

  /** Timers fire in the order of their expiry, and one that is expired makes a pass fire at least one. */
  lemma FiredInOrder(q: seq<Entry>, timers: Clocks, now: int, done: Entry -> bool)
    requires Ordered(q, timers)
    ensures
      var fired := Fire(q, timers, now, done);
      && (forall i, j | 0 <= i < j < |fired| ::
            && fired[i].id in timers && fired[j].id in timers
            && timers[fired[i].id].expire <= timers[fired[j].id].expire)
      && (fired == [] ==> NoneBefore(q, timers, now + 1))
  {
    var fired := Fire(q, timers, now, done);
    forall i, j | 0 <= i < j < |fired|
      ensures fired[i].id in timers && fired[j].id in timers
      ensures timers[fired[i].id].expire <= timers[fired[j].id].expire
    {
      FiredAt(q, timers, now, done, i);
      FiredAt(q, timers, now, done, j);
      OrderedAt(q, timers, |q| - 1 - j, |q| - 1 - i);
    }
    NothingLeft(q, timers, now, done);
    assert q[..|q|] == q;
  }

  /** No timer is lost: each is kept, or was fired and is done. */
  lemma NoneLost(q: seq<Entry>, timers: Clocks, now: int, done: Entry -> bool, e: Entry)
    requires e in q
    ensures var fired := Fire(q, timers, now, done); e in Kept(q, fired, done) || (e in fired && done(e))
  {
    var fired := Fire(q, timers, now, done);
    var i :| 0 <= i < |q| && q[i] == e;
    var k := |q| - 1 - i;
    if k < |fired| {
      FiredAt(q, timers, now, done, k);
      assert fired[k] == e;
      assert !done(e) ==> k == |fired| - 1;
    } else {
      assert q[..|q| - |fired|][i] == e;
    }
  }

  lemma {:induction false} DistinctTake(q: seq<Entry>, timers: Clocks, n: nat)
    requires Distinct(q, timers) && n <= |q|
    ensures Distinct(q[..n], timers)
    ensures Ordered(q, timers) ==> Ordered(q[..n], timers)
    decreases |q|
  {
    if n == |q| {
      assert q[..n] == q;
    } else {
      DistinctTake(Init(q), timers, n);
      assert Init(q)[..n] == q[..n];
    }
  }

  /** A pass under way from the queue q and the timers ts. */
  ghost predicate Passing(q: seq<Entry>, ts: Clocks, now: int, done: Entry -> bool, clock: Entry -> int,
                          queue: seq<Entry>, timers: Clocks, fired: seq<Entry>, again: bool)
  {
    && |fired| <= |q|
    && timers == Rearmed(ts, fired, done, clock)
    && again == Rearms(fired, done)
    && queue == Kept(q, fired, done)
    && fired + (if again then [] else Fire(queue, ts, now, done)) == Fire(q, ts, now, done)
    && (again ==> queue != [] && Last(queue).id in timers && timers[Last(queue).id].expire > now)
  }

  lemma PassStart(q: seq<Entry>, ts: Clocks, now: int, done: Entry -> bool, clock: Entry -> int)
    ensures Passing(q, ts, now, done, clock, q, ts, [], false)
  {
    assert q[..|q|] == q;
    assert [] + Fire(q, ts, now, done) == Fire(q, ts, now, done);
  }

  lemma PassKnown(q: seq<Entry>, ts: Clocks, now: int, done: Entry -> bool, clock: Entry -> int,
                  queue: seq<Entry>, timers: Clocks, fired: seq<Entry>, again: bool)
    requires Passing(q, ts, now, done, clock, queue, timers, fired, again) && queue != [] && Distinct(q, ts)
    ensures Last(queue).id in timers && Last(queue) in q
    ensures timers[Last(queue).id].expire <= now ==> !again && timers == ts
  {
    DistinctKnown(q, ts, |queue| - 1);
    assert Last(queue) == q[|queue| - 1];
  }

  lemma PassOn(q: seq<Entry>, ts: Clocks, now: int, done: Entry -> bool, clock: Entry -> int,
               queue: seq<Entry>, fired: seq<Entry>)
    requires Passing(q, ts, now, done, clock, queue, ts, fired, false) && queue != []
    requires Last(queue).id in ts && ts[Last(queue).id].expire <= now && done(Last(queue))
    ensures Passing(q, ts, now, done, clock, Init(queue), ts, fired + [Last(queue)], false)
  {
    var e, more := Last(queue), Fire(Init(queue), ts, now, done);
    assert Last(fired + [e]) == e;
    assert Init(queue) == q[..|q| - |fired + [e]|];
    assert fired + [e] + more == fired + ([e] + more);
  }

  lemma PassRearms(q: seq<Entry>, ts: Clocks, now: int, done: Entry -> bool, clock: Entry -> int,
                   queue: seq<Entry>, fired: seq<Entry>)
    requires Passing(q, ts, now, done, clock, queue, ts, fired, false) && queue != []
    requires Last(queue).id in ts && ts[Last(queue).id].expire <= now && !done(Last(queue))
    requires clock(Last(queue)) >= now && ts[Last(queue).id].duration > 0
    ensures
      var e := Last(queue);
      Passing(q, ts, now, done, clock, Init(queue) + [e],
              ts[e.id := ts[e.id].(expire := clock(e) + ts[e.id].duration)], fired + [e], true)
  {
    var e := Last(queue);
    assert Last(fired + [e]) == e;
    assert Init(queue) + [e] == queue == q[..|q| - |fired + [e]| + 1];
    assert Fire(queue, ts, now, done) == [e];
    assert fired + [e] + [] == fired + [e];
  }

  lemma PassEnd(q: seq<Entry>, ts: Clocks, now: int, done: Entry -> bool, clock: Entry -> int,
                queue: seq<Entry>, timers: Clocks, fired: seq<Entry>, again: bool)
    requires Passing(q, ts, now, done, clock, queue, timers, fired, again) && Ordered(q, ts) && Distinct(q, ts)
    requires queue != [] ==> Last(queue).id in timers && timers[Last(queue).id].expire > now
    ensures fired == Fire(q, ts, now, done)
    ensures Distinct(queue, timers) && (!again ==> Ordered(queue, timers))
  {
    assert fired + [] == fired;
    DistinctTake(q, ts, |queue|);
    if again {
      FiredAt(q, ts, now, done, |fired| - 1);
      DistinctMore(queue, ts, Last(fired).id, timers[Last(fired).id]);
    }
  }

  class TimerQueue {
    var queue: seq<Entry>
    var timers: Clocks
    /** `current_time_`, read from the clock at the start of each turn of the service loop. */
    var currentTime: int

    ghost predicate Valid()
      reads this
    {
      Distinct(queue, timers)
    }

    ghost predicate InOrder()
      reads this
    {
      Valid() && Ordered(queue, timers)
    }

    constructor (now: int)
      ensures InOrder() && queue == [] && timers == map[] && currentTime == now
    {
      queue, timers, currentTime := [], map[], now;
    }

    /** `sort_timers`, of which only the order and the contents matter. */
    method SortTimers()
      requires Valid()
      modifies `queue
      ensures InOrder() && multiset(queue) == old(multiset(queue))
    {
      var sorted: seq<Entry> := [];
      var i := 0;
      while i < |queue|
        invariant i <= |queue| && queue == old(queue)
        invariant Partly(queue, timers, i, sorted)
      {
        SortStep(queue, timers, i, sorted);
        sorted := Insert(sorted, timers, queue[i]);
        i := i + 1;
      }
      assert queue[..i] == queue;
      queue := sorted;
    }

    /** `find_timer`. */
    method FindTimer(id: Id) returns (k: nat)
      ensures k <= |queue| && Absent(queue[..k], id)
      ensures k < |queue| ==> queue[k].id == id
    {
      k := 0;
      while k < |queue| && queue[k].id != id
        invariant k <= |queue| && Absent(queue[..k], id)
      {
        assert queue[..k + 1] == queue[..k] + [queue[k]];
        k := k + 1;
      }
    }

    /** `expires_from_now` with a new period: a queued timer loses its place until it is scheduled again. */
    method ExpiresFromNow(id: Id, duration: int, now: int)
      requires Valid()
      modifies `timers
      ensures timers == old(timers)[id := Timer(duration, now + duration)]
      ensures Valid() && (old(InOrder()) && Absent(queue, id) ==> InOrder())
    {
      DistinctMore(queue, timers, id, Timer(duration, now + duration));
      timers := timers[id := Timer(duration, now + duration)];
    }

    /** `schedule_timer`: restores the order whatever it was, and tells whether the service must be woken. */
    method ScheduleTimer(id: Id, callback: nat) returns (wake: bool)
      requires Valid() && id in timers
      modifies `queue
      ensures InOrder() && Entry(id, callback) in queue
      ensures forall e: Entry :: e.id != id ==> (e in queue <==> e in old(queue))
      ensures wake ==> NoneBefore(queue, timers, timers[id].expire)
      ensures !wake ==>
                exists e :: e in queue && e.id != id && e.id in timers && timers[e.id].expire <= timers[id].expire
    {
      var k := FindTimer(id);
      var e := Entry(id, callback);
      ghost var before := queue;
      if k == |queue| {
        assert queue[..k] == queue;
        queue := queue + [e];
        assert Init(queue) == before && Last(queue) == e;
      } else {
        ReplaceDistinct(queue, timers, k, e);
        queue := queue[k := e];
        assert queue[k] == e;
      }
      ghost var entered := queue;
      SortTimers();
      SameMembers(entered, queue);
      BackIsEarliest(queue, timers);
      wake := Last(queue).id == id;
      assert Last(queue) in queue;
    }

    /** `remove_timer`. */
    method RemoveTimer(id: Id) returns (wake: bool)
      requires Valid()
      modifies `queue
      ensures Valid() && Absent(queue, id)
      ensures forall e: Entry :: e.id != id ==> (e in queue <==> e in old(queue))
      ensures !old(Absent(queue, id)) || old(InOrder()) ==> InOrder()
      ensures wake <==> !old(Absent(queue, id)) && queue != []
    {
      wake := false;
      var k := FindTimer(id);
      if k == |queue| {
        assert queue[..k] == queue;
        return;
      }
      assert queue[k] in queue;
      EraseDistinct(queue, timers, k);
      queue := queue[..k] + queue[k + 1..];
      if queue != [] {
        ghost var erased := queue;
        SortTimers();
        SameMembers(erased, queue);
        wake := true;
      }
    }

    /** `get_timeout`: the service never waits beyond the earliest timer. */
    method GetTimeout(usec: int) returns (wait: int)
      requires InOrder()
      ensures wait <= usec && NoneBefore(queue, timers, currentTime + wait)
      ensures wait == usec || exists e :: e in queue && e.id in timers && wait == timers[e.id].expire - currentTime
    {
      wait := usec;
      if queue != [] {
        BackIsEarliest(queue, timers);
        var duration := timers[Last(queue).id].expire - currentTime;
        assert Last(queue) in queue;
        if usec > duration {
          wait := duration;
        }
      }
    }

    /**
     `process_timers`: callbacks leave the queue alone and return whether they are done; the clock, read after a
     callback that asks to wait again, is not behind the time read at the start of the turn.
     */
    method ProcessTimers(done: Entry -> bool, clock: Entry -> int) returns (fired: seq<Entry>)
      requires InOrder()
      requires forall e | e in queue ::
                 clock(e) >= currentTime && (e.id in timers && !done(e) ==> timers[e.id].duration > 0)
      modifies `queue, `timers
      ensures fired == Fire(old(queue), old(timers), currentTime, done)
      ensures timers == Rearmed(old(timers), fired, done, clock)
      ensures InOrder() && multiset(queue) == multiset(Kept(old(queue), fired, done))
    {
      fired := [];
      var again := false;
      ghost var q, ts := queue, timers;
      PassStart(q, ts, currentTime, done, clock);
      while queue != []
        invariant Passing(q, ts, currentTime, done, clock, queue, timers, fired, again)
        decreases if again then 0 else 1, |queue|
      {
        PassKnown(q, ts, currentTime, done, clock, queue, timers, fired, again);
        var e := Last(queue);
        if timers[e.id].expire <= currentTime {
          if done(e) {
            PassOn(q, ts, currentTime, done, clock, queue, fired);
          } else {
            PassRearms(q, ts, currentTime, done, clock, queue, fired);
          }
          queue := Init(queue);
          fired := fired + [e];
          if !done(e) {
            timers := timers[e.id := timers[e.id].(expire := clock(e) + timers[e.id].duration)];
            queue := queue + [e];
            again := true;
          }
        } else {
          break;
        }
      }
      PassEnd(q, ts, currentTime, done, clock, queue, timers, fired, again);
      if again {
        SortTimers();
      }
    }
  }
}
