/**
 The quarantine shared by every tracker and by the evaluator: a list of
 `(release_time, value)` pairs. A value added at time t is released once the
 clock reaches t + horizon; a release hands back the newest matured value and
 keeps only the entries strictly before it.
 */
module TrackerBase {
  import opened Wrappers

  datatype Entry<T> = Entry(release: real, value: T)

  /** The three fields of a tracker base: `horizon`, `quarantine` and `count`. */
  datatype Base<T> = Base(horizon: int, quarantine: seq<Entry<T>>, count: int)

  /** What a release leaves behind, and the value it hands back (None: nothing matured). */
  datatype Popped<T> = Popped(base: Base<T>, released: Option<T>)

  /** A fresh base: the given horizon, an empty quarantine, and count 0. */
  function Init<T>(horizon: int): (b: Base<T>)
    ensures b.horizon == horizon && |b.quarantine| == 0 && b.count == 0
  {
    Base(horizon, [], 0)
  }

  /** Release times never decrease along the list. */
  ghost predicate Ordered<T>(q: seq<Entry<T>>) {
    forall i, j :: 0 <= i < j < |q| ==> q[i].release <= q[j].release
  }

  /** Entry j has matured by `now` and no later entry has. */
  ghost predicate IsLastMatured<T>(q: seq<Entry<T>>, now: real, j: int) {
    && 0 <= j < |q|
    && q[j].release <= now
    && (forall k :: j < k < |q| ==> q[k].release > now)
  }

  function Add<T>(b: Base<T>, time: real, value: T): (r: Base<T>)
    ensures r.horizon == b.horizon && r.count == b.count
    ensures |r.quarantine| == |b.quarantine| + 1
    ensures r.quarantine[..|b.quarantine|] == b.quarantine
    ensures r.quarantine[|b.quarantine|] == Entry(time + b.horizon as real, value)
  {
    b.(quarantine := b.quarantine + [Entry(time + b.horizon as real, value)])
  }

  /** The indices, in increasing order, of the entries whose release time is at most `now`. */
  function Matured<T>(q: seq<Entry<T>>, now: real): (js: seq<int>)
    ensures forall k :: 0 <= k < |js| ==> 0 <= js[k] < |q| && q[js[k]].release <= now
    ensures forall j :: 0 <= j < |q| && q[j].release <= now ==> j in js
    ensures forall k, l :: 0 <= k < l < |js| ==> js[k] < js[l]
  {
    if |q| == 0 then []
    else
      var js := Matured(q[..|q| - 1], now);
      if q[|q| - 1].release <= now then js + [|q| - 1] else js
  }

  function Pop<T>(b: Base<T>, now: real): (r: Popped<T>)
    ensures r.base.horizon == b.horizon && r.base.count == b.count
    ensures r.released.None? <==> forall j :: 0 <= j < |b.quarantine| ==> b.quarantine[j].release > now
    ensures r.released.None? ==> r.base == b
    ensures r.released.Some? ==>
      var n := |r.base.quarantine|;
      && n < |b.quarantine|
      && IsLastMatured(b.quarantine, now, n)
      && r.released.value == b.quarantine[n].value
      && r.base.quarantine == b.quarantine[..n]
  {
    var js := Matured(b.quarantine, now);
    if |js| == 0 then Popped(b, None)
    else
      var j := js[|js| - 1];
      Popped(b.(quarantine := b.quarantine[..j]), Some(b.quarantine[j].value))
  }

  /** At most one index is the last matured one. */
  lemma LastMaturedUnique<T>(q: seq<Entry<T>>, now: real, i: int, j: int)
    requires IsLastMatured(q, now, i) && IsLastMatured(q, now, j)
    ensures i == j
  {
  }

  /** A value added to an empty quarantine at time t is released at t + horizon, and not before. */
  lemma AddThenPopRoundTrip<T>(horizon: int, t: real, v: T, early: real)
    requires early < t + horizon as real
    ensures Pop(Add(Init(horizon), t, v), t + horizon as real) == Popped(Init(horizon), Some(v))
    ensures Pop(Add(Init(horizon), t, v), early) == Popped(Add(Init(horizon), t, v), None)
  {
    var b := Add(Init<T>(horizon), t, v);
    assert b.quarantine == [Entry(t + horizon as real, v)];
    var r := Pop(b, t + horizon as real);
    assert r.released.Some?;
    assert |r.base.quarantine| == 0;
  }

  /** Adding at a time no earlier than the previous add keeps release times ordered. */
  lemma AddKeepsOrdered<T>(b: Base<T>, time: real, v: T)
    requires Ordered(b.quarantine)
    requires forall k :: 0 <= k < |b.quarantine| ==> b.quarantine[k].release <= time + b.horizon as real
    ensures Ordered(Add(b, time, v).quarantine)
  {
    var q := Add(b, time, v).quarantine;
    forall i, j | 0 <= i < j < |q|
      ensures q[i].release <= q[j].release
    {
      if j < |b.quarantine| {
        assert q[i] == b.quarantine[i] && q[j] == b.quarantine[j];
      } else {
        assert q[i] == b.quarantine[i];
      }
    }
  }

  /**
   With ordered release times, every entry a release leaves behind has
   already matured: the list keeps older matured values, not pending ones.
   */
  lemma PopLeavesOnlyMatured<T>(b: Base<T>, now: real)
    requires Ordered(b.quarantine)
    requires Pop(b, now).released.Some?
    ensures Ordered(Pop(b, now).base.quarantine)
    ensures forall e :: e in Pop(b, now).base.quarantine ==> e.release <= now
  {
    var r := Pop(b, now);
    var n := |r.base.quarantine|;
    forall e | e in r.base.quarantine
      ensures e.release <= now
    {
      var k :| 0 <= k < n && r.base.quarantine[k] == e;
      assert b.quarantine[k] == e;
    }
  }

  /**
   With ordered release times, the release that follows a successful one (at
   the same or a later time) re-delivers the next-older entry and drops it.
   */
  lemma PopRedeliversNextOlder<T>(b: Base<T>, now: real, later: real)
    requires Ordered(b.quarantine)
    requires now <= later
    requires Pop(b, now).released.Some?
    requires |Pop(b, now).base.quarantine| > 0
    ensures
      var q := Pop(b, now).base.quarantine;
      Pop(Pop(b, now).base, later) == Popped(Pop(b, now).base.(quarantine := q[..|q| - 1]), Some(q[|q| - 1].value))
  {
    var b1 := Pop(b, now).base;
    var q := b1.quarantine;
    var n := |q|;
    assert q[n - 1] == b.quarantine[n - 1];
    assert q[n - 1].release <= b.quarantine[n].release <= now;
    assert IsLastMatured(q, later, n - 1);
    var r := Pop(b1, later);
    assert r.released.Some?;
    LastMaturedUnique(q, later, |r.base.quarantine|, n - 1);
  }

  /**
   A release drops every entry from the returned one onward, including
   entries that have not matured yet: `[(1, a), (2, b)]` released at time 1
   gives back `a` and leaves nothing, so `b` is never delivered.
   */
  lemma PopDropsPendingEntries<T>(horizon: int, count: int, a: T, b: T)
    ensures Pop(Base(horizon, [Entry(1.0, a), Entry(2.0, b)], count), 1.0)
         == Popped(Base(horizon, [], count), Some(a))
  {
    var q := [Entry(1.0, a), Entry(2.0, b)];
    assert IsLastMatured(q, 1.0, 0);
    var r := Pop(Base(horizon, q, count), 1.0);
    LastMaturedUnique(q, 1.0, |r.base.quarantine|, 0);
  }

  /**
   Three values added at times 1, 2 and 3 (horizon h): the release at 3 + h
   gives back the newest, and a second release gives back the middle one
   rather than nothing.
   */
  lemma ThreeAddsReleaseNewestThenOlder<T>(h: int, p1: T, p2: T, p3: T)
    ensures
      var b := Add(Add(Add(Init(h), 1.0, p1), 2.0, p2), 3.0, p3);
      var first := Pop(b, 3.0 + h as real);
      && first.released == Some(p3)
      && Pop(first.base, 3.0 + h as real).released == Some(p2)
  {
    var hr := h as real;
    var b1 := Add(Init<T>(h), 1.0, p1);
    assert b1.quarantine == [Entry(1.0 + hr, p1)];
    var b2 := Add(b1, 2.0, p2);
    assert b2.quarantine == [Entry(1.0 + hr, p1), Entry(2.0 + hr, p2)];
    var b := Add(b2, 3.0, p3);
    var q := [Entry(1.0 + hr, p1), Entry(2.0 + hr, p2), Entry(3.0 + hr, p3)];
    assert b.quarantine == q;
    assert Ordered(q);
    var first := Pop(b, 3.0 + hr);
    assert IsLastMatured(q, 3.0 + hr, 2);
    LastMaturedUnique(q, 3.0 + hr, |first.base.quarantine|, 2);
    PopRedeliversNextOlder(b, 3.0 + hr, 3.0 + hr);
  }
}
