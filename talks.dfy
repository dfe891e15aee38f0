/** Talks and their durations, and the order in which the scheduler
    considers them: longest first, ties in input order. */
module Talks {

  /** The unit of a duration; each unit is a whole number of minutes. */
  datatype TimeUnit = Minute | Hour

  /** Minutes per unit: the integer value of the unit enumeration. */
  function Multiplier(u: TimeUnit): (m: int)
    ensures m > 0
  {
    match u
    case Minute => 1
    case Hour => 60
  }

  datatype Duration = Duration(value: int, unit: TimeUnit)

  /** A talk is an immutable value: the scheduler reads it and never changes it. */
  datatype Talk = Talk(title: string, duration: Duration)

  /** The length of a talk in minutes, `Value * (int)Unit`. */
  function Minutes(t: Talk): int
  {
    t.duration.value * Multiplier(t.duration.unit)
  }

  /** The summed length of a list of talks. */
  function TotalMinutes(ts: seq<Talk>): int
  {
    if ts == [] then 0 else TotalMinutes(ts[..|ts| - 1]) + Minutes(ts[|ts| - 1])
  }

  /** No talk is longer than one before it. */
  ghost predicate Descending(ts: seq<Talk>)
  {
    forall i, j :: 0 <= i < j < |ts| ==> Minutes(ts[i]) >= Minutes(ts[j])
  }

  /** The talks of `ts` that last exactly `m` minutes, in their order in `ts`.
      A sort is stable when it leaves every such list as it was. */
  function WithMinutes(ts: seq<Talk>, m: int): seq<Talk>
  {
    if ts == [] then []
    else (if Minutes(ts[0]) == m then [ts[0]] else []) + WithMinutes(ts[1..], m)
  }

  lemma {:induction false} WithMinutesMembers(ts: seq<Talk>, m: int, x: Talk)
    ensures x in WithMinutes(ts, m) <==> x in ts && Minutes(x) == m
  {
    if ts != [] {
      WithMinutesMembers(ts[1..], m, x);
      assert ts == [ts[0]] + ts[1..];
    }
  }

  /** Puts `t` in front of the first talk of `ts` that is not longer than it. */
  function InsertByDuration(t: Talk, ts: seq<Talk>): seq<Talk>
  {
    if ts == [] || Minutes(ts[0]) <= Minutes(t) then [t] + ts
    else [ts[0]] + InsertByDuration(t, ts[1..])
  }

  /** Inserting adds exactly one copy of `t` and removes nothing. */
  lemma {:induction false} InsertByDurationCount(t: Talk, ts: seq<Talk>)
    ensures multiset(InsertByDuration(t, ts)) == multiset(ts) + multiset{t}
  {
    if ts != [] && Minutes(ts[0]) > Minutes(t) {
      InsertByDurationCount(t, ts[1..]);
      assert ts == [ts[0]] + ts[1..];
    }
  }

  /** Inserting into a longest-first list keeps it longest-first. */
  lemma {:induction false} InsertByDurationOrdered(t: Talk, ts: seq<Talk>)
    requires Descending(ts)
    ensures Descending(InsertByDuration(t, ts))
  {
    var r := InsertByDuration(t, ts);
    if ts == [] || Minutes(ts[0]) <= Minutes(t) {
      assert r == [t] + ts;
      assert forall j :: 0 < j < |r| ==> r[j] == ts[j - 1];
    } else {
      var rest := InsertByDuration(t, ts[1..]);
      InsertByDurationOrdered(t, ts[1..]);
      assert r == [ts[0]] + rest;
      assert Minutes(ts[0]) >= Minutes(rest[0]);
      forall i, j | 0 <= i < j < |r|
        ensures Minutes(r[i]) >= Minutes(r[j])
      {
        assert r[j] == rest[j - 1];
        if i > 0 {
          assert r[i] == rest[i - 1];
        } else if j > 1 {
          assert Minutes(rest[0]) >= Minutes(rest[j - 1]);
        }
      }
    }
  }

  /** Inserting `t` puts it first among the talks of its own duration and
      leaves the talks of every other duration as they were. */
  lemma {:induction false} InsertByDurationStable(t: Talk, ts: seq<Talk>, m: int)
    ensures WithMinutes(InsertByDuration(t, ts), m)
         == if m == Minutes(t) then [t] + WithMinutes(ts, m) else WithMinutes(ts, m)
  {
    if ts == [] || Minutes(ts[0]) <= Minutes(t) {
      assert ([t] + ts)[1..] == ts;
    } else {
      var rest := InsertByDuration(t, ts[1..]);
      InsertByDurationStable(t, ts[1..], m);
      assert ([ts[0]] + rest)[1..] == rest;
    }
  }

  /** The talks ordered by duration, longest first; talks of equal duration
      keep their input order (LINQ's OrderByDescending is a stable sort). */
  function SortByDuration(ts: seq<Talk>): (r: seq<Talk>)
    ensures Descending(r)
    ensures multiset(r) == multiset(ts)
    ensures forall m :: WithMinutes(r, m) == WithMinutes(ts, m)
  {
    if ts == [] then []
    else
      var sorted := SortByDuration(ts[1..]);
      InsertByDurationOrdered(ts[0], sorted);
      InsertByDurationCount(ts[0], sorted);
      SortStableStep(ts, sorted);
      assert ts == [ts[0]] + ts[1..];
      InsertByDuration(ts[0], sorted)
  }

  /** Helper for SortByDuration: inserting the head into the sorted tail is stable. */
  lemma SortStableStep(ts: seq<Talk>, sorted: seq<Talk>)
    requires ts != []
    requires forall m :: WithMinutes(sorted, m) == WithMinutes(ts[1..], m)
    ensures forall m :: WithMinutes(InsertByDuration(ts[0], sorted), m) == WithMinutes(ts, m)
  {
    forall m
      ensures WithMinutes(InsertByDuration(ts[0], sorted), m) == WithMinutes(ts, m)
    {
      InsertByDurationStable(ts[0], sorted, m);
    }
  }

  /** The three properties of SortByDuration determine the order completely:
      two lists that are both longest-first and agree on the talks of every
      duration are equal. So any stable descending sort gives SortByDuration's result. */
  lemma {:induction false} StableOrderUnique(a: seq<Talk>, b: seq<Talk>)
    requires Descending(a) && Descending(b)
    requires forall m :: WithMinutes(a, m) == WithMinutes(b, m)
    ensures a == b
  {
    if a == [] || b == [] {
      // a talk on one side would have to appear among the other side's talks of its duration
      if a != [] {
        HasOwnDuration(a);
      } else if b != [] {
        HasOwnDuration(b);
      }
    } else {
      var m := Minutes(a[0]);
      HeadIsLongest(a, b);
      HeadIsLongest(b, a);
      assert Minutes(b[0]) == m;
      assert WithMinutes(a, m) == [a[0]] + WithMinutes(a[1..], m);
      assert WithMinutes(b, m) == [b[0]] + WithMinutes(b[1..], m);
      assert WithMinutes(a, m) == WithMinutes(b, m);
      assert a[0] == WithMinutes(a, m)[0] == b[0];
      forall k
        ensures WithMinutes(a[1..], k) == WithMinutes(b[1..], k)
      {
        assert WithMinutes(a, k) == WithMinutes(b, k);
        if k == m {
          assert WithMinutes(a, k)[1..] == WithMinutes(a[1..], k);
          assert WithMinutes(b, k)[1..] == WithMinutes(b[1..], k);
        } else {
          assert WithMinutes(a, k) == WithMinutes(a[1..], k);
          assert WithMinutes(b, k) == WithMinutes(b[1..], k);
        }
      }
      StableOrderUnique(a[1..], b[1..]);
      assert a == [a[0]] + a[1..];
      assert b == [b[0]] + b[1..];
    }
  }

  /** Helper: the first talk of a list is among the list's talks of its own duration. */
  lemma HasOwnDuration(ts: seq<Talk>)
    requires ts != []
    ensures WithMinutes(ts, Minutes(ts[0])) != []
  {
  }

  /** Helper: the first talk of `a` is at least as long as the first of `b`
      when `b` holds only talks that `a` holds. */
  lemma HeadIsLongest(a: seq<Talk>, b: seq<Talk>)
    requires a != [] && b != [] && Descending(a)
    requires forall m :: WithMinutes(a, m) == WithMinutes(b, m)
    ensures Minutes(a[0]) >= Minutes(b[0])
  {
    WithMinutesMembers(b, Minutes(b[0]), b[0]);
    WithMinutesMembers(a, Minutes(b[0]), b[0]);
    var j :| 0 <= j < |a| && a[j] == b[0];
  }
}
