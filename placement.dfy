/** What each step of the greedy scheduler does, stated on track views, and
    the properties of the whole schedule: every talk is placed at most once
    or dropped, no session is overbooked, each session's remaining time
    accounts for its talks, and each networking event starts when the
    evening's talks end. */
module Placement {
  import opened Talks
  import opened Tracks

  /* ---------------- Initialisation ---------------- */

  /** A session emptied to its full window. */
  function Reset(s: SessionView): SessionView
  {
    s.(talks := [], timeRemaining := s.endTime - s.startTime)
  }

  /** Every track's two sessions emptied, each with its whole window free. */
  function Initialize(v: seq<TrackView>): (r: seq<TrackView>)
    ensures |r| == |v|
    ensures forall i, p :: 0 <= i < |v| ==>
      var s := r[i].Session(p);
      s.talks == [] && s.timeRemaining == s.endTime - s.startTime &&
      s.startTime == v[i].Session(p).startTime && s.endTime == v[i].Session(p).endTime
    ensures forall i :: 0 <= i < |v| ==> r[i].networkingStart == v[i].networkingStart
  {
    seq(|v|, i requires 0 <= i < |v| => TrackView(Reset(v[i].morning), Reset(v[i].evening), v[i].networkingStart))
  }


  /* ---------------- First-fit placement ---------------- */

  /** A talk of `duration` minutes can go into session `s`. */
  predicate Fits(duration: int, s: SessionView)
  {
    duration <= s.timeRemaining
  }

  /** The first track, in caller order, whose session `p` has room for
      `duration` minutes; `|v|` when there is none. */
  function FirstFit(v: seq<TrackView>, p: Part, duration: int): (k: nat)
    ensures k <= |v|
    ensures forall j :: 0 <= j < k ==> !Fits(duration, v[j].Session(p))
    ensures k < |v| ==> Fits(duration, v[k].Session(p))
  {
    if v == [] then 0
    else if Fits(duration, v[0].Session(p)) then 0
    else 1 + FirstFit(v[1..], p, duration)
  }

  /** A session with `t` appended and its remaining time lowered by `t`'s length. */
  function Add(s: SessionView, t: Talk): SessionView
  {
    s.(talks := s.talks + [t], timeRemaining := s.timeRemaining - Minutes(t))
  }

  /** The tracks with `t` appended to session `p` of track `k`. */
  function Placed(v: seq<TrackView>, k: nat, p: Part, t: Talk): seq<TrackView>
    requires k < |v|
  {
    v[k := v[k].WithSession(p, Add(v[k].Session(p), t))]
  }

  /** The tracks after an attempt to place one talk, and whether it was placed. */
  datatype Attempt = Attempt(tracks: seq<TrackView>, placed: bool)

  /** One pass over session `p` of every track (ScheduleInMorning / ScheduleInEvening). */
  function PlaceIn(v: seq<TrackView>, p: Part, t: Talk): (r: Attempt)
    ensures |r.tracks| == |v|
  {
    var k := FirstFit(v, p, Minutes(t));
    if k < |v| then Attempt(Placed(v, k, p, t), true)
    else Attempt(v, false)
  }

  /** A pass succeeds exactly when some track's session `p` has room; the talk
      then goes to the end of the first such session, in caller order, whose
      remaining time drops by the talk's length; every other session is unchanged.
      A pass that fails changes nothing. */
  lemma PlaceInFirstFit(v: seq<TrackView>, p: Part, t: Talk)
    ensures PlaceIn(v, p, t).placed <==> exists i :: 0 <= i < |v| && Fits(Minutes(t), v[i].Session(p))
    ensures !PlaceIn(v, p, t).placed ==> PlaceIn(v, p, t).tracks == v
    ensures PlaceIn(v, p, t).placed ==> exists k :: (0 <= k < |v| && Fits(Minutes(t), v[k].Session(p)) &&
      (forall j :: 0 <= j < k ==> !Fits(Minutes(t), v[j].Session(p))) &&
      PlaceIn(v, p, t).tracks == Placed(v, k, p, t))
  {
    var k := FirstFit(v, p, Minutes(t));
    if k < |v| {
      assert Fits(Minutes(t), v[k].Session(p));
    }
  }

  /** The morning pass, and the evening pass only when the morning pass failed. */
  function PlaceTalk(v: seq<TrackView>, t: Talk): (r: Attempt)
    ensures |r.tracks| == |v|
  {
    var morning := PlaceIn(v, Morning, t);
    if morning.placed then morning else PlaceIn(v, Evening, t)
  }

  /** A talk is placed exactly when some session of some track has room for it.
      It goes to a morning session whenever one has room, and to an evening
      session only when no morning session has room. A talk that fits nowhere
      changes nothing. */
  lemma PlaceTalkMorningFirst(v: seq<TrackView>, t: Talk)
    ensures PlaceTalk(v, t).placed <==> exists i, q :: 0 <= i < |v| && Fits(Minutes(t), v[i].Session(q))
    ensures (exists i :: 0 <= i < |v| && Fits(Minutes(t), v[i].Session(Morning))) ==> PlaceTalk(v, t) == PlaceIn(v, Morning, t)
    ensures (forall i :: 0 <= i < |v| ==> !Fits(Minutes(t), v[i].Session(Morning))) ==> PlaceTalk(v, t) == PlaceIn(v, Evening, t)
    ensures !PlaceTalk(v, t).placed ==> PlaceTalk(v, t).tracks == v
  {
    PlaceInFirstFit(v, Morning, t);
    PlaceInFirstFit(v, Evening, t);
    if exists i, q :: 0 <= i < |v| && Fits(Minutes(t), v[i].Session(q)) {
      var i, q :| 0 <= i < |v| && Fits(Minutes(t), v[i].Session(q));
      assert q == Morning || q == Evening;
    }
  }

  /** The tracks after placing talks in order, and the talks that fit nowhere. */
  datatype Outcome = Outcome(tracks: seq<TrackView>, dropped: seq<Talk>)

  /** Places `ts` one after the other, as the loop over the sorted talks does. */
  function PlaceAll(v: seq<TrackView>, ts: seq<Talk>): (r: Outcome)
    ensures |r.tracks| == |v|
    decreases |ts|
  {
    if ts == [] then Outcome(v, [])
    else
      var prev := PlaceAll(v, ts[..|ts| - 1]);
      var t := ts[|ts| - 1];
      var a := PlaceTalk(prev.tracks, t);
      Outcome(a.tracks, if a.placed then prev.dropped else prev.dropped + [t])
  }

  /* ---------------- Networking ---------------- */

  /** Every networking event set to start when its evening's talks end. */
  function SetNetworking(v: seq<TrackView>): (r: seq<TrackView>)
    ensures |r| == |v|
    ensures forall i :: 0 <= i < |v| ==>
      r[i].morning == v[i].morning && r[i].evening == v[i].evening &&
      r[i].networkingStart == v[i].evening.endTime - v[i].evening.timeRemaining
  {
    seq(|v|, i requires 0 <= i < |v| => v[i].(networkingStart := v[i].evening.endTime - v[i].evening.timeRemaining))
  }

  /* ---------------- The whole schedule ---------------- */

  /** Sort, reset, place every talk, set the networking times. */
  function ScheduleOutcome(v: seq<TrackView>, talks: seq<Talk>): (r: Outcome)
    ensures |r.tracks| == |v|
  {
    var placed := PlaceAll(Initialize(v), SortByDuration(talks));
    Outcome(SetNetworking(placed.tracks), placed.dropped)
  }

  /* ---------------- Invariants of the sessions ---------------- */

  /** The remaining time of a session accounts exactly for its talks. */
  ghost predicate Balanced(s: SessionView)
  {
    s.timeRemaining + TotalMinutes(s.talks) == s.endTime - s.startTime
  }

  ghost predicate AllBalanced(v: seq<TrackView>)
  {
    forall i, p :: 0 <= i < |v| ==> Balanced(v[i].Session(p))
  }

  /** No session has negative remaining time. */
  ghost predicate NotOverbooked(v: seq<TrackView>)
  {
    forall i, p :: 0 <= i < |v| ==> v[i].Session(p).timeRemaining >= 0
  }

  /** Same tracks with the same session windows. */
  ghost predicate SameWindows(v: seq<TrackView>, w: seq<TrackView>)
  {
    |v| == |w| &&
    forall i, p :: 0 <= i < |v| ==>
      w[i].Session(p).startTime == v[i].Session(p).startTime && w[i].Session(p).endTime == v[i].Session(p).endTime
  }

  /** Each session holds its talks longest first. */
  ghost predicate SessionsDescending(v: seq<TrackView>)
  {
    forall i, p :: 0 <= i < |v| ==> Descending(v[i].Session(p).talks)
  }

  /** Every talk placed anywhere lasts at least `m` minutes. */
  ghost predicate AtLeast(v: seq<TrackView>, m: int)
  {
    forall i, p, x :: 0 <= i < |v| && x in v[i].Session(p).talks ==> Minutes(x) >= m
  }

  /** The talks of both sessions of a track. */
  function TrackTalks(tv: TrackView): multiset<Talk>
  {
    multiset(tv.morning.talks) + multiset(tv.evening.talks)
  }

  /** The talks placed anywhere. */
  function AllTalks(v: seq<TrackView>): multiset<Talk>
  {
    if v == [] then multiset{} else TrackTalks(v[0]) + AllTalks(v[1..])
  }

  /* ---------------- One placement ---------------- */

  lemma TotalMinutesAppend(ts: seq<Talk>, t: Talk)
    ensures TotalMinutes(ts + [t]) == TotalMinutes(ts) + Minutes(t)
  {
    assert (ts + [t])[..|ts|] == ts;
  }

  /** Replacing one track changes the placed talks by the difference of the two tracks. */
  lemma {:induction false} AllTalksUpdate(v: seq<TrackView>, k: nat, w: TrackView)
    requires k < |v|
    ensures AllTalks(v[k := w]) + TrackTalks(v[k]) == AllTalks(v) + TrackTalks(w)
  {
    if k == 0 {
      assert v[k := w][1..] == v[1..];
    } else {
      AllTalksUpdate(v[1..], k - 1, w);
      assert v[1..][k - 1] == v[k];
      assert v[k := w][0] == v[0];
      assert v[k := w][1..] == v[1..][k - 1 := w];
      calc {
        AllTalks(v[k := w]) + TrackTalks(v[k]);
        TrackTalks(v[0]) + (AllTalks(v[1..][k - 1 := w]) + TrackTalks(v[1..][k - 1]));
        TrackTalks(v[0]) + (AllTalks(v[1..]) + TrackTalks(w));
        AllTalks(v) + TrackTalks(w);
      }
    }
  }

  /** Appending `t` to session `p` of track `k` changes that session only. */
  lemma PlacedSessions(v: seq<TrackView>, k: nat, p: Part, t: Talk)
    requires k < |v|
    ensures |Placed(v, k, p, t)| == |v|
    ensures forall i, q :: 0 <= i < |v| ==>
      Placed(v, k, p, t)[i].Session(q) == if i == k && q == p then Add(v[k].Session(p), t) else v[i].Session(q)
  {
  }

  /** Appending `t` adds it once to the placed talks. */
  lemma PlacedCount(v: seq<TrackView>, k: nat, p: Part, t: Talk)
    requires k < |v|
    ensures AllTalks(Placed(v, k, p, t)) == AllTalks(v) + multiset{t}
  {
    var tv := v[k].WithSession(p, Add(v[k].Session(p), t));
    assert Placed(v, k, p, t) == v[k := tv];
    TrackTalksAdd(v[k], p, t);
    AllTalksUpdate(v, k, tv);
    MultisetCancel(AllTalks(v[k := tv]), AllTalks(v) + multiset{t}, TrackTalks(v[k]));
  }

  lemma MultisetCancel(a: multiset<Talk>, b: multiset<Talk>, c: multiset<Talk>)
    requires a + c == b + c
    ensures a == b
  {
    assert forall x :: a[x] == (a + c)[x] - c[x];
  }

  lemma TrackTalksAdd(tv: TrackView, p: Part, t: Talk)
    ensures TrackTalks(tv.WithSession(p, Add(tv.Session(p), t))) == TrackTalks(tv) + multiset{t}
  {
    var s := tv.Session(p);
    assert multiset(s.talks + [t]) == multiset(s.talks) + multiset{t};
  }

  /** Appending `t` keeps windows and balance, and keeps every session within
      its window when `t` fitted. */
  lemma PlacedKeeps(v: seq<TrackView>, k: nat, p: Part, t: Talk)
    requires k < |v|
    ensures SameWindows(v, Placed(v, k, p, t))
    ensures AllBalanced(v) ==> AllBalanced(Placed(v, k, p, t))
    ensures NotOverbooked(v) && Fits(Minutes(t), v[k].Session(p)) ==> NotOverbooked(Placed(v, k, p, t))
  {
    PlacedSessions(v, k, p, t);
    TotalMinutesAppend(v[k].Session(p).talks, t);
  }

  /** Appending a talk no longer than any placed one keeps every session longest first. */
  lemma PlacedOrdered(v: seq<TrackView>, k: nat, p: Part, t: Talk)
    requires k < |v|
    ensures AtLeast(v, Minutes(t)) && SessionsDescending(v) ==> SessionsDescending(Placed(v, k, p, t))
    ensures forall m :: AtLeast(v, m) && Minutes(t) >= m ==> AtLeast(Placed(v, k, p, t), m)
  {
    var w := Placed(v, k, p, t);
    var s := v[k].Session(p);
    PlacedSessions(v, k, p, t);
    if AtLeast(v, Minutes(t)) && SessionsDescending(v) {
      forall i, j | 0 <= i < j < |s.talks| + 1
        ensures Minutes((s.talks + [t])[i]) >= Minutes((s.talks + [t])[j])
      {
        if j == |s.talks| {
          assert s.talks[i] in v[k].Session(p).talks;
        }
      }
      assert Descending(w[k].Session(p).talks);
    }
  }

  /** Appending `t` to one session: every invariant of PlaceTalkStep. */
  lemma PlacedStep(v: seq<TrackView>, k: nat, p: Part, t: Talk)
    requires k < |v|
    ensures AllTalks(Placed(v, k, p, t)) == AllTalks(v) + multiset{t}
    ensures SameWindows(v, Placed(v, k, p, t))
    ensures AllBalanced(v) ==> AllBalanced(Placed(v, k, p, t))
    ensures NotOverbooked(v) && Fits(Minutes(t), v[k].Session(p)) ==> NotOverbooked(Placed(v, k, p, t))
    ensures AtLeast(v, Minutes(t)) && SessionsDescending(v) ==> SessionsDescending(Placed(v, k, p, t))
    ensures forall m :: AtLeast(v, m) && Minutes(t) >= m ==> AtLeast(Placed(v, k, p, t), m)
  {
    PlacedCount(v, k, p, t);
    PlacedKeeps(v, k, p, t);
    PlacedOrdered(v, k, p, t);
  }

  /** Placing one talk: it is added to exactly one session or to none, and
      balance, windows and the no-overbooking invariant are kept. */
  lemma PlaceTalkStep(v: seq<TrackView>, t: Talk)
    ensures SameWindows(v, PlaceTalk(v, t).tracks)
    ensures AllBalanced(v) ==> AllBalanced(PlaceTalk(v, t).tracks)
    ensures NotOverbooked(v) ==> NotOverbooked(PlaceTalk(v, t).tracks)
    ensures AtLeast(v, Minutes(t)) && SessionsDescending(v) ==> SessionsDescending(PlaceTalk(v, t).tracks)
    ensures forall m :: AtLeast(v, m) && Minutes(t) >= m ==> AtLeast(PlaceTalk(v, t).tracks, m)
  {
    var k, p := PlaceTalkWhere(v, t);
    if PlaceTalk(v, t).placed {
      PlacedStep(v, k, p, t);
    }
  }

  /** Where PlaceTalk put the talk: into one session that had room, or nowhere. */
  lemma PlaceTalkWhere(v: seq<TrackView>, t: Talk) returns (k: nat, p: Part)
    ensures PlaceTalk(v, t).placed ==>
      k < |v| && Fits(Minutes(t), v[k].Session(p)) && PlaceTalk(v, t).tracks == Placed(v, k, p, t)
    ensures !PlaceTalk(v, t).placed ==> PlaceTalk(v, t).tracks == v
  {
    var r := PlaceTalk(v, t);
    PlaceInFirstFit(v, Morning, t);
    PlaceInFirstFit(v, Evening, t);
    k, p := 0, Morning;
    if r.placed {
      p := if r == PlaceIn(v, Morning, t) then Morning else Evening;
      assert r == PlaceIn(v, p, t);
      k :| 0 <= k < |v| && Fits(Minutes(t), v[k].Session(p)) && r.tracks == Placed(v, k, p, t);
    }
  }

  /* ---------------- All placements ---------------- */

  lemma SameWindowsTrans(u: seq<TrackView>, v: seq<TrackView>, w: seq<TrackView>)
    requires SameWindows(u, v) && SameWindows(v, w)
    ensures SameWindows(u, w)
  {
  }

  /** Placing a list of talks: each talk ends up in one session or in the
      dropped list. */
  lemma {:induction false} PlaceAllCount(v: seq<TrackView>, ts: seq<Talk>)
    ensures AllTalks(PlaceAll(v, ts).tracks) + multiset(PlaceAll(v, ts).dropped) == AllTalks(v) + multiset(ts)
  {
    if ts != [] {
      var init, t := ts[..|ts| - 1], ts[|ts| - 1];
      var prev := PlaceAll(v, init);
      PlaceAllCount(v, init);
      var a := PlaceTalk(prev.tracks, t);
      var out := PlaceAll(v, ts);
      assert out == Outcome(a.tracks, if a.placed then prev.dropped else prev.dropped + [t]);
      assert a.placed ==> AllTalks(out.tracks) == AllTalks(prev.tracks) + multiset{t} by {
        var k, p := PlaceTalkWhere(prev.tracks, t);
        if a.placed {
          PlacedCount(prev.tracks, k, p, t);
        }
      }
      assert !a.placed ==> out.tracks == prev.tracks by {
        var k, p := PlaceTalkWhere(prev.tracks, t);
      }
      assert multiset(prev.dropped + [t]) == multiset(prev.dropped) + multiset{t};
      MultisetLast(ts);
      CountStep(AllTalks(prev.tracks), multiset(prev.dropped), AllTalks(v), multiset(init),
        AllTalks(out.tracks), multiset(out.dropped), t, a.placed);
    }
  }

  lemma MultisetLast(ts: seq<Talk>)
    requires ts != []
    ensures multiset(ts) == multiset(ts[..|ts| - 1]) + multiset{ts[|ts| - 1]}
  {
    assert ts == ts[..|ts| - 1] + [ts[|ts| - 1]];
  }

  lemma CountStep(placed: multiset<Talk>, dropped: multiset<Talk>, before: multiset<Talk>, given: multiset<Talk>,
                  placed': multiset<Talk>, dropped': multiset<Talk>, t: Talk, ok: bool)
    requires placed + dropped == before + given
    requires ok ==> placed' == placed + multiset{t} && dropped' == dropped
    requires !ok ==> placed' == placed && dropped' == dropped + multiset{t}
    ensures placed' + dropped' == before + (given + multiset{t})
  {
    assert forall x :: (placed' + dropped')[x] == (before + (given + multiset{t}))[x] by {
      forall x
        ensures (placed' + dropped')[x] == (before + (given + multiset{t}))[x]
      {
        assert (placed + dropped)[x] == (before + given)[x];
      }
    }
  }

  /** Placing a list of talks keeps the windows and the session invariants. */
  lemma {:induction false} PlaceAllKeeps(v: seq<TrackView>, ts: seq<Talk>)
    ensures SameWindows(v, PlaceAll(v, ts).tracks)
    ensures AllBalanced(v) ==> AllBalanced(PlaceAll(v, ts).tracks)
    ensures NotOverbooked(v) ==> NotOverbooked(PlaceAll(v, ts).tracks)
  {
    if ts != [] {
      var init, t := ts[..|ts| - 1], ts[|ts| - 1];
      var prev := PlaceAll(v, init);
      PlaceAllKeeps(v, init);
      PlaceTalkStep(prev.tracks, t);
      SameWindowsTrans(v, prev.tracks, PlaceAll(v, ts).tracks);
    }
  }

  /** Placing talks longest first keeps every session longest first. */
  lemma {:induction false} PlaceAllOrdered(v: seq<TrackView>, ts: seq<Talk>, m: int)
    requires Descending(ts) && SessionsDescending(v)
    requires forall j :: 0 <= j < |ts| ==> AtLeast(v, Minutes(ts[j]))
    requires AtLeast(v, m) && forall j :: 0 <= j < |ts| ==> Minutes(ts[j]) >= m
    ensures SessionsDescending(PlaceAll(v, ts).tracks) && AtLeast(PlaceAll(v, ts).tracks, m)
  {
    if ts != [] {
      var init, t := ts[..|ts| - 1], ts[|ts| - 1];
      var prev := PlaceAll(v, init);
      assert Descending(init);
      PlaceAllOrdered(v, init, Minutes(t));
      PlaceAllOrdered(v, init, m);
      PlaceTalkStep(prev.tracks, t);
    }
  }

  /* ---------------- The whole schedule ---------------- */

  lemma {:induction false} NoTalks(v: seq<TrackView>)
    requires forall i, p :: 0 <= i < |v| ==> v[i].Session(p).talks == []
    ensures AllTalks(v) == multiset{}
  {
    if v != [] {
      assert v[0].Session(Morning).talks == [] && v[0].Session(Evening).talks == [];
      NoTalks(v[1..]);
    }
  }

  lemma {:induction false} SameTalks(v: seq<TrackView>, w: seq<TrackView>)
    requires |v| == |w|
    requires forall i :: 0 <= i < |v| ==> v[i].morning == w[i].morning && v[i].evening == w[i].evening
    ensures AllTalks(v) == AllTalks(w)
  {
    if v != [] {
      SameTalks(v[1..], w[1..]);
    }
  }

  /** Initialisation empties every session and makes it balanced. */
  lemma InitializeBalanced(v: seq<TrackView>)
    ensures AllBalanced(Initialize(v)) && SameWindows(v, Initialize(v))
    ensures AllTalks(Initialize(v)) == multiset{}
  {
    NoTalks(Initialize(v));
  }

  /** Completeness: every input talk is either in exactly one session or in
      the dropped list, as often as it occurs in the input. */
  lemma ScheduleAccountsForEveryTalk(v: seq<TrackView>, talks: seq<Talk>)
    ensures AllTalks(ScheduleOutcome(v, talks).tracks) + multiset(ScheduleOutcome(v, talks).dropped) == multiset(talks)
  {
    var placed := PlaceAll(Initialize(v), SortByDuration(talks));
    InitializeBalanced(v);
    PlaceAllCount(Initialize(v), SortByDuration(talks));
    SameTalks(placed.tracks, SetNetworking(placed.tracks));
  }

  /** Capacity: after scheduling, every session's remaining time is its window
      minus its talks' total length, and the windows are the input's. */
  lemma ScheduleKeepsBalance(v: seq<TrackView>, talks: seq<Talk>)
    ensures SameWindows(v, ScheduleOutcome(v, talks).tracks)
    ensures forall i, p :: 0 <= i < |v| ==>
      var s := ScheduleOutcome(v, talks).tracks[i].Session(p);
      s.timeRemaining + TotalMinutes(s.talks) == s.endTime - s.startTime
  {
    var init := Initialize(v);
    var placed := PlaceAll(init, SortByDuration(talks)).tracks;
    InitializeBalanced(v);
    PlaceAllKeeps(init, SortByDuration(talks));
    SameWindowsTrans(v, init, placed);
    SetNetworkingKeeps(placed);
    SameWindowsTrans(v, placed, SetNetworking(placed));
    assert AllBalanced(SetNetworking(placed));
  }

  /** No overbooking: when every window has a non-negative length, no session
      ends with negative remaining time, so its talks fit in its window. */
  lemma ScheduleWithinCapacity(v: seq<TrackView>, talks: seq<Talk>)
    requires forall i, p :: 0 <= i < |v| ==> v[i].Session(p).startTime <= v[i].Session(p).endTime
    ensures forall i, p :: 0 <= i < |v| ==>
      var s := ScheduleOutcome(v, talks).tracks[i].Session(p);
      s.timeRemaining >= 0 && TotalMinutes(s.talks) <= s.endTime - s.startTime
  {
    var init := Initialize(v);
    var placed := PlaceAll(init, SortByDuration(talks)).tracks;
    ScheduleKeepsBalance(v, talks);
    assert NotOverbooked(init);
    PlaceAllKeeps(init, SortByDuration(talks));
    SetNetworkingKeeps(placed);
    assert NotOverbooked(SetNetworking(placed));
  }

  /** Networking starts where the evening's talks end: the evening's end minus
      its unused time, which is the evening's start when no talk went there. */
  lemma ScheduleNetworking(v: seq<TrackView>, talks: seq<Talk>)
    ensures forall i :: 0 <= i < |v| ==>
      var tv := ScheduleOutcome(v, talks).tracks[i];
      tv.networkingStart == tv.evening.endTime - tv.evening.timeRemaining &&
      (tv.evening.talks == [] ==> tv.networkingStart == tv.evening.startTime)
  {
    ScheduleKeepsBalance(v, talks);
    forall i | 0 <= i < |v|
      ensures var tv := ScheduleOutcome(v, talks).tracks[i];
        tv.evening.talks == [] ==> tv.networkingStart == tv.evening.startTime
    {
      assert ScheduleOutcome(v, talks).tracks[i].Session(Evening) == ScheduleOutcome(v, talks).tracks[i].evening;
    }
  }

  /** Talks are considered longest first, so each session lists its talks
      longest first. */
  lemma ScheduleSessionsLongestFirst(v: seq<TrackView>, talks: seq<Talk>)
    ensures forall i, p :: 0 <= i < |v| ==> Descending(ScheduleOutcome(v, talks).tracks[i].Session(p).talks)
  {
    var sorted := SortByDuration(talks);
    var init := Initialize(v);
    var m := if sorted == [] then 0 else Minutes(sorted[|sorted| - 1]);
    EmptyIsOrdered(init);
    assert forall j :: 0 <= j < |sorted| ==> Minutes(sorted[j]) >= m;
    PlaceAllOrdered(init, sorted, m);
    SetNetworkingKeeps(PlaceAll(init, sorted).tracks);
  }

  /** Tracks whose sessions are all empty are trivially ordered. */
  lemma EmptyIsOrdered(w: seq<TrackView>)
    requires forall i, p :: 0 <= i < |w| ==> w[i].Session(p).talks == []
    ensures SessionsDescending(w) && forall m :: AtLeast(w, m)
  {
  }

  /** Setting the networking times changes no session. */
  lemma SetNetworkingKeeps(w: seq<TrackView>)
    ensures SameWindows(w, SetNetworking(w))
    ensures AllBalanced(w) ==> AllBalanced(SetNetworking(w))
    ensures NotOverbooked(w) ==> NotOverbooked(SetNetworking(w))
    ensures SessionsDescending(w) ==> SessionsDescending(SetNetworking(w))
  {
    var x := SetNetworking(w);
    assert forall i, p :: 0 <= i < |w| ==> x[i].Session(p) == w[i].Session(p);
  }
}
