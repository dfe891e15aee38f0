/** The greedy scheduler: it sorts the talks longest first, empties every
    session, places each talk first-fit (morning sessions first, evening
    sessions only when no morning has room) and finally sets each track's
    networking start. Each method is proved against its counterpart in
    module Placement. */
module Scheduler {
  import opened Talks
  import opened Tracks
  import opened Placement

  /** The scheduler object is none of the objects it changes. */
  lemma {:induction false} NotInFootprint(s: SimpleScheduler, tracks: seq<Track>)
    ensures s !in Footprint(tracks)
  {
    if tracks != [] {
      NotInFootprint(s, tracks[1..]);
    }
  }

  /** The first `n` tracks as `done` has them, the others as `v` has them:
      the state of the tracks while a loop over them is at track `n`. */
  ghost function Partly(done: seq<TrackView>, v: seq<TrackView>, n: int): (r: seq<TrackView>)
    requires |done| == |v|
    ensures |r| == |v|
  {
    seq(|v|, i requires 0 <= i < |v| => if i < n then done[i] else v[i])
  }

  /** Placing the first `k + 1` talks is placing the first `k`, then talk `k`. */
  lemma PlaceAllStep(v: seq<TrackView>, ts: seq<Talk>, k: nat)
    requires k < |ts|
    ensures PlaceAll(v, ts[..k + 1]) ==
      var prev := PlaceAll(v, ts[..k]);
      var a := PlaceTalk(prev.tracks, ts[k]);
      Outcome(a.tracks, if a.placed then prev.dropped else prev.dropped + [ts[k]])
  {
    assert ts[..k + 1][..k] == ts[..k];
  }

  /** One more track done. */
  lemma PartlyStep(done: seq<TrackView>, v: seq<TrackView>, n: nat)
    requires |done| == |v| && n < |v|
    ensures Partly(done, v, n)[n := done[n]] == Partly(done, v, n + 1)
  {
  }

  /** The objects of the tracks hold what their views say. */
  lemma ViewsShow(tracks: seq<Track>, v: seq<TrackView>)
    requires Views(tracks) == v
    ensures forall i, p :: 0 <= i < |tracks| ==> tracks[i].SessionOf(p).View() == v[i].Session(p)
    ensures forall i :: 0 <= i < |tracks| ==>
      tracks[i].networking.startTime == v[i].networkingStart && tracks[i].evening.View() == v[i].evening
  {
  }

  class SimpleScheduler {
    /** The tracks and the talks of the last call, as the source keeps them. */
    var tracks: seq<Track>
    var talks: seq<Talk>

    constructor ()
      ensures tracks == [] && talks == []
    {
      tracks := [];
      talks := [];
    }

    /** Schedules `talks` into `tracks`. A talk that fits in no session is
        left out without notice; `dropped` lists those talks for the proof. */
    method Schedule(tracks: seq<Track>, talks: seq<Talk>) returns (ghost dropped: seq<Talk>)
      requires Separate(tracks)
      modifies this, Footprint(tracks)
      ensures this.tracks == tracks && this.talks == SortByDuration(talks)
      ensures Outcome(Views(tracks), dropped) == ScheduleOutcome(old(Views(tracks)), talks)
      ensures AllTalks(Views(tracks)) + multiset(dropped) == multiset(talks)
      ensures forall i, p :: 0 <= i < |tracks| ==>
        var s := tracks[i].SessionOf(p);
        s.timeRemaining + TotalMinutes(s.talks) == s.endTime - s.startTime
      ensures forall i :: 0 <= i < |tracks| ==>
        tracks[i].networking.startTime == tracks[i].evening.endTime - tracks[i].evening.timeRemaining
    {
      ghost var v0 := Views(tracks);
      NotInFootprint(this, tracks);
      this.tracks := tracks;
      this.talks := talks;
      assert Views(tracks) == v0;
      SortTalks();
      assert this.tracks == tracks && this.talks == SortByDuration(talks);
      assert Views(tracks) == v0;
      InitializeTracks();
      assert this.tracks == tracks && this.talks == SortByDuration(talks);
      ghost var v1 := Views(tracks);
      assert v1 == Initialize(v0);
      dropped := ScheduleTalks();
      assert this.tracks == tracks && this.talks == SortByDuration(talks);
      ghost var placed := PlaceAll(v1, SortByDuration(talks));
      assert Views(tracks) == placed.tracks && dropped == placed.dropped;
      ScheduleNetworkingEvent();
      assert this.tracks == tracks && this.talks == SortByDuration(talks);
      ghost var r := ScheduleOutcome(v0, talks);
      assert Views(tracks) == r.tracks && dropped == r.dropped;
      ScheduleAccountsForEveryTalk(v0, talks);
      ScheduleKeepsBalance(v0, talks);
      ScheduleNetworking(v0, talks);
      ViewsShow(tracks, r.tracks);
    }

    /** The loop of Schedule: each talk, in the sorted order, goes to the
        first morning session with room, or else to the first evening session
        with room, or else nowhere. */
    method ScheduleTalks() returns (ghost dropped: seq<Talk>)
      requires Separate(tracks)
      modifies Footprint(tracks)
      ensures Outcome(Views(tracks), dropped) == PlaceAll(old(Views(tracks)), talks)
    {
      NotInFootprint(this, tracks);
      ghost var v0 := Views(tracks);
      dropped := [];
      for k := 0 to |talks|
        invariant Outcome(Views(tracks), dropped) == PlaceAll(v0, talks[..k])
      {
        var talk := talks[k];
        ghost var before := Views(tracks);
        ghost var a := PlaceTalk(before, talk);
        var isScheduledInMorning := ScheduleIn(Morning, talk);
        if isScheduledInMorning {
          assert Views(tracks) == a.tracks && a.placed;
        } else {
          assert Views(tracks) == before;
          var isScheduledInEvening := ScheduleIn(Evening, talk);
          assert Attempt(Views(tracks), isScheduledInEvening) == a;
          if !isScheduledInEvening {
            dropped := dropped + [talk];
          }
        }
        assert Outcome(Views(tracks), dropped) == PlaceAll(v0, talks[..k + 1]) by {
          PlaceAllStep(v0, talks, k);
        }
      }
      assert talks[..|talks|] == talks;
    }

    /** Orders the talks longest first, keeping input order among equals. */
    method SortTalks()
      modifies this`talks
      ensures talks == SortByDuration(old(talks))
    {
      talks := SortByDuration(talks);
    }

    /** Empties every session and gives it its whole window. */
    method InitializeTracks()
      requires Separate(tracks)
      modifies Footprint(tracks)
      ensures Views(tracks) == Initialize(old(Views(tracks)))
    {
      NotInFootprint(this, tracks);
      var ts := tracks;
      ghost var v0 := Views(ts);
      assert Partly(Initialize(v0), v0, 0) == v0;
      for i := 0 to |ts|
        invariant Views(ts) == Partly(Initialize(v0), v0, i)
      {
        var track := ts[i];
        assert track.Objects() <= Footprint(ts) by {
          FootprintHas(ts, i);
        }
        assert track.morning != track.evening by {
          SeparateTrack(ts, i);
        }
        ghost var was := track.View();
        assert was == v0[i];
        label Before:
        track.morning.talks := [];
        track.morning.timeRemaining := track.morning.endTime - track.morning.startTime;
        ghost var morning := track.morning.View();
        track.evening.talks := [];
        track.evening.timeRemaining := track.evening.endTime - track.evening.startTime;
        assert Views(ts) == Partly(Initialize(v0), v0, i + 1) by {
          OneTrackChanged@Before(ts, i, {track.morning, track.evening});
          assert morning == Reset(was.morning) && track.morning.View() == morning;
          assert track.evening.View() == Reset(was.evening);
          assert track.View() == TrackView(Reset(was.morning), Reset(was.evening), was.networkingStart);
          PartlyStep(Initialize(v0), v0, i);
        }
      }
      assert Partly(Initialize(v0), v0, |ts|) == Initialize(v0);
    }

    /** First-fit over session `p` of every track, in track order: the talk
        goes to the first session with room, whose remaining time drops by
        the talk's length. Returns whether the talk was placed. */
    method ScheduleIn(p: Part, talk: Talk) returns (placed: bool)
      requires Separate(tracks)
      modifies Footprint(tracks)
      ensures Attempt(Views(tracks), placed) == PlaceIn(old(Views(tracks)), p, talk)
    {
      NotInFootprint(this, tracks);
      var ts := tracks;
      ghost var v0 := Views(ts);
      for i := 0 to |ts|
        invariant Views(ts) == v0
        invariant forall j :: 0 <= j < i ==> !Fits(Minutes(talk), v0[j].Session(p))
      {
        var duration := Minutes(talk);
        var session := ts[i].SessionOf(p);
        if Fits(duration, session.View()) {
          assert session in Footprint(ts) by {
            FootprintHas(ts, i);
            assert session in ts[i].Objects();
          }
          SeparateTrack(ts, i);
          label Before:
          session.talks := session.talks + [talk];
          session.timeRemaining := session.timeRemaining - duration;
          OneTrackChanged@Before(ts, i, {session});
          assert ts[i].View() == v0[i].WithSession(p, Add(v0[i].Session(p), talk));
          assert PlaceIn(v0, p, talk) == Attempt(Placed(v0, i, p, talk), true) by {
            assert FirstFit(v0, p, duration) == i;
          }
          return true;
        }
      }
      assert FirstFit(v0, p, Minutes(talk)) == |ts|;
      return false;
    }

    /** Starts every networking event when its evening's talks end. */
    method ScheduleNetworkingEvent()
      requires Separate(tracks)
      modifies Footprint(tracks)
      ensures Views(tracks) == SetNetworking(old(Views(tracks)))
    {
      NotInFootprint(this, tracks);
      var ts := tracks;
      ghost var v0 := Views(ts);
      assert Partly(SetNetworking(v0), v0, 0) == v0;
      for i := 0 to |ts|
        invariant Views(ts) == Partly(SetNetworking(v0), v0, i)
      {
        var track := ts[i];
        assert track.networking in Footprint(ts) by {
          FootprintHas(ts, i);
          assert track.networking in track.Objects();
        }
        label Before:
        track.networking.startTime := track.evening.endTime - track.evening.timeRemaining;
        assert Views(ts) == Partly(SetNetworking(v0), v0, i + 1) by {
          OneTrackChanged@Before(ts, i, {track.networking});
          assert track.View() == SetNetworking(v0)[i];
          PartlyStep(SetNetworking(v0), v0, i);
        }
      }
      assert Partly(SetNetworking(v0), v0, |ts|) == SetNetworking(v0);
    }
  }
}
