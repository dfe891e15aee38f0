/** The mutable objects the scheduler works on: sessions, networking events
    and tracks, and the values ("views") that record their state at one moment.
    All times are minutes since midnight. */
module Tracks {
  import opened Talks

  /** Which of a track's two sessions. */
  datatype Part = Morning | Evening

  /** The state of one session: its fixed window, its talks in placement
      order, and its unused capacity. */
  datatype SessionView = SessionView(startTime: int, endTime: int, talks: seq<Talk>, timeRemaining: int)

  /** The state of one track: both sessions and the networking start time. */
  datatype TrackView = TrackView(morning: SessionView, evening: SessionView, networkingStart: int)
  {
    function Session(p: Part): SessionView
    {
      match p
      case Morning => morning
      case Evening => evening
    }

    function WithSession(p: Part, s: SessionView): (r: TrackView)
      ensures r.Session(p) == s
      ensures forall q :: q != p ==> r.Session(q) == Session(q)
      ensures r.networkingStart == networkingStart
    {
      match p
      case Morning => this.(morning := s)
      case Evening => this.(evening := s)
    }
  }

  /** A session of a track: a fixed time window, the talks placed in it and
      the capacity still free. */
  class Session {
    const startTime: int
    const endTime: int
    var talks: seq<Talk>
    var timeRemaining: int

    constructor (startTime: int, endTime: int)
      ensures this.startTime == startTime && this.endTime == endTime
      ensures talks == [] && timeRemaining == endTime - startTime
    {
      this.startTime := startTime;
      this.endTime := endTime;
      talks := [];
      timeRemaining := endTime - startTime;
    }

    function View(): SessionView
      reads this
    {
      SessionView(startTime, endTime, talks, timeRemaining)
    }
  }

  /** The networking event that closes a track's day. */
  class Networking {
    var startTime: int

    constructor (startTime: int)
      ensures this.startTime == startTime
    {
      this.startTime := startTime;
    }
  }

  /** A track: a morning and an evening session and a networking event.
      The scheduler changes the objects a track refers to, never the track itself. */
  class Track {
    const name: string
    const morning: Session
    const evening: Session
    const networking: Networking

    constructor (name: string, morning: Session, evening: Session, networking: Networking)
      ensures this.name == name && this.morning == morning
      ensures this.evening == evening && this.networking == networking
    {
      this.name := name;
      this.morning := morning;
      this.evening := evening;
      this.networking := networking;
    }

    function SessionOf(p: Part): Session
    {
      match p
      case Morning => morning
      case Evening => evening
    }

    function Objects(): set<object>
    {
      {morning, evening, networking}
    }

    function View(): (v: TrackView)
      reads Objects()
      ensures forall p :: v.Session(p) == SessionOf(p).View()
    {
      TrackView(morning.View(), evening.View(), networking.startTime)
    }
  }

  /** Every session and every networking event belongs to one track only, so
      that changing one of them changes no other track. */
  ghost predicate Separate(tracks: seq<Track>)
  {
    (forall i, j, p, q :: 0 <= i < |tracks| && 0 <= j < |tracks| && (i != j || p != q) ==>
      tracks[i].SessionOf(p) != tracks[j].SessionOf(q)) &&
    (forall i, j :: 0 <= i < j < |tracks| ==> tracks[i].networking != tracks[j].networking)
  }

  /** The objects whose state the scheduler changes. */
  ghost function Footprint(tracks: seq<Track>): set<object>
  {
    set j, o | 0 <= j < |tracks| && o in tracks[j].Objects() :: o
  }

  /** The state of every track, in track order. */
  function Views(tracks: seq<Track>): (v: seq<TrackView>)
    reads Footprint(tracks)
    ensures |v| == |tracks|
    ensures forall i :: 0 <= i < |tracks| ==> v[i] == tracks[i].View()
  {
    seq(|tracks|, i requires 0 <= i < |tracks| reads Footprint(tracks) => tracks[i].View())
  }

  lemma {:induction false} FootprintHas(tracks: seq<Track>, i: int)
    requires 0 <= i < |tracks|
    ensures tracks[i].Objects() <= Footprint(tracks)
  {
    if i > 0 {
      FootprintHas(tracks[1..], i - 1);
    }
  }

  /** Under Separate, no object of track `k` belongs to another track, and
      a track's two sessions are two objects. */
  lemma SeparateTrack(tracks: seq<Track>, k: int)
    requires Separate(tracks) && 0 <= k < |tracks|
    ensures tracks[k].morning != tracks[k].evening
    ensures forall j :: 0 <= j < |tracks| && j != k ==>
      tracks[j].morning !in {tracks[k].morning, tracks[k].evening} &&
      tracks[j].evening !in {tracks[k].morning, tracks[k].evening} &&
      tracks[j].networking != tracks[k].networking
  {
    assert tracks[k].SessionOf(Morning) != tracks[k].SessionOf(Evening);
    forall j | 0 <= j < |tracks| && j != k
      ensures tracks[j].morning !in {tracks[k].morning, tracks[k].evening}
      ensures tracks[j].evening !in {tracks[k].morning, tracks[k].evening}
      ensures tracks[j].networking != tracks[k].networking
    {
      assert tracks[j].SessionOf(Morning) != tracks[k].SessionOf(Morning);
      assert tracks[j].SessionOf(Morning) != tracks[k].SessionOf(Evening);
      assert tracks[j].SessionOf(Evening) != tracks[k].SessionOf(Morning);
      assert tracks[j].SessionOf(Evening) != tracks[k].SessionOf(Evening);
    }
  }

  /** A track whose objects are all unchanged shows the same view. */
  twostate lemma TrackUnchanged(t: Track)
    requires unchanged(t.morning) && unchanged(t.evening) && unchanged(t.networking)
    ensures t.View() == old(t.View())
  {
  }

  /** When only objects of track `k` changed, the views change in entry `k` only. */
  twostate lemma OneTrackChanged(new tracks: seq<Track>, k: int, new changed: set<object>)
    requires Separate(tracks) && 0 <= k < |tracks|
    requires forall j :: 0 <= j < |tracks| ==> old(allocated(tracks[j]))
    requires changed <= tracks[k].Objects()
    requires forall o :: o in Footprint(tracks) && o !in changed && old(allocated(o)) ==> unchanged(o)
    ensures Views(tracks) == old(Views(tracks))[k := tracks[k].View()]
  {
    SeparateTrack(tracks, k);
    forall j | 0 <= j < |tracks| && j != k
      ensures tracks[j].View() == old(tracks[j].View())
    {
      var t := tracks[j];
      FootprintHas(tracks, j);
      assert t.morning in t.Objects() && t.evening in t.Objects() && t.networking in t.Objects();
      assert t.morning !in changed && t.evening !in changed && t.networking !in changed;
      TrackUnchanged(t);
    }
  }
}
