# Conference track scheduler

A model of the greedy scheduler of ConferenceTrackManagement, `SimpleScheduler.Schedule`. It takes a list of tracks and a list of talks and works in four steps:

1. It orders the talks by length in minutes, longest first. The sort is stable, so talks of equal length keep their input order.
2. It empties the morning and evening session of every track, giving each session its whole window as remaining time.
3. It places each talk first-fit, in the sorted order:
   - into the first track's morning session that has room;
   - otherwise into the first track's evening session that has room;
   - otherwise nowhere.
4. It starts every track's networking event at the evening's end minus the evening's unused time.

The project has four modules:

- `Talks` (talks.dfy): talks, durations and a talk's length in minutes (`value * unit`, with 1 for minutes and 60 for hours). It also holds the stable longest-first order as a function and proves what pins that order down.
- `Tracks` (tracks.dfy): the mutable objects, as classes with the source's fields. `Session` has talks and remaining time, `Networking` has a start time, and `Track` refers to two sessions and a networking event. Each object also has a value "view" of its state at one moment. `Separate` states that no session or networking event is shared between tracks. A frame lemma shows that changing one track's objects changes only that track's view.
- `Placement` (placement.dfy): what each step does, as functions on views, and lemmas about the whole schedule. These cover completeness, capacity, balance, ordering inside each session, and the networking time.
- `Scheduler` (scheduler.dfy): the class `SimpleScheduler`. Its methods carry the source's `foreach` loops, which update the sessions and networking events in place. Each method is proved against its function in `Placement`.

The morning pass and the evening pass are one method, `ScheduleIn`, with a `Part` argument (`Morning` or `Evening`). The test `TalkCanBeScheduledIn*` is the predicate `Fits`.

The code drops a talk that fits in no session, with no signal. The design documentation for the scheduler calls for such a talk to be reported. The model follows the code: `Schedule` changes nothing for such a talk. The talks it drops are returned only as a ghost out-parameter, `dropped`, so that completeness can be stated.

## Model

| member | source | states |
|---|---|---|
| Talks.SortByDuration | ConferenceTrackManagement/Scheduler.cs:105-108 | the sorted talks are longest first, a permutation of the input, and keep the input order among talks of equal length (a stable sort) |
| Talks.StableOrderUnique | ConferenceTrackManagement/Scheduler.cs:105-108 | two lists that are both longest first and agree on the order of the talks of every length are equal, so any stable descending sort gives the same order as SortByDuration |
| Scheduler.SimpleScheduler.SortTalks | ConferenceTrackManagement/Scheduler.cs:105-108 | the talk field becomes the stable longest-first order of its old value |
| Placement.Initialize | ConferenceTrackManagement/Scheduler.cs:51-61 | every session of every track is empty with remaining time `end - start`; windows and networking times are kept |
| Placement.InitializeBalanced | ConferenceTrackManagement/Scheduler.cs:51-61 | after the reset, no talk is placed anywhere and every session's remaining time plus its talks' length is its window |
| Scheduler.SimpleScheduler.InitializeTracks | ConferenceTrackManagement/Scheduler.cs:51-61 | the objects of the tracks end in the state Initialize gives for their old state |
| Placement.FirstFit | ConferenceTrackManagement/Scheduler.cs:79-82 | the index found is the first track, in caller order, whose session has room (`duration <= remaining`); no earlier track has room; it is the track count when none has room |
| Placement.PlaceInFirstFit | ConferenceTrackManagement/Scheduler.cs:63-103 | one pass places the talk exactly when some session of that part has room; it then appends it to the first such session, whose remaining time drops by the talk's length, and leaves every other session as it was; a failed pass changes nothing |
| Placement.PlacedKeeps | ConferenceTrackManagement/Scheduler.cs:68-72 | appending a talk that fits keeps every session's window and balance, and no remaining time becomes negative |
| Placement.PlacedCount | ConferenceTrackManagement/Scheduler.cs:70-72 | appending a talk adds exactly one copy of it to the talks placed across all tracks |
| Scheduler.SimpleScheduler.ScheduleIn | ConferenceTrackManagement/Scheduler.cs:63-103 | the objects of the tracks and the returned flag are what PlaceIn gives for the old state, i.e. the first-fit pass over the morning or evening sessions |
| Placement.PlaceTalkMorningFirst | ConferenceTrackManagement/Scheduler.cs:32-40 | a talk is placed iff some session of some track has room; it goes to a morning session whenever one has room; the evening pass runs only when no morning session has room; a talk that fits nowhere changes nothing |
| Placement.PlaceTalkStep | ConferenceTrackManagement/Scheduler.cs:32-40 | placing one talk keeps the windows, balance, no-overbooking and longest-first order of every session |
| Placement.PlaceAllCount | ConferenceTrackManagement/Scheduler.cs:32-40 | after the loop over the talks, the talks placed plus the talks dropped are the talks placed before plus the talks given, counted with multiplicity |
| Placement.PlaceAllKeeps | ConferenceTrackManagement/Scheduler.cs:32-40 | the loop over the talks keeps every window, keeps every session balanced, and keeps every remaining time non-negative |
| Placement.PlaceAllOrdered | ConferenceTrackManagement/Scheduler.cs:32-40 | placing talks in longest-first order keeps each session's talks longest first |
| Scheduler.SimpleScheduler.ScheduleTalks | ConferenceTrackManagement/Scheduler.cs:32-40 | the objects of the tracks end as PlaceAll gives for their old state and the sorted talks; `dropped` lists the talks that fit nowhere |
| Placement.SetNetworking | ConferenceTrackManagement/Scheduler.cs:45-49 | every networking start becomes the evening's end minus the evening's remaining time; sessions are unchanged |
| Scheduler.SimpleScheduler.ScheduleNetworkingEvent | ConferenceTrackManagement/Scheduler.cs:45-49 | the objects of the tracks end in the state SetNetworking gives for their old state |
| Placement.ScheduleNetworking | ConferenceTrackManagement/Scheduler.cs:45-49 | after scheduling, each networking event starts when the evening's talks end, which is the evening's start when no talk went there |
| Placement.ScheduleAccountsForEveryTalk | ConferenceTrackManagement/Scheduler.cs:24-43 | the talks in all sessions plus the dropped talks are exactly the input talks, counted with multiplicity: each occurrence of a talk is in one session or in the dropped list, never both, and none vanish |
| Placement.ScheduleKeepsBalance | ConferenceTrackManagement/Scheduler.cs:24-43 | after scheduling, every session keeps its window and its remaining time plus its talks' total length equals its window |
| Placement.ScheduleWithinCapacity | ConferenceTrackManagement/Scheduler.cs:24-43 | when no window is reversed, no session ends with negative remaining time, so every session's talks fit in its window |
| Placement.ScheduleSessionsLongestFirst | ConferenceTrackManagement/Scheduler.cs:24-43 | after scheduling, every session lists its talks longest first |
| Scheduler.SimpleScheduler.Schedule | ConferenceTrackManagement/Scheduler.cs:24-43 | keeps the tracks and the sorted talks in its fields; leaves the objects in the state ScheduleOutcome gives for their old state; every input talk is placed once or dropped; every session is balanced; every networking event starts at the evening's end minus its remaining time |
| Scheduler.SimpleScheduler.constructor | ConferenceTrackManagement/Scheduler.cs:18-22 | a new scheduler holds no tracks and no talks |

## Left out

- The `IScheduler` interface and the `ToList` copies of the inputs are left out. `Schedule` takes sequences of track objects and talks directly.
- `DateTime` and `TimeSpan` are left out. So is the `double` result of `TotalMinutes`. All times are whole minutes as `int`, which keeps every comparison exact.
- Talks.Minutes does not model 32-bit overflow of `Value * (int)Unit`. The product is an unbounded integer.
- The source files defining `Talk`, `Duration`, `Session`, `Track` and `Networking` are not part of this model. Those types are minimal versions with the fields the scheduler uses.
- Scheduler.SimpleScheduler.Schedule requires `Separate`: no session or networking event is shared between tracks, and a track's two sessions are distinct objects. With shared objects, the in-place updates would act through aliases, and that case is not modelled.
- Scheduler.SimpleScheduler.Schedule returns the dropped talks only as a ghost value. Like the source, it gives the caller no signal for a talk that fits nowhere.
- Placement.ScheduleWithinCapacity requires every window to have `start <= end`. For a reversed window, the reset itself gives a negative remaining time, and the source does not check the windows.
- `_tracks` and `_talks` keeping their values from one call to the next is not modelled beyond one call. Each call overwrites both fields.
- Parsing the talk list and printing the schedule are not part of this model.
