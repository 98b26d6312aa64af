// The time keeping of the filter: ESKF::Predict and the fields around it, and the order in which
// SuperLIO drives them with what sync_measure delivers.
module ClockLaws {
  import opened SyncLaws

  // last_imu_time_, last_obs_time_, current_obs_time_, current_time_
  datatype Clock = Clock(last_imu: real, last_obs: real, obs: real, now: real)

  // The sample only moves last_imu.
  predicate Ignored(c: Clock, secs: real) {
    c.last_imu < 0.0 || secs <= c.last_obs
  }

  // The sample lies beyond the scan that is processed; the step is cut short at its end.
  predicate Beyond(c: Clock, secs: real) {
    !Ignored(c, secs) && c.last_imu >= c.last_obs && secs > c.obs
  }

  function Step(c: Clock, secs: real): real {
    if c.last_imu < c.last_obs then secs - c.last_obs
    else if secs > c.obs then c.obs - c.last_imu
    else secs - c.last_imu
  }

  function Predicted(c: Clock, secs: real): Clock {
    if Ignored(c, secs) then c.(last_imu := secs)
    else c.(last_imu := secs, now := if Beyond(c, secs) then c.obs else secs)
  }

  // A sample that counts moves the clock from the last of what it has seen: to its own stamp, or if no
  // observation came in between, to the end of the scan at hand if that is earlier.
  lemma StepSpans(c: Clock, secs: real)
    requires 0.0 <= c.last_imu && c.last_obs < secs
    ensures var from, c' := if c.last_imu < c.last_obs then c.last_obs else c.last_imu, Predicted(c, secs);
      && c'.now == (if c.last_imu < c.last_obs || secs < c.obs then secs else c.obs)
      && Step(c, secs) == c'.now - from && c'.last_imu == secs
  {
  }

  // Without a sample before it, or not after the last observation, a sample does not count.
  lemma {:induction false} FirstSampleOnlyStarts(c: Clock, x: Imu)
    requires c.last_imu < 0.0 || x.secs <= c.last_obs
    ensures After(c, [x]) == c.(last_imu := x.secs) && Steps(c, [x]) == []
  {
    assert [x][..0] == [];
  }

  // The clock after the samples, the steps they made, and the times of the states after each.
  function After(c: Clock, s: seq<Imu>): Clock {
    if s == [] then c else Predicted(After(c, s[..|s| - 1]), s[|s| - 1].secs)
  }

  function Steps(c: Clock, s: seq<Imu>): seq<real> {
    if s == [] then []
    else
      var c', x := After(c, s[..|s| - 1]), s[|s| - 1].secs;
      Steps(c, s[..|s| - 1]) + (if Ignored(c', x) then [] else [Step(c', x)])
  }

  function Times(c: Clock, s: seq<Imu>): (r: seq<real>)
    ensures |r| == |s| + 1 && r[|s|] == After(c, s).now
  {
    if s == [] then [c.now] else Times(c, s[..|s| - 1]) + [After(c, s).now]
  }

  function Total(ds: seq<real>): real {
    if ds == [] then 0.0 else Total(ds[..|ds| - 1]) + ds[|ds| - 1]
  }

  predicate Nonnegative(ds: seq<real>) {
    forall i | 0 <= i < |ds| :: ds[i] >= 0.0
  }

  predicate Ascending(ts: seq<real>) {
    forall i, j | 0 <= i < j < |ts| :: ts[i] <= ts[j]
  }

  // How far the samples reach beyond a time.
  function Reaches(s: seq<Imu>, t: real): real {
    if s != [] && s[|s| - 1].secs > t then s[|s| - 1].secs - t else 0.0
  }

  // The clock between two scans: nothing it has seen is later than the last observation.
  predicate AtRest(c: Clock) {
    0.0 <= c.last_imu <= c.last_obs && c.now <= c.last_obs
  }

  ghost predicate Feeds(c: Clock, s: seq<Imu>) {
    AtRest(c) && c.last_obs <= c.obs && Sorted(s) && Between(s, c.last_obs, c.obs)
  }

  function Arrived(c: Clock, s: seq<Imu>): Clock {
    Clock(LastSecs(s, c.last_imu), c.last_obs, c.obs, if Reaches(s, c.last_obs) > 0.0 then LastSecs(s, 0.0) else c.now)
  }

  lemma FeedsPrefix(c: Clock, s: seq<Imu>, n: nat)
    requires Feeds(c, s) && n <= |s|
    ensures Feeds(c, s[..n])
    ensures n < |s| ==> c.last_obs <= s[n].secs <= c.obs && LastSecs(s[..n], c.last_obs) <= s[n].secs
    ensures s[..n] != [] ==> s[..n][n - 1].secs >= c.last_obs
  {
    SortedPart(s, n);
    if 0 < n < |s| { assert InOrder(s, n - 1, n); }
  }

  lemma {:induction false} ClockArrives(c: Clock, s: seq<Imu>)
    requires Feeds(c, s)
    ensures After(c, s) == Arrived(c, s)
  {
    if s != [] {
      var n := |s| - 1;
      FeedsPrefix(c, s, n);
      ClockArrives(c, s[..n]);
      StepTiles(c, s[..n], s[n].secs, After(c, s[..n]));
    }
  }

  // The steps of a group tile the time from the last observation to the last sample: none goes back
  // and they add up.
  lemma {:induction false} StepsTile(c: Clock, s: seq<Imu>)
    requires Feeds(c, s)
    ensures Nonnegative(Steps(c, s)) && Total(Steps(c, s)) == Reaches(s, c.last_obs)
  {
    if s != [] {
      var n := |s| - 1;
      var s', x := s[..n], s[n].secs;
      FeedsPrefix(c, s, n);
      StepsTile(c, s');
      ClockArrives(c, s');
      StepTiles(c, s', x, After(c, s'));
      StepOnTop(Steps(c, s'), Step(After(c, s'), x));
      assert Ignored(After(c, s'), x) ==> Steps(c, s) == Steps(c, s');
    }
  }

  // No step is cut short: what sync_measure delivers never lies beyond its scan.
  lemma {:induction false} NoneBeyond(c: Clock, s: seq<Imu>, i: nat)
    requires Feeds(c, s) && i < |s|
    ensures !Beyond(After(c, s[..i]), s[i].secs)
  {
    FeedsPrefix(c, s, i);
    ClockArrives(c, s[..i]);
    StepTiles(c, s[..i], s[i].secs, After(c, s[..i]));
  }

  lemma {:induction false} TimesAscend(c: Clock, s: seq<Imu>)
    requires Feeds(c, s)
    ensures Ascending(Times(c, s))
  {
    if s != [] {
      var n := |s| - 1;
      FeedsPrefix(c, s, n);
      TimesAscend(c, s[..n]);
      ClockArrives(c, s[..n]);
      StepTiles(c, s[..n], s[n].secs, After(c, s[..n]));
      AscendingGrows(Times(c, s[..n]), After(c, s).now);
    }
  }

  lemma AscendingGrows(ts: seq<real>, t: real)
    requires Ascending(ts) && ts != [] && ts[|ts| - 1] <= t
    ensures Ascending(ts + [t])
  {
  }

  lemma {:induction false} StepOnTop(ds: seq<real>, d: real)
    ensures Total(ds + [d]) == Total(ds) + d
  {
    assert (ds + [d])[..|ds|] == ds;
  }

  lemma StepTiles(c: Clock, s: seq<Imu>, x: real, c': Clock)
    requires AtRest(c) && c.last_obs <= x <= c.obs
    requires s != [] ==> s[|s| - 1].secs <= x && s[|s| - 1].secs >= c.last_obs
    requires c' == Clock(LastSecs(s, c.last_imu), c.last_obs, c.obs,
                         if Reaches(s, c.last_obs) > 0.0 then LastSecs(s, 0.0) else c.now)
    ensures !Beyond(c', x) && Predicted(c', x).now >= c'.now
    ensures Ignored(c', x) <==> x == c.last_obs
    ensures !Ignored(c', x) ==> Step(c', x) >= 0.0 && Reaches(s, c.last_obs) + Step(c', x) == x - c.last_obs
    ensures Ignored(c', x) ==> Reaches(s, c.last_obs) == 0.0
  {
  }

  // ---- the bracket of a point ----

  predicate Brackets(times: seq<real>, m: nat, q: real) {
    m + 1 < |times| && times[m] < q <= times[m + 1]
  }

  lemma OneBracket(times: seq<real>, m: nat, m': nat, q: real)
    requires Ascending(times) && Brackets(times, m, q) && Brackets(times, m', q)
    ensures m == m'
  {
  }

  // What a point is moved by: nothing if it is later than all states, the states m and m + 1
  // otherwise, which are dt apart, with the point tau after the first; unless the first is the last
  // of all, and the read of the next leaves the states.
  datatype Motion = Still | Off | Along(m: nat, dt: real, tau: real)

  // The share of the way at which the point lies.
  predicate Interpolates(motion: Motion) {
    motion.Along? && motion.dt > 0.0 && 0.0 < motion.tau / motion.dt <= 1.0
  }

  lemma WeightWithin(a: real, b: real)
    requires b > 0.0
    ensures 0.0 < a / b <= 1.0 <==> 0.0 < a <= b
  {
    var w := a / b;
    assert w * b == a;
    if w > 0.0 { PositiveTimes(w, b); }
    if w > 1.0 { PositiveTimes(w - 1.0, b); }
    if w <= 0.0 { PositiveTimes(-w, b); }
  }

  lemma PositiveTimes(x: real, y: real)
    requires y > 0.0
    ensures x > 0.0 ==> x * y > 0.0
    ensures x >= 0.0 ==> x * y >= 0.0
  {
  }

  method FindBracket(times: seq<real>, query_time: real) returns (m: nat)
    requires times != [] && query_time <= times[|times| - 1]
    ensures times[0] < query_time ==> Brackets(times, m, query_time)
    ensures query_time <= times[0] && Ascending(times) ==> m == 0
    ensures m + 1 < |times| || m == 0
  {
    m := 0;
    for iter := 0 to |times|
      invariant times[0] < query_time ==> times[iter - if iter == |times| then 1 else 0] < query_time
      invariant m == 0
    {
      if times[iter] < query_time && times[iter + 1] >= query_time {
        m := iter;
        return;
      }
    }
  }

  // How a point of time q is moved, between states from first to last, where lone says that there is
  // only one. It is interpolated, with a share of the way in (0, 1], if and only if it is after the
  // first state and not after the last.
  predicate Moved(first: real, last: real, lone: bool, q: real, motion: Motion) {
    && (motion.Still? <==> last < q)
    && (motion.Off? <==> lone && q <= first)
    && (Interpolates(motion) <==> first < q <= last)
    && (motion.Along? && q <= first ==> motion.m == 0)
  }

  // The search never leaves the states, but the read after it does if there is only one of them and
  // the point is not after it.
  method MotionOf(times: seq<real>, query_time: real) returns (motion: Motion)
    requires times != []
    ensures Ascending(times) ==> Moved(times[0], times[|times| - 1], |times| == 1, query_time, motion)
    ensures motion.Still? <==> times[|times| - 1] < query_time
    ensures motion.Off? <==> |times| == 1 && query_time <= times[0]
    ensures motion.Along? ==>
              && motion.m + 1 < |times| && motion.dt == times[motion.m + 1] - times[motion.m]
              && motion.tau == query_time - times[motion.m]
  {
    if query_time > times[|times| - 1] {
      return Still;
    }
    var match_iter := FindBracket(times, query_time);
    if match_iter + 1 == |times| {
      return Off;
    }
    var dt := times[match_iter + 1] - times[match_iter];
    var tau := query_time - times[match_iter];
    if dt > 0.0 {
      WeightWithin(tau, dt);
    }
    return Along(match_iter, dt, tau);
  }

  // For a group delivered, the first state is the filter's before it and the last that of its last
  // sample: the read leaves the states exactly if the group is empty and the point is not after now.
  lemma {:induction false} StatesOfGroup(c: Clock, s: seq<Imu>, times: seq<real>)
    requires Feeds(c, s) && times == Times(c, s)
    ensures times[0] == c.now && times[|times| - 1] == Arrived(c, s).now && Ascending(times)
    ensures |times| == 1 <==> s == []
  {
    TimesAscend(c, s);
    ClockArrives(c, s);
    FirstTime(c, s);
  }

  lemma {:induction false} FirstTime(c: Clock, s: seq<Imu>)
    ensures Times(c, s)[0] == c.now
  {
    if s != [] { FirstTime(c, s[..|s| - 1]); }
  }

  // ---- time over a whole run ----

  // What the filter did with one group: from the observation before to its own, with the steps in
  // between and the rest that no sample covered.
  datatype Tile = Tile(begin: real, end: real, steps: seq<real>, rest: real)

  ghost predicate TilesFit(tiles: seq<Tile>) {
    forall i: nat :: i < |tiles| ==> TileFits(tiles, i)
  }

  // The tile begins where the one before ended.
  predicate TileFits(tiles: seq<Tile>, i: nat)
    requires i < |tiles|
  {
    && Nonnegative(tiles[i].steps) && tiles[i].rest >= 0.0
    && tiles[i].begin + Total(tiles[i].steps) + tiles[i].rest == tiles[i].end
    && (i > 0 ==> tiles[i - 1].end == tiles[i].begin)
  }

  function Advanced(tiles: seq<Tile>): real {
    if tiles == [] then 0.0 else Advanced(tiles[..|tiles| - 1]) + Total(tiles[|tiles| - 1].steps)
  }

  function Uncovered(tiles: seq<Tile>): real {
    if tiles == [] then 0.0 else Uncovered(tiles[..|tiles| - 1]) + tiles[|tiles| - 1].rest
  }

  // All steps and all rests of a run add up to the time from its first observation to its last.
  lemma {:induction false} TimeIsConserved(tiles: seq<Tile>)
    requires TilesFit(tiles) && tiles != []
    ensures tiles[0].begin + Advanced(tiles) + Uncovered(tiles) == tiles[|tiles| - 1].end
  {
    var before := tiles[..|tiles| - 1];
    assert TileFits(tiles, |before|);
    if before != [] {
      assert forall i: nat | i < |before| :: TileFits(tiles, i) ==> TileFits(before, i);
      TimeIsConserved(before);
    } else {
      assert Advanced(before) == 0.0 && Uncovered(before) == 0.0;
    }
  }
}

module Timing {
  import opened SyncLaws
  import opened Sync
  import opened ClockLaws

  class ESKF {
    var last_imu_time_: real
    var last_obs_time_: real
    var current_obs_time_: real
    var current_time_: real
    var init_: bool

    // The steps the state has been advanced by since the last SetObsTime.
    ghost var steps: seq<real>

    function Now(): Clock
      reads this
    {
      Clock(last_imu_time_, last_obs_time_, current_obs_time_, current_time_)
    }

    constructor ()
      ensures Now() == Clock(-1.0, 0.0, 0.0, 0.0) && !init_ && steps == []
    {
      last_imu_time_, last_obs_time_, current_obs_time_, current_time_ := -1.0, 0.0, 0.0, 0.0;
      init_ := false;
      steps := [];
    }

    method SetX(timestamp: real)
      modifies this`last_imu_time_, this`current_time_
      ensures Now() == old(Now()).(last_imu := timestamp, now := timestamp)
    {
      last_imu_time_ := timestamp;
      current_time_ := last_imu_time_;
    }

    method SetObsTime(obs_time: real)
      modifies this`current_obs_time_, this`steps
      ensures Now() == old(Now()).(obs := obs_time) && steps == []
    {
      current_obs_time_ := obs_time;
      steps := [];
    }

    method SetLastObsTime(obs_time: real)
      modifies this`last_obs_time_
      ensures Now() == old(Now()).(last_obs := obs_time)
    {
      last_obs_time_ := obs_time;
    }

    // The time keeping of UpdateObserve.
    method UpdateObserve()
      modifies this`last_obs_time_
      ensures Now() == old(Now()).(last_obs := old(current_obs_time_))
    {
      last_obs_time_ := current_obs_time_;
    }

    method Predict(imu: Imu) returns (advanced: bool)
      modifies this`last_imu_time_, this`current_time_, this`steps
      ensures advanced <==> !Ignored(old(Now()), imu.secs)
      ensures Now() == Predicted(old(Now()), imu.secs)
      ensures steps == old(steps) + (if advanced then [Step(old(Now()), imu.secs)] else [])
    {
      if last_imu_time_ < 0.0 {
        last_imu_time_ := imu.secs;
        return false;
      }
      if imu.secs <= last_obs_time_ {
        last_imu_time_ := imu.secs;
        return false;
      }
      current_time_ := imu.secs;
      var dt: real;
      if last_imu_time_ < last_obs_time_ {
        dt := imu.secs - last_obs_time_;
      } else if imu.secs > current_obs_time_ {
        dt := current_obs_time_ - last_imu_time_;
        current_time_ := current_obs_time_;
      } else {
        dt := imu.secs - last_imu_time_;
      }
      steps := steps + [dt];
      last_imu_time_ := imu.secs;
      return true;
    }
  }

  datatype Phase = WaitKFInit | WaitMapInit | Process

  class SuperLIO {
    const data_wrapper_: ROSWrapper
    const kf_: ESKF
    const measures_: MeasureGroup
    var state_fn_: Phase
    var frame_num_: int
    var imu_cout: int
    // The times of the states of the last scan.
    var propagate_states_: seq<real>
    // What every point of the last scan was moved by.
    var scan_undistort_full_: seq<Motion>

    // Whether the IMU clock has gone back, and what became of the time of every group processed.
    ghost var looped: bool
    ghost var tiles: seq<Tile>

    ghost predicate Valid()
      reads this, data_wrapper_, kf_, measures_
    {
      && data_wrapper_.Valid() && data_wrapper_.Pushed(measures_)
      && (state_fn_ == WaitKFInit ==> imu_cout < 50)
      && (!looped ==> Timed(state_fn_, kf_.Now(), data_wrapper_.groups, data_wrapper_.last_timestamp_lidar_, tiles)
                      && NoneNegative(data_wrapper_.imus))
    }

    constructor ()
      ensures Valid() && !looped && tiles == [] && state_fn_ == WaitKFInit && imu_cout == 0 && frame_num_ == 0
      ensures data_wrapper_.imu_buffer_ == [] && data_wrapper_.lidar_buffer_ == []
      ensures data_wrapper_.last_timestamp_imu_ == data_wrapper_.last_timestamp_lidar_ == -1.0
      ensures fresh(data_wrapper_) && fresh(kf_) && fresh(measures_)
    {
      data_wrapper_ := new ROSWrapper();
      kf_ := new ESKF();
      measures_ := new MeasureGroup();
      state_fn_ := WaitKFInit;
      frame_num_, imu_cout := 0, 0;
      propagate_states_, scan_undistort_full_ := [], [];
      looped, tiles := false, [];
    }

    method imuHandler(data: Imu)
      requires Valid() && data.secs >= 0.0
      modifies this`looped, data_wrapper_`imu_buffer_, data_wrapper_`last_timestamp_imu_, data_wrapper_`imus,
               data_wrapper_`groups
      ensures Valid() && data_wrapper_.last_timestamp_imu_ == data.secs
      ensures looped <==> old(looped) || data.secs < old(data_wrapper_.last_timestamp_imu_)
      ensures old(data_wrapper_.last_timestamp_imu_) <= data.secs ==>
                data_wrapper_.imu_buffer_ == old(data_wrapper_.imu_buffer_) + [data]
    {
      looped := looped || data.secs < data_wrapper_.last_timestamp_imu_;
      data_wrapper_.imuHandler(data);
    }

    method lidarHandler(lidar_data: Scan)
      requires Valid()
      modifies data_wrapper_`lidar_buffer_, data_wrapper_`scans
      ensures Valid() && data_wrapper_.lidar_buffer_ == old(data_wrapper_.lidar_buffer_) + [lidar_data]
    {
      data_wrapper_.lidarHandler(lidar_data);
    }

    // With a scan and its samples ready, they are taken and the present state runs on them.
    method process()
      requires Valid()
      modifies this, data_wrapper_`imu_buffer_, data_wrapper_`lidar_buffer_, data_wrapper_`lidar_pushed_,
               data_wrapper_`last_timestamp_lidar_, data_wrapper_`groups, data_wrapper_`fates, kf_, measures_
      ensures Valid() && looped == old(looped)
      ensures !old(data_wrapper_.Ready()) ==>
                state_fn_ == old(state_fn_) && kf_.Now() == old(kf_.Now()) && tiles == old(tiles)
      ensures old(data_wrapper_.Ready()) ==>
                && data_wrapper_.last_timestamp_lidar_ == measures_.lidar.end_time
                && Took(old(data_wrapper_.imu_buffer_), old(data_wrapper_.lidar_buffer_))
                && Ran(old(state_fn_), old(imu_cout), old(frame_num_), old(kf_.current_time_), old(tiles))
    {
      var ready := feed(data_wrapper_.groups, kf_.Now(), data_wrapper_.last_timestamp_lidar_);
      if ready {
        runState();
      }
    }

    // The call of sync_measure. gs are the groups before, which end at last.
    method feed(ghost gs: seq<Group>, ghost c: Clock, ghost last: real) returns (ready: bool)
      requires Valid() && gs == data_wrapper_.groups && c == kf_.Now() && last == data_wrapper_.last_timestamp_lidar_
      modifies data_wrapper_`imu_buffer_, data_wrapper_`lidar_buffer_, data_wrapper_`lidar_pushed_,
               data_wrapper_`last_timestamp_lidar_, data_wrapper_`groups, data_wrapper_`fates, measures_
      ensures if ready then Fed() else Valid()
      ensures ready <==> old(data_wrapper_.Ready())
      ensures ready ==> Took(old(data_wrapper_.imu_buffer_), old(data_wrapper_.lidar_buffer_))
    {
      ready := data_wrapper_.sync_measure(measures_);
      if ready && !looped {
        Feeding(state_fn_, c, gs, data_wrapper_.groups, data_wrapper_.imus, last, tiles);
      }
    }

    // The first scan in the buffer was taken, and its samples.
    ghost predicate Took(imus: seq<Imu>, scans: seq<Scan>)
      reads data_wrapper_, measures_
    {
      && scans != [] && data_wrapper_.lidar_buffer_ == scans[1..] && measures_.lidar == scans[0]
      && measures_.imu == imus[..Taken(imus, scans[0].end_time)]
      && data_wrapper_.imu_buffer_ == imus[Taken(imus, scans[0].end_time)..]
    }

    // What a state has done, which found these counts, this clock and these tiles.
    ghost predicate Ran(phase: Phase, count: int, frames: int, now: real, ts: seq<Tile>)
      reads this, kf_, measures_
    {
      match phase
      case WaitKFInit =>
        && imu_cout == count + |measures_.imu| && frame_num_ == frames && tiles == ts
        && state_fn_ == (if imu_cout >= 50 then WaitMapInit else WaitKFInit)
        && (imu_cout >= 50 ==> kf_.current_time_ == LastSecs(measures_.imu, 0.0))
      case WaitMapInit =>
        && frame_num_ == frames + 1 && state_fn_ == (if frame_num_ > 3 then Process else WaitMapInit)
        && kf_.current_time_ == now && tiles == ts
      case Process =>
        && state_fn_ == Process && |tiles| == |ts| + 1 && tiles[..|ts|] == ts
        && (!looped ==> AllMoved(now, kf_.current_time_, measures_.imu == [], measures_.lidar, scan_undistort_full_))
    }

    method runState()
      requires Fed()
      modifies this`state_fn_, this`frame_num_, this`imu_cout, this`propagate_states_, this`scan_undistort_full_,
               this`tiles, kf_
      ensures Valid() && data_wrapper_.last_timestamp_lidar_ == measures_.lidar.end_time
      ensures Ran(old(state_fn_), old(imu_cout), old(frame_num_), old(kf_.current_time_), old(tiles))
    {
      match state_fn_ {
        case WaitKFInit => stateWaitKFInit();
        case WaitMapInit => stateWaitMapInit();
        case Process => stateProcess();
      }
    }

    // A scan and its samples are in measures_.
    ghost predicate Fed()
      reads this, data_wrapper_, kf_, measures_
    {
      && data_wrapper_.Valid() && data_wrapper_.Pushed(measures_) && (state_fn_ == WaitKFInit ==> imu_cout < 50)
      && data_wrapper_.groups != []
      && measures_.imu == data_wrapper_.groups[|data_wrapper_.groups| - 1].imu
      && measures_.lidar.end_time == data_wrapper_.last_timestamp_lidar_
      && (!looped ==> Arriving(state_fn_, kf_.Now(), measures_.imu, measures_.lidar.end_time, tiles)
                      && NoneNegative(data_wrapper_.imus))
    }

    method stateWaitKFInit()
      requires Fed() && state_fn_ == WaitKFInit
      modifies this`state_fn_, this`imu_cout, kf_
      ensures Valid() && imu_cout == old(imu_cout) + |measures_.imu|
      ensures state_fn_ == if imu_cout >= 50 then WaitMapInit else WaitKFInit
      ensures imu_cout >= 50 ==> kf_.current_time_ == LastSecs(measures_.imu, 0.0)
    {
      var ok := kf_init();
      if ok {
        state_fn_ := WaitMapInit;
      }
    }

    // The 50th sample belongs to the group that completes the count, so that group is not empty.
    method kf_init() returns (ok: bool)
      requires imu_cout < 50
      modifies this`imu_cout, kf_
      ensures imu_cout == old(imu_cout) + |measures_.imu| && ok == (imu_cout >= 50)
      ensures ok ==> measures_.imu != []
      ensures ok ==>
                var t := LastSecs(measures_.imu, 0.0);
                kf_.Now() == old(kf_.Now()).(last_imu := t, now := t)
      ensures !ok ==> kf_.Now() == old(kf_.Now())
    {
      for i := 0 to |measures_.imu|
        invariant imu_cout == old(imu_cout) + i
        invariant kf_.Now() == old(kf_.Now())
      {
        imu_cout := imu_cout + 1;
      }
      if imu_cout < 50 {
        return false;
      }
      kf_.SetX(measures_.imu[|measures_.imu| - 1].secs);
      return true;
    }

    method stateWaitMapInit()
      requires Fed() && state_fn_ == WaitMapInit
      modifies this`state_fn_, this`frame_num_, kf_
      ensures Valid() && frame_num_ == old(frame_num_) + 1
      ensures state_fn_ == if frame_num_ > 3 then Process else WaitMapInit
      ensures kf_.current_time_ == old(kf_.current_time_)
    {
      var ok := map_init();
      if ok {
        kf_.init_ := true;
        state_fn_ := Process;
      }
    }

    // Four scans make the first map; their samples are not used.
    method map_init() returns (ok: bool)
      modifies this`frame_num_, kf_
      ensures frame_num_ == old(frame_num_) + 1 && ok == (frame_num_ > 3)
      ensures kf_.Now() == old(kf_.Now()).(last_obs := measures_.lidar.end_time)
    {
      frame_num_ := frame_num_ + 1;
      kf_.SetLastObsTime(measures_.lidar.end_time);
      return frame_num_ > 3;
    }

    // Propagation_Undistort and the observation. If the clock has not gone back, it says of every point
    // how it is moved, in terms of the clock before and after: a point not after the clock is read off
    // the states if there are no samples.
    method stateProcess()
      requires Fed() && state_fn_ == Process
      modifies this`frame_num_, this`propagate_states_, this`scan_undistort_full_, this`tiles, kf_
      ensures Valid() && |tiles| == |old(tiles)| + 1 && tiles[..|old(tiles)|] == old(tiles)
      ensures frame_num_ == old(frame_num_) + 2
      ensures !looped ==> Ascending(propagate_states_) && tiles[|old(tiles)|].steps == kf_.steps
      ensures !looped ==>
                AllMoved(old(kf_.current_time_), kf_.current_time_, measures_.imu == [],
                         measures_.lidar, scan_undistort_full_)
    {
      frame_num_ := frame_num_ + 1;
      ghost var c, e, before := kf_.Now(), measures_.lidar.end_time, tiles;
      if !looped { GroupDone(c, measures_.imu, e, data_wrapper_.groups, before); }
      observe();
      addTile(before, TileOf(c, measures_.imu, e));
    }

    ghost method addTile(before: seq<Tile>, t: Tile)
      requires tiles == before
      modifies this`tiles
      ensures tiles == before + [t]
      ensures |tiles| == |before| + 1 && tiles[..|before|] == before && tiles[|before|] == t
    {
      tiles := before + [t];
    }

    method observe()
      modifies this`propagate_states_, this`scan_undistort_full_, this`frame_num_, kf_
      ensures var c := old(kf_.Now()).(obs := measures_.lidar.end_time);
              && kf_.Now() == After(c, measures_.imu).(last_obs := After(c, measures_.imu).obs)
              && kf_.steps == Steps(c, measures_.imu) && propagate_states_ == Times(c, measures_.imu)
      ensures var ts := propagate_states_;
              Ascending(ts) ==> AllMoved(ts[0], ts[|ts| - 1], |ts| == 1, measures_.lidar, scan_undistort_full_)
      ensures frame_num_ == old(frame_num_) + 1
    {
      propagate();
      undistort(measures_.lidar);
      kf_.UpdateObserve();
      frame_num_ := frame_num_ + 1;
    }

    // The loop over the points.
    method undistort(scan: Scan)
      requires propagate_states_ != []
      modifies this`scan_undistort_full_
      ensures var ts := propagate_states_;
              Ascending(ts) ==> AllMoved(ts[0], ts[|ts| - 1], |ts| == 1, scan, scan_undistort_full_)
    {
      var motions := [];
      ghost var ts := propagate_states_;
      for idx := 0 to |scan.offsets|
        invariant |motions| == idx && propagate_states_ == ts
        invariant Ascending(ts) ==>
                    forall i | 0 <= i < idx ::
                      Moved(ts[0], ts[|ts| - 1], |ts| == 1, scan.start_time + scan.offsets[i], motions[i])
      {
        var motion := MotionOf(propagate_states_, scan.start_time + scan.offsets[idx]);
        motions := motions + [motion];
      }
      scan_undistort_full_ := motions;
    }

    method propagate()
      modifies this`propagate_states_, kf_
      ensures var c := old(kf_.Now()).(obs := measures_.lidar.end_time);
              && kf_.Now() == After(c, measures_.imu) && kf_.steps == Steps(c, measures_.imu)
              && propagate_states_ == Times(c, measures_.imu)
    {
      propagate_states_ := [kf_.current_time_];
      kf_.SetObsTime(measures_.lidar.end_time);
      ghost var c := kf_.Now();
      var imus := measures_.imu;
      for i := 0 to |imus|
        invariant kf_.Now() == After(c, imus[..i]) && kf_.steps == Steps(c, imus[..i])
        invariant propagate_states_ == Times(c, imus[..i])
      {
        assert imus[..i + 1][..i] == imus[..i];
        var ok := kf_.Predict(imus[i]);
        propagate_states_ := propagate_states_ + [kf_.current_time_];
      }
      assert imus[..|imus|] == imus;
    }
  }

  // ---- a run in which points are read off the states ----

  // Nothing but these samples and scans waits, and the clock has not gone back.
  ghost predicate Waiting(lio: SuperLIO, imus: seq<Imu>, scans: seq<Scan>, last_imu: real, last: real)
    reads lio, lio.data_wrapper_, lio.kf_, lio.measures_
  {
    && lio.Valid() && !lio.looped
    && lio.data_wrapper_.imu_buffer_ == imus && lio.data_wrapper_.lidar_buffer_ == scans
    && lio.data_wrapper_.last_timestamp_imu_ == last_imu && lio.data_wrapper_.last_timestamp_lidar_ == last
  }

  ghost predicate FreshLio(lio: SuperLIO)
    reads lio
  {
    lio.state_fn_ == WaitKFInit && lio.imu_cout == 0 && lio.frame_num_ == 0
  }

  // n samples of one time.
  function Resting(t: real, n: nat): (s: seq<Imu>)
    ensures |s| == n && forall i | 0 <= i < n :: s[i].secs == t
  {
    seq(n, i => Imu(t, i))
  }

  lemma {:induction false} BelowRest(s: seq<Imu>, t: real, n: nat, e: real)
    requires n < |s| && t < e < s[n].secs && forall i | 0 <= i < n :: s[i].secs == t
    ensures Below(s, e) == n
  {
  }

  lemma OneMoreResting(t: real, n: nat)
    ensures Resting(t, n + 1) == Resting(t, n) + [Imu(t, n)]
  {
  }

  method Sampled(t: real, n: nat, b: Imu) returns (lio: SuperLIO)
    requires 0.0 <= t <= b.secs
    ensures fresh(lio) && fresh(lio.data_wrapper_) && fresh(lio.kf_) && fresh(lio.measures_)
    ensures Waiting(lio, Resting(t, n) + [b], [], b.secs, -1.0) && FreshLio(lio)
  {
    lio := new SuperLIO();
    for i := 0 to n
      invariant fresh(lio) && fresh(lio.data_wrapper_) && fresh(lio.kf_) && fresh(lio.measures_)
      invariant Waiting(lio, Resting(t, i), [], if i == 0 then -1.0 else t, -1.0) && FreshLio(lio)
    {
      RestOn(lio, t, i);
    }
    lio.imuHandler(b);
  }

  method RestOn(lio: SuperLIO, t: real, i: nat)
    requires Waiting(lio, Resting(t, i), [], if i == 0 then -1.0 else t, -1.0) && FreshLio(lio) && t >= 0.0
    modifies lio`looped, lio.data_wrapper_
    ensures Waiting(lio, Resting(t, i + 1), [], t, -1.0) && FreshLio(lio)
  {
    OneMoreResting(t, i);
    lio.imuHandler(Imu(t, i));
  }

  method Started(t: real, b: Imu, scans: seq<Scan>) returns (lio: SuperLIO)
    requires 0.0 <= t <= b.secs
    ensures fresh(lio) && fresh(lio.data_wrapper_) && fresh(lio.kf_) && fresh(lio.measures_)
    ensures Waiting(lio, Resting(t, 50) + [b], scans, b.secs, -1.0) && FreshLio(lio)
  {
    lio := Sampled(t, 50, b);
    ghost var imus := Resting(t, 50) + [b];
    for i := 0 to |scans|
      invariant fresh(lio) && fresh(lio.data_wrapper_) && fresh(lio.kf_) && fresh(lio.measures_)
      invariant Waiting(lio, imus, scans[..i], b.secs, -1.0) && FreshLio(lio)
    {
      lio.lidarHandler(scans[i]);
      assert scans[..i + 1] == scans[..i] + [scans[i]];
    }
    assert scans[..|scans|] == scans;
  }

  // The first scan completes the filter's initialisation.
  method FirstScan(lio: SuperLIO, t: real, b: Imu, scans: seq<Scan>)
    requires Waiting(lio, Resting(t, 50) + [b], scans, b.secs, -1.0) && FreshLio(lio)
    requires scans != [] && 0.0 <= t < scans[0].end_time < b.secs
    modifies lio, lio.data_wrapper_, lio.kf_, lio.measures_
    ensures Waiting(lio, [b], scans[1..], b.secs, scans[0].end_time)
    ensures lio.state_fn_ == WaitMapInit && lio.frame_num_ == 0 && lio.kf_.current_time_ == t
  {
    ghost var imus := Resting(t, 50) + [b];
    BelowRest(imus, t, 50, scans[0].end_time);
    assert imus[..50] == Resting(t, 50) && imus[50..] == [b];
    lio.process();
  }

  // Further scans before the next sample get no samples.
  method FurtherScan(lio: SuperLIO, b: Imu, scans: seq<Scan>, ghost last: real)
    requires Waiting(lio, [b], scans, b.secs, last) && lio.state_fn_ != WaitKFInit
    requires scans != [] && last <= scans[0].end_time <= b.secs
    modifies lio, lio.data_wrapper_, lio.kf_, lio.measures_
    ensures Waiting(lio, [b], scans[1..], b.secs, scans[0].end_time)
    ensures lio.measures_.imu == [] && lio.measures_.lidar == scans[0]
    ensures lio.Ran(old(lio.state_fn_), old(lio.imu_cout), old(lio.frame_num_),
                    old(lio.kf_.current_time_), old(lio.tiles))
  {
    EmptyGroup([b], scans[0].end_time);
    lio.process();
  }

  // After 50 samples at a time t, with six scans between them and the next sample, the last of the
  // scans is processed with a single state, and each of its points that is not after t is read off it.
  method OffTheStates(t: real, b: Imu, scans: seq<Scan>) returns (lio: SuperLIO)
    requires |scans| == 6 && 0.0 <= t < scans[0].end_time < b.secs
    requires forall i | 1 <= i < 6 :: scans[i - 1].end_time <= scans[i].end_time <= b.secs
    ensures lio.Valid() && lio.state_fn_ == Process && lio.measures_.lidar == scans[5] && lio.measures_.imu == []
    ensures |lio.scan_undistort_full_| == |scans[5].offsets|
    ensures forall i | 0 <= i < |scans[5].offsets| ::
              lio.scan_undistort_full_[i].Off? <==> scans[5].start_time + scans[5].offsets[i] <= t
  {
    lio := Started(t, b, scans);
    FirstScan(lio, t, b, scans);
    for i := 1 to 5
      invariant fresh(lio) && fresh(lio.data_wrapper_) && fresh(lio.kf_) && fresh(lio.measures_)
      invariant Mapping(lio, t, b, scans, i)
    {
      MapScan(lio, t, b, scans, i);
    }
    FurtherScan(lio, b, scans[5..], scans[4].end_time);
  }

  // The first i scans are done, and the clock stands at t.
  ghost predicate Mapping(lio: SuperLIO, t: real, b: Imu, scans: seq<Scan>, i: nat)
    requires 1 <= i <= |scans|
    reads lio, lio.data_wrapper_, lio.kf_, lio.measures_
  {
    && Waiting(lio, [b], scans[i..], b.secs, scans[i - 1].end_time)
    && lio.state_fn_ == (if i <= 4 then WaitMapInit else Process) && lio.frame_num_ == i - 1
    && lio.kf_.current_time_ == t
  }

  method MapScan(lio: SuperLIO, ghost t: real, b: Imu, scans: seq<Scan>, i: nat)
    requires 1 <= i < 5 && |scans| == 6 && Mapping(lio, t, b, scans, i)
    requires scans[i - 1].end_time <= scans[i].end_time <= b.secs
    modifies lio, lio.data_wrapper_, lio.kf_, lio.measures_
    ensures Mapping(lio, t, b, scans, i + 1)
  {
    FurtherScan(lio, b, scans[i..], scans[i - 1].end_time);
  }

  predicate NoneNegative(s: seq<Imu>) {
    forall i | 0 <= i < |s| :: s[i].secs >= 0.0
  }

  // Between two scans: the filter's clock against the end of the last group delivered.
  ghost predicate Timed(phase: Phase, c: Clock, groups: seq<Group>, last_lidar: real, tiles: seq<Tile>) {
    && TilesFit(tiles)
    && match phase
       case WaitKFInit => c == Clock(-1.0, 0.0, 0.0, 0.0) && tiles == []
       case WaitMapInit => groups != [] && 0.0 <= c.last_imu == c.now <= last_lidar && tiles == []
       case Process => groups != [] && AtRest(c) && c.last_obs == last_lidar
                       && (tiles != [] ==> tiles[|tiles| - 1].end == last_lidar)
  }

  // The same with a group at hand that ends at e.
  ghost predicate Arriving(phase: Phase, c: Clock, imu: seq<Imu>, e: real, tiles: seq<Tile>) {
    && TilesFit(tiles)
    && match phase
       case WaitKFInit => c == Clock(-1.0, 0.0, 0.0, 0.0) && tiles == [] && Between(imu, 0.0, e)
       case WaitMapInit => 0.0 <= c.last_imu == c.now <= e && tiles == []
       case Process => Feeds(c.(obs := e), imu) && (tiles != [] ==> tiles[|tiles| - 1].end == c.last_obs)
  }

  // The times lead from first to last.
  ghost predicate Spans(times: seq<real>, first: real, last: real, lone: bool) {
    && times != [] && Ascending(times) && times[0] == first && times[|times| - 1] == last
    && (|times| == 1 <==> lone)
  }

  // Every point of a scan is moved as its time says.
  ghost predicate AllMoved(first: real, last: real, lone: bool, scan: Scan, motions: seq<Motion>) {
    && |motions| == |scan.offsets|
    && forall i | 0 <= i < |motions| :: Moved(first, last, lone, scan.start_time + scan.offsets[i], motions[i])
  }

  function TileOf(c: Clock, imu: seq<Imu>, e: real): Tile {
    var steps := Steps(c.(obs := e), imu);
    Tile(c.last_obs, e, steps, e - c.last_obs - Total(steps))
  }

  lemma {:induction false} GroupTiles(c: Clock, imu: seq<Imu>, e: real, tiles: seq<Tile>)
    requires Arriving(Process, c, imu, e, tiles)
    ensures TilesFit(tiles + [TileOf(c, imu, e)])
    ensures AtRest(After(c.(obs := e), imu).(last_obs := e)) && After(c.(obs := e), imu).obs == e
    ensures TileOf(c, imu, e).end == e
    ensures Spans(Times(c.(obs := e), imu), c.now, After(c.(obs := e), imu).now, imu == [])
  {
    var c' := c.(obs := e);
    ClockArrives(c', imu);
    StatesOfGroup(c', imu, Times(c', imu));
    RestIs(c, imu, e);
    TilesGrow(tiles, TileOf(c, imu, e));
  }

  // The clock and the tiles once the group is processed.
  lemma {:induction false} GroupDone(c: Clock, imu: seq<Imu>, e: real, groups: seq<Group>, tiles: seq<Tile>)
    requires Arriving(Process, c, imu, e, tiles) && groups != []
    ensures var c' := After(c.(obs := e), imu);
            && Timed(Process, c'.(last_obs := c'.obs), groups, e, tiles + [TileOf(c, imu, e)])
            && Spans(Times(c.(obs := e), imu), c.now, c'.now, imu == [])
    ensures TileOf(c, imu, e).steps == Steps(c.(obs := e), imu)
  {
    GroupTiles(c, imu, e, tiles);
  }

  lemma TilesGrow(tiles: seq<Tile>, t: Tile)
    requires TilesFit(tiles) && Nonnegative(t.steps) && t.rest >= 0.0 && t.begin + Total(t.steps) + t.rest == t.end
    requires tiles != [] ==> tiles[|tiles| - 1].end == t.begin
    ensures TilesFit(tiles + [t])
  {
    assert forall i: nat | i < |tiles| :: TileFits(tiles, i) ==> TileFits(tiles + [t], i);
  }

  // The steps reach the last sample; a group leaves no time uncovered if and only if its last sample
  // is stamped with the end of the scan, or the scan ends where the one before ended.
  lemma RestIs(c: Clock, imu: seq<Imu>, e: real)
    requires Feeds(c.(obs := e), imu)
    ensures Nonnegative(TileOf(c, imu, e).steps)
    ensures Total(TileOf(c, imu, e).steps) == Reaches(imu, c.last_obs)
    ensures TileOf(c, imu, e).rest >= 0.0
    ensures TileOf(c, imu, e).rest == 0.0 <==> e == c.last_obs || (imu != [] && imu[|imu| - 1].secs == e)
  {
    StepsTile(c.(obs := e), imu);
    assert imu != [] ==> c.last_obs <= imu[|imu| - 1].secs <= e;
  }

  // What the group just delivered is to the clock that waited for it.
  lemma {:induction false} Feeding(phase: Phase, c: Clock, before: seq<Group>, groups: seq<Group>, imus: seq<Imu>,
                                   last: real, tiles: seq<Tile>)
    requires groups != [] && groups[..|groups| - 1] == before && Timed(phase, c, before, last, tiles)
    requires NoneNegative(imus)
    requires GroupsFit(groups) && AllImu(groups) <= imus && last <= groups[|groups| - 1].scan.end_time
    requires before != [] ==> LastEnd(before, 0.0) == last
    ensures Arriving(phase, c, groups[|groups| - 1].imu, groups[|groups| - 1].scan.end_time, tiles)
  {
    NoneNegativePart(imus, groups);
    assert groups == before + [groups[|groups| - 1]];
    GroupArrives(phase, c, before, groups[|groups| - 1], last, tiles);
  }

  // What a delivered group is to the clock that waited for it.
  lemma {:induction false} GroupArrives(phase: Phase, c: Clock, groups: seq<Group>, g: Group, last: real,
                                        tiles: seq<Tile>)
    requires Timed(phase, c, groups, last, tiles) && last <= g.scan.end_time
    requires GroupsFit(groups + [g]) && NoneNegative(g.imu) && (groups != [] ==> LastEnd(groups, 0.0) == last)
    ensures Arriving(phase, c, g.imu, g.scan.end_time, tiles)
  {
    var gs := groups + [g];
    assert gs[..|gs| - 1] == groups;
  }

  lemma {:induction false} NoneNegativePart(imus: seq<Imu>, groups: seq<Group>)
    requires groups != [] && NoneNegative(imus) && AllImu(groups) <= imus
    ensures NoneNegative(groups[|groups| - 1].imu)
  {
    TailNoneNegative(imus, AllImu(groups[..|groups| - 1]), groups[|groups| - 1].imu);
  }

  lemma TailNoneNegative(all: seq<Imu>, a: seq<Imu>, b: seq<Imu>)
    requires NoneNegative(all) && a + b <= all
    ensures NoneNegative(b)
  {
    assert forall i | 0 <= i < |b| :: b[i] == all[|a| + i];
  }
}
