// sync_measure of ROSWrapper.cpp and the buffers it reads: which IMU samples go with which scan.
module SyncLaws {

  datatype Imu = Imu(secs: real, sample: int)

  // offsets are the times of the points after start_time.
  datatype Scan = Scan(start_time: real, end_time: real, offsets: seq<real>)

  datatype Group = Group(scan: Scan, imu: seq<Imu>)

  // A scan that has left the buffer, and whether it was delivered or dropped.
  datatype Fate = Fate(scan: Scan, delivered: bool)

  predicate InOrder(s: seq<Imu>, i: nat, j: nat)
    requires i < |s| && j < |s|
  {
    s[i].secs <= s[j].secs
  }

  ghost predicate Sorted(s: seq<Imu>) {
    forall i: nat, j: nat :: i < j < |s| ==> InOrder(s, i, j)
  }

  // The number of samples at the front of s before time e.
  function Below(s: seq<Imu>, e: real): (n: nat)
    ensures n <= |s|
    ensures forall i | 0 <= i < n :: s[i].secs < e
    ensures n < |s| ==> s[n].secs >= e
  {
    if s == [] || s[0].secs >= e then 0 else 1 + Below(s[1..], e)
  }

  // A scan that ends at e takes the samples before e and one stamped e, unless there is no sample
  // before e.
  function Taken(s: seq<Imu>, e: real): (n: nat)
    ensures n <= |s|
  {
    var n := Below(s, e);
    if 0 < n < |s| && s[n].secs == e then n + 1 else n
  }

  lemma TakenSplits(s: seq<Imu>, e: real)
    requires Sorted(s)
    ensures forall i | 0 <= i < Taken(s, e) :: s[i].secs <= e
    ensures forall i | Taken(s, e) <= i < |s| :: s[i].secs >= e
    ensures forall i | 0 <= i < Taken(s, e) - 1 :: s[i].secs < e
  {
    var n := Below(s, e);
    forall i: nat | n < i < |s|
      ensures s[i].secs >= e
    {
      assert InOrder(s, n, i);
    }
  }

  // A scan is left without a sample if and only if the first one waiting is not before its end.
  lemma EmptyGroup(s: seq<Imu>, e: real)
    ensures Taken(s, e) == 0 <==> s == [] || s[0].secs >= e
  {
    assert Below(s, e) == 0 <==> s == [] || s[0].secs >= e;
  }

  function LastSecs(s: seq<Imu>, start: real): real {
    if s == [] then start else s[|s| - 1].secs
  }

  lemma SortedGrows(s: seq<Imu>, x: Imu)
    requires Sorted(s) && LastSecs(s, x.secs) <= x.secs
    ensures Sorted(s + [x])
  {
    var n := |s|;
    forall i: nat, j: nat | i < j <= n
      ensures InOrder(s + [x], i, j)
    {
      if j < n { assert InOrder(s, i, j); } else if i + 1 < n { assert InOrder(s, i, n - 1); }
    }
  }

  lemma SortedPart(s: seq<Imu>, n: nat)
    requires Sorted(s) && n <= |s|
    ensures Sorted(s[..n])
  {
    forall i: nat, j: nat | i < j < n
      ensures InOrder(s[..n], i, j)
    {
      assert InOrder(s, i, j);
    }
  }

  // ---- whole runs ----

  function AllImu(groups: seq<Group>): seq<Imu> {
    if groups == [] then [] else AllImu(groups[..|groups| - 1]) + groups[|groups| - 1].imu
  }

  function LastEnd(groups: seq<Group>, start: real): real {
    if groups == [] then start else groups[|groups| - 1].scan.end_time
  }

  predicate Between(s: seq<Imu>, lo: real, hi: real) {
    forall i | 0 <= i < |s| :: lo <= s[i].secs <= hi
  }

  predicate UpTo(s: seq<Imu>, hi: real) {
    forall i | 0 <= i < |s| :: s[i].secs <= hi
  }

  predicate From(s: seq<Imu>, lo: real) {
    forall i | 0 <= i < |s| :: lo <= s[i].secs
  }

  // The samples of every group end with its scan and begin with the end of the group before.
  ghost predicate GroupsFit(groups: seq<Group>) {
    groups != [] ==>
      var before, last := groups[..|groups| - 1], groups[|groups| - 1];
      && GroupsFit(before)
      && UpTo(last.imu, last.scan.end_time) && Sorted(last.imu)
      && (before != [] ==> From(last.imu, LastEnd(before, 0.0)) && LastEnd(before, 0.0) <= last.scan.end_time)
  }

  function ScansOf(fates: seq<Fate>): seq<Scan> {
    if fates == [] then [] else ScansOf(fates[..|fates| - 1]) + [fates[|fates| - 1].scan]
  }

  // The end of the last scan delivered, -1 at first.
  function Delivered(fates: seq<Fate>): real {
    if fates == [] then -1.0
    else if fates[|fates| - 1].delivered then fates[|fates| - 1].scan.end_time
    else Delivered(fates[..|fates| - 1])
  }

  // The first scan is delivered if and only if its end is not before -1.
  lemma {:induction false} FirstFate(f: Fate)
    ensures FatesFit([f]) <==> (f.delivered <==> f.scan.end_time >= -1.0)
  {
    assert [f][..0] == [];
  }

  // Delivered ends never decrease, and a scan is dropped only if it ends before the last of them.
  predicate FatesFit(fates: seq<Fate>) {
    fates != [] ==>
      var before, last := fates[..|fates| - 1], fates[|fates| - 1];
      && FatesFit(before)
      && (last.delivered <==> last.scan.end_time >= Delivered(before))
  }

  lemma {:induction false} AddGroup(groups: seq<Group>, g: Group)
    ensures AllImu(groups + [g]) == AllImu(groups) + g.imu
    ensures GroupsFit(groups) && UpTo(g.imu, g.scan.end_time) && Sorted(g.imu)
            && (groups != [] ==> From(g.imu, LastEnd(groups, 0.0)) && LastEnd(groups, 0.0) <= g.scan.end_time)
            ==> GroupsFit(groups + [g])
  {
    assert (groups + [g])[..|groups|] == groups;
  }

  lemma {:induction false} AddFate(fates: seq<Fate>, f: Fate)
    ensures ScansOf(fates + [f]) == ScansOf(fates) + [f.scan]
    ensures Delivered(fates + [f]) == if f.delivered then f.scan.end_time else Delivered(fates)
    ensures FatesFit(fates) && (f.delivered <==> f.scan.end_time >= Delivered(fates)) ==> FatesFit(fates + [f])
  {
    assert (fates + [f])[..|fates|] == fates;
  }

  // ---- what the fits say about any two groups, any two scans ----

  lemma {:induction false} GroupBounds(groups: seq<Group>, i: nat, j: nat)
    requires GroupsFit(groups) && i <= j < |groups|
    ensures groups[i].scan.end_time <= groups[j].scan.end_time
    ensures UpTo(groups[j].imu, groups[j].scan.end_time)
    ensures i < j ==> From(groups[j].imu, groups[i].scan.end_time)
    decreases |groups|
  {
    var before := groups[..|groups| - 1];
    if j < |before| {
      GroupBounds(before, i, j);
      assert before[i] == groups[i] && before[j] == groups[j];
    } else if i < j {
      GroupBounds(before, i, |before| - 1);
      assert before[i] == groups[i];
    }
  }

  lemma {:induction false} DroppedWereLate(fates: seq<Fate>, i: nat)
    requires FatesFit(fates) && i < |fates|
    ensures fates[i].delivered <==> fates[i].scan.end_time >= Delivered(fates[..i])
    ensures Delivered(fates[..i]) <= Delivered(fates)
    decreases |fates|
  {
    var before := fates[..|fates| - 1];
    if i < |before| {
      DroppedWereLate(before, i);
      assert before[..i] == fates[..i];
    } else {
      assert before == fates[..i];
    }
  }
}

module Sync {
  import opened SyncLaws

  class MeasureGroup {
    var lidar: Scan
    var imu: seq<Imu>

    constructor ()
      ensures imu == []
    {
      lidar := Scan(0.0, 0.0, []);
      imu := [];
    }
  }

  class ROSWrapper {
    var imu_buffer_: seq<Imu>
    var lidar_buffer_: seq<Scan>
    var lidar_pushed_: bool
    var last_timestamp_imu_: real
    var last_timestamp_lidar_: real

    // Since the IMU clock last went back: the samples received and the groups delivered.
    ghost var imus: seq<Imu>
    ghost var groups: seq<Group>
    // All scans received, and what became of those no longer in the buffer.
    ghost var scans: seq<Scan>
    ghost var fates: seq<Fate>

    ghost predicate Valid()
      reads this
    {
      && Samples(imus, groups, imu_buffer_, last_timestamp_imu_, last_timestamp_lidar_)
      && Scans(scans, fates, lidar_buffer_, last_timestamp_lidar_)
      && (lidar_pushed_ ==> lidar_buffer_ != [])
    }

    // The first scan can be delivered.
    ghost predicate Ready()
      reads this
    {
      && imu_buffer_ != [] && lidar_buffer_ != []
      && last_timestamp_lidar_ <= lidar_buffer_[0].end_time <= last_timestamp_imu_
    }

    // The scan a pushed flag stands for.
    ghost predicate Pushed(meas: MeasureGroup)
      reads this, meas
    {
      lidar_pushed_ ==> lidar_buffer_ != [] && meas.lidar == lidar_buffer_[0]
    }

    constructor ()
      ensures Valid() && !lidar_pushed_ && imus == [] && groups == [] && scans == [] && fates == []
      ensures imu_buffer_ == [] && lidar_buffer_ == []
      ensures last_timestamp_imu_ == last_timestamp_lidar_ == -1.0
    {
      imu_buffer_, lidar_buffer_ := [], [];
      lidar_pushed_ := false;
      last_timestamp_imu_, last_timestamp_lidar_ := -1.0, -1.0;
      imus, groups, scans, fates := [], [], [], [];
    }

    method imuHandler(data: Imu)
      requires Valid() && data.secs >= 0.0
      modifies this`imu_buffer_, this`last_timestamp_imu_, this`imus, this`groups
      ensures Valid() && last_timestamp_imu_ == data.secs
      ensures old(last_timestamp_imu_) <= data.secs ==>
                imu_buffer_ == old(imu_buffer_) + [data] && imus == old(imus) + [data] && groups == old(groups)
      ensures old(last_timestamp_imu_) > data.secs ==>
                imu_buffer_ == imus == [data] && groups == []
    {
      if data.secs < last_timestamp_imu_ {
        imu_buffer_ := [];
        imu_buffer_ := imu_buffer_ + [data];
        last_timestamp_imu_ := data.secs;
        imus, groups := [data], [];
        ClockBack(data, last_timestamp_lidar_);
        return;
      }
      SampleIn(imus, groups, imu_buffer_, last_timestamp_imu_, last_timestamp_lidar_, data);
      imu_buffer_ := imu_buffer_ + [data];
      last_timestamp_imu_ := data.secs;
      imus := imus + [data];
    }

    // What livoxHandler and stdMsgHandler do with a scan they have read.
    method lidarHandler(lidar_data: Scan)
      requires Valid()
      modifies this`lidar_buffer_, this`scans
      ensures Valid() && lidar_buffer_ == old(lidar_buffer_) + [lidar_data] && scans == old(scans) + [lidar_data]
    {
      lidar_buffer_ := lidar_buffer_ + [lidar_data];
      scans := scans + [lidar_data];
    }

    method sync_measure(meas: MeasureGroup) returns (ready: bool)
      requires Valid() && Pushed(meas)
      modifies this`imu_buffer_, this`lidar_buffer_, this`lidar_pushed_, this`last_timestamp_lidar_,
               this`groups, this`fates, meas
      ensures Valid() && Pushed(meas)
      ensures ready <==> old(Ready())
      ensures ready ==>
                var scan := old(lidar_buffer_)[0];
                var n := Taken(old(imu_buffer_), scan.end_time);
                && meas.lidar == scan && meas.imu == old(imu_buffer_)[..n] && imu_buffer_ == old(imu_buffer_)[n..]
                && lidar_buffer_ == old(lidar_buffer_)[1..] && last_timestamp_lidar_ == scan.end_time
                && groups == old(groups) + [Group(scan, meas.imu)] && fates == old(fates) + [Fate(scan, true)]
      ensures !ready ==>
                && imu_buffer_ == old(imu_buffer_) && groups == old(groups)
                && meas.imu == old(meas.imu) && last_timestamp_lidar_ == old(last_timestamp_lidar_)
                && if old(imu_buffer_ != [] && lidar_buffer_ != []
                          && last_timestamp_lidar_ > lidar_buffer_[0].end_time)
                   then && lidar_buffer_ == old(lidar_buffer_)[1..]
                        && fates == old(fates) + [Fate(old(lidar_buffer_)[0], false)]
                   else lidar_buffer_ == old(lidar_buffer_) && fates == old(fates)
      ensures lidar_pushed_ ==
              if old(imu_buffer_ == [] || lidar_buffer_ == []) then old(lidar_pushed_)
              else !ready && old(last_timestamp_lidar_ <= lidar_buffer_[0].end_time)
    {
      if |lidar_buffer_| == 0 || |imu_buffer_| == 0 {
        return false;
      }
      if !lidar_pushed_ {
        meas.lidar := lidar_buffer_[0];
        lidar_pushed_ := true;
      }
      if last_timestamp_lidar_ > meas.lidar.end_time {
        drop();
        return false;
      }
      if last_timestamp_imu_ < meas.lidar.end_time {
        return false;
      }
      deliver(meas);
      return true;
    }

    method deliver(meas: MeasureGroup)
      requires Valid() && imu_buffer_ != [] && lidar_buffer_ != [] && meas.lidar == lidar_buffer_[0]
      requires last_timestamp_lidar_ <= meas.lidar.end_time <= last_timestamp_imu_
      modifies this`imu_buffer_, this`lidar_buffer_, this`lidar_pushed_, this`last_timestamp_lidar_,
               this`groups, this`fates, meas`imu
      ensures Valid() && !lidar_pushed_ && last_timestamp_lidar_ == meas.lidar.end_time
      ensures var n := Taken(old(imu_buffer_), meas.lidar.end_time);
              meas.imu == old(imu_buffer_)[..n] && imu_buffer_ == old(imu_buffer_)[n..]
      ensures lidar_buffer_ == old(lidar_buffer_)[1..]
      ensures groups == old(groups) + [Group(meas.lidar, meas.imu)] && fates == old(fates) + [Fate(meas.lidar, true)]
    {
      ghost var n: nat := Taken(imu_buffer_, meas.lidar.end_time);
      ghost var buffer, gs := imu_buffer_[n..], groups + [Group(meas.lidar, imu_buffer_[..n])];
      GroupTaken(imus, groups, imu_buffer_, meas.lidar, last_timestamp_imu_, last_timestamp_lidar_);
      takeImu(meas);
      assert imu_buffer_ == buffer;
      settle(meas.lidar.end_time, gs);
    }

    // What sync_measure does once the samples are taken.
    method settle(end_time: real, ghost gs: seq<Group>)
      requires Samples(imus, gs, imu_buffer_, last_timestamp_imu_, end_time)
      requires Scans(scans, fates, lidar_buffer_, last_timestamp_lidar_)
      requires lidar_buffer_ != [] && lidar_buffer_[0].end_time == end_time >= last_timestamp_lidar_
      modifies this`lidar_buffer_, this`lidar_pushed_, this`last_timestamp_lidar_, this`groups, this`fates
      ensures Valid() && !lidar_pushed_ && last_timestamp_lidar_ == end_time
      ensures lidar_buffer_ == old(lidar_buffer_)[1..]
      ensures groups == gs && fates == old(fates) + [Fate(old(lidar_buffer_)[0], true)]
    {
      ScanGone(scans, fates, lidar_buffer_, last_timestamp_lidar_, true);
      fates := fates + [Fate(lidar_buffer_[0], true)];
      lidar_buffer_ := lidar_buffer_[1..];
      last_timestamp_lidar_ := end_time;
      lidar_pushed_ := false;
      groups := gs;
    }

    method drop()
      requires Valid() && lidar_buffer_ != [] && last_timestamp_lidar_ > lidar_buffer_[0].end_time
      modifies this`lidar_buffer_, this`lidar_pushed_, this`fates
      ensures Valid() && !lidar_pushed_
      ensures lidar_buffer_ == old(lidar_buffer_)[1..] && fates == old(fates) + [Fate(old(lidar_buffer_)[0], false)]
    {
      ScanGone(scans, fates, lidar_buffer_, last_timestamp_lidar_, false);
      fates := fates + [Fate(lidar_buffer_[0], false)];
      lidar_buffer_ := lidar_buffer_[1..];
      lidar_pushed_ := false;
    }

    method takeImu(meas: MeasureGroup)
      requires imu_buffer_ != []
      modifies this`imu_buffer_, meas`imu
      ensures var n := Taken(old(imu_buffer_), meas.lidar.end_time);
              meas.imu == old(imu_buffer_)[..n] && imu_buffer_ == old(imu_buffer_)[n..]
    {
      var imu_time := imu_buffer_[0].secs;
      meas.imu := [];
      ghost var buf, e := imu_buffer_, meas.lidar.end_time;
      ghost var n: nat := 0;
      while |imu_buffer_| > 0 && imu_time < meas.lidar.end_time
        invariant n <= |buf| && meas.imu == buf[..n] && imu_buffer_ == buf[n..] && meas.lidar.end_time == e
        invariant imu_time == buf[if n == 0 then 0 else n - 1].secs
        invariant forall i | 0 <= i < n - 1 :: buf[i].secs < e
        invariant n > 0 ==> imu_time <= e && buf[0].secs < e
        decreases |imu_buffer_|
      {
        imu_time := imu_buffer_[0].secs;
        if imu_time > meas.lidar.end_time {
          break;
        }
        meas.imu := meas.imu + [imu_buffer_[0]];
        imu_buffer_ := imu_buffer_[1..];
        n := n + 1;
      }
      TakenIs(buf, e, n);
    }
  }

  // Such groups are delivered: with two scans between two samples, the second gets none.
  method ScansBetweenSamples(a: Imu, b: Imu, first: Scan, second: Scan) returns (meas: MeasureGroup, ready: bool)
    requires 0.0 <= a.secs < first.end_time <= second.end_time <= b.secs && first.end_time < b.secs
    ensures ready && meas.lidar == second && meas.imu == []
  {
    var wrapper := Received(a, b, first, second);
    meas := new MeasureGroup();
    DeliverFirst(wrapper, meas, a, b, first, second);
    EmptyGroup([b], second.end_time);
    ready := wrapper.sync_measure(meas);
  }

  method Received(a: Imu, b: Imu, first: Scan, second: Scan) returns (wrapper: ROSWrapper)
    requires 0.0 <= a.secs <= b.secs
    ensures fresh(wrapper) && wrapper.Valid() && !wrapper.lidar_pushed_
    ensures wrapper.imu_buffer_ == [a, b] && wrapper.lidar_buffer_ == [first, second]
    ensures wrapper.last_timestamp_imu_ == b.secs && wrapper.last_timestamp_lidar_ == -1.0
  {
    wrapper := Sampled(a, b);
    wrapper.lidarHandler(first);
    wrapper.lidarHandler(second);
  }

  method Sampled(a: Imu, b: Imu) returns (wrapper: ROSWrapper)
    requires 0.0 <= a.secs <= b.secs
    ensures fresh(wrapper) && wrapper.Valid() && !wrapper.lidar_pushed_
    ensures wrapper.imu_buffer_ == [a, b] && wrapper.lidar_buffer_ == []
    ensures wrapper.last_timestamp_imu_ == b.secs && wrapper.last_timestamp_lidar_ == -1.0
  {
    wrapper := new ROSWrapper();
    wrapper.imuHandler(a);
    wrapper.imuHandler(b);
  }

  method DeliverFirst(wrapper: ROSWrapper, meas: MeasureGroup, a: Imu, b: Imu, first: Scan, second: Scan)
    requires wrapper.Valid() && !wrapper.lidar_pushed_
    requires wrapper.imu_buffer_ == [a, b] && wrapper.lidar_buffer_ == [first, second]
    requires wrapper.last_timestamp_imu_ == b.secs && wrapper.last_timestamp_lidar_ == -1.0
    requires 0.0 <= a.secs < first.end_time < b.secs
    modifies wrapper, meas
    ensures wrapper.Valid() && wrapper.Pushed(meas)
    ensures wrapper.imu_buffer_ == [b] && wrapper.lidar_buffer_ == [second]
    ensures wrapper.last_timestamp_imu_ == b.secs && wrapper.last_timestamp_lidar_ == first.end_time
  {
    assert Below([a, b], first.end_time) == 1;
    var ready := wrapper.sync_measure(meas);
  }

  // Nothing received is lost or reordered, the groups fit, and what is left in the buffer is not
  // older than the last group's end.
  ghost predicate Samples(imus: seq<Imu>, groups: seq<Group>, buffer: seq<Imu>, last_imu: real, last_lidar: real) {
    && Sorted(imus) && last_imu == LastSecs(imus, -1.0)
    && AllImu(groups) + buffer == imus && GroupsFit(groups)
    && (groups != [] ==> LastEnd(groups, 0.0) == last_lidar <= last_imu && From(buffer, last_lidar))
  }

  ghost predicate Scans(scans: seq<Scan>, fates: seq<Fate>, buffer: seq<Scan>, last_lidar: real) {
    && ScansOf(fates) + buffer == scans && FatesFit(fates)
    && last_lidar == Delivered(fates)
  }

  lemma ScanGone(scans: seq<Scan>, fates: seq<Fate>, buffer: seq<Scan>, last: real, delivered: bool)
    requires Scans(scans, fates, buffer, last) && buffer != []
    requires delivered <==> buffer[0].end_time >= last
    ensures Scans(scans, fates + [Fate(buffer[0], delivered)], buffer[1..],
                  if delivered then buffer[0].end_time else last)
  {
    AddFate(fates, Fate(buffer[0], delivered));
    assert buffer == [buffer[0]] + buffer[1..];
  }

  lemma GroupTaken(imus: seq<Imu>, groups: seq<Group>, buffer: seq<Imu>, scan: Scan, last_imu: real, last: real)
    requires Samples(imus, groups, buffer, last_imu, last) && last <= scan.end_time <= last_imu
    ensures var n := Taken(buffer, scan.end_time);
      Samples(imus, groups + [Group(scan, buffer[..n])], buffer[n..], last_imu, scan.end_time)
  {
    var n := Taken(buffer, scan.end_time);
    GroupParts(imus, groups, buffer, scan, last);
    assert LastEnd(groups + [Group(scan, buffer[..n])], 0.0) == scan.end_time;
  }

  lemma {:induction false} GroupParts(imus: seq<Imu>, groups: seq<Group>, buffer: seq<Imu>, scan: Scan, last: real)
    requires Sorted(imus) && AllImu(groups) + buffer == imus && GroupsFit(groups)
    requires groups != [] ==> LastEnd(groups, 0.0) == last <= scan.end_time && From(buffer, last)
    ensures var n := Taken(buffer, scan.end_time);
      var groups' := groups + [Group(scan, buffer[..n])];
      && AllImu(groups') + buffer[n..] == imus && GroupsFit(groups') && From(buffer[n..], scan.end_time)
  {
    var n := Taken(buffer, scan.end_time);
    var g := Group(scan, buffer[..n]);
    BufferSorted(imus, AllImu(groups), buffer);
    TakenSplits(buffer, scan.end_time);
    PartsFit(buffer, n, scan.end_time);
    AddGroup(groups, g);
    CutAndJoined(AllImu(groups), buffer, n);
  }

  lemma CutAndJoined(front: seq<Imu>, buffer: seq<Imu>, n: nat)
    requires n <= |buffer|
    ensures front + buffer[..n] + buffer[n..] == front + buffer
  {
  }

  lemma PartsFit(buffer: seq<Imu>, n: nat, e: real)
    requires Sorted(buffer) && n <= |buffer|
    requires forall i | 0 <= i < n :: buffer[i].secs <= e
    requires forall i | n <= i < |buffer| :: buffer[i].secs >= e
    ensures Sorted(buffer[..n]) && UpTo(buffer[..n], e) && From(buffer[n..], e)
    ensures forall lo :: From(buffer, lo) ==> From(buffer[..n], lo)
  {
    SortedPart(buffer, n);
  }

  lemma SampleIn(imus: seq<Imu>, groups: seq<Group>, buffer: seq<Imu>, last_imu: real, last: real, data: Imu)
    requires Samples(imus, groups, buffer, last_imu, last) && last_imu <= data.secs
    ensures Samples(imus + [data], groups, buffer + [data], data.secs, last)
  {
    SortedGrows(imus, data);
    assert AllImu(groups) + (buffer + [data]) == imus + [data];
  }

  lemma ClockBack(data: Imu, last: real)
    ensures Samples([data], [], [data], data.secs, last)
  {
  }

  lemma BufferSorted(imus: seq<Imu>, front: seq<Imu>, buffer: seq<Imu>)
    requires Sorted(imus) && front + buffer == imus
    ensures Sorted(buffer)
  {
    forall i: nat, j: nat | i < j < |buffer|
      ensures InOrder(buffer, i, j)
    {
      assert InOrder(imus, |front| + i, |front| + j);
      assert buffer[i] == imus[|front| + i] && buffer[j] == imus[|front| + j];
    }
  }

  lemma TakenIs(s: seq<Imu>, e: real, n: nat)
    requires n <= |s|
    requires forall i | 0 <= i < n - 1 :: s[i].secs < e
    requires n > 0 ==> s[n - 1].secs <= e && s[0].secs < e
    requires n == |s| || s[n].secs > e || (if n == 0 then s[0].secs >= e else s[n - 1].secs >= e)
    ensures n == Taken(s, e)
  {
  }
}
