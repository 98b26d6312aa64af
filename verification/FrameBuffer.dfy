// The point buffer of a frame: packets compacted in place once the frame is complete
// (hesai_lidar_sdk.hpp), and frames collected into one cloud in multi-frame mode (MultiSend and
// lidar_types.h).
module FrameBuffer {
  import opened Basics

  // The valid points of the first n packets, each packet having per places.
  function ValidPoints<T>(points: seq<T>, valid: seq<int>, per: nat, n: nat): seq<T>
    requires n <= |valid| && n * per <= |points| && forall i | 0 <= i < n :: 0 <= valid[i] <= per
  {
    if n == 0 then []
    else
      Places(n - 1, per, n);
      ValidPoints(points, valid, per, n - 1) + points[(n - 1) * per..(n - 1) * per + valid[n - 1]]
  }

  lemma Places(i: nat, per: nat, n: nat)
    requires i < n
    ensures i * per + per == (i + 1) * per <= n * per
  {
    Multiples(i + 1, n, per);
  }

  lemma Multiples(a: nat, b: nat, per: nat)
    requires a <= b
    ensures a * per <= b * per
  {
    if a < b {
      Multiples(a, b - 1, per);
    }
  }

  function Flatten<T>(parts: seq<seq<T>>): seq<T> {
    if parts == [] then [] else Flatten(parts[..|parts| - 1]) + parts[|parts| - 1]
  }

  lemma {:induction false} FlattenMore<T>(parts: seq<seq<T>>, part: seq<T>)
    ensures Flatten(parts + [part]) == Flatten(parts) + part
  {
    assert (parts + [part])[..|parts|] == parts;
  }

  // memcpy to a place before the source, element by element
  method CopyDown<T>(a: array<T>, to: nat, from: nat, n: nat)
    requires to <= from && from + n <= a.Length
    modifies a
    ensures a[to..to + n] == old(a[from..from + n])
    ensures a[..to] == old(a[..to]) && a[from + n..] == old(a[from + n..])
  {
    ghost var was, shift := a[..], from - to;
    for i := 0 to n
      invariant forall k | to <= k < to + i :: a[k] == was[k + shift]
      invariant forall k | 0 <= k < to || to + i <= k < a.Length :: a[k] == was[k]
    {
      a[to + i] := a[from + i];
    }
    assert a[to..to + n] == was[from..from + n];
  }

  // memcpy between two buffers
  method CopyInto<T>(dst: array<T>, at: nat, src: array<T>, n: nat)
    requires dst != src && n <= src.Length && at + n <= dst.Length
    modifies dst
    ensures dst[..at + n] == old(dst[..at]) + src[..n]
  {
    for i := 0 to n
      invariant dst[..at + i] == old(dst[..at]) + src[..i]
    {
      dst[at + i] := src[i];
    }
  }

  class LidarDecodedFrame<PointT(0)> {
    const points: array<PointT>
    const valid_points: array<int>
    // multi_points has room for multi_rate + 1 frames.
    const multi_points: array<PointT>
    const multi_rate: nat
    var packet_num: nat
    var per_points_num: nat
    var points_num: nat
    var multi_points_num: nat
    var multi_send_rate_count_: nat

    // The frames collected since the last cloud, and for every cloud published the frames in it
    // and the cloud itself.
    ghost var pending: seq<seq<PointT>>
    ghost var groups: seq<seq<seq<PointT>>>
    ghost var published: seq<seq<PointT>>

    ghost predicate Valid()
      reads this, multi_points
    {
      && points != multi_points && multi_rate >= 1
      && multi_points.Length == points.Length * (multi_rate + 1)
      && |pending| < multi_rate && |pending| == multi_send_rate_count_ % multi_rate
      && multi_points_num <= points.Length * |pending| <= multi_points.Length
      && multi_points[..multi_points_num] == Flatten(pending)
      && |published| == |groups|
      && forall i | 0 <= i < |groups| :: |groups[i]| == multi_rate && published[i] == Flatten(groups[i])
    }

    // resetMalloc in multi-frame mode
    constructor (maxPacketNum: nat, maxNumPerPacket: nat, rate: nat)
      requires rate >= 1
      ensures Valid() && pending == [] && groups == [] && multi_rate == rate
      ensures points.Length == maxPacketNum * maxNumPerPacket && valid_points.Length == maxPacketNum
      ensures fresh(points) && fresh(valid_points) && fresh(multi_points) && points as object != valid_points as object
    {
      points := new PointT[maxPacketNum * maxNumPerPacket];
      valid_points := new int[maxPacketNum];
      multi_points := new PointT[maxPacketNum * maxNumPerPacket * (rate + 1)];
      multi_rate := rate;
      packet_num, per_points_num, points_num, multi_points_num, multi_send_rate_count_ := 0, 0, 0, 0, 0;
      pending, groups, published := [], [], [];
    }

    // The valid points of all packets move to the front of the buffer.
    method compact()
      requires points as object != valid_points as object
      requires packet_num <= valid_points.Length && packet_num * per_points_num <= points.Length
      requires forall i | 0 <= i < packet_num :: 0 <= valid_points[i] <= per_points_num
      modifies this`points_num, points
      ensures valid_points[..] == old(valid_points[..]) && points_num <= packet_num * per_points_num
      ensures points[..points_num] == ValidPoints(old(points[..]), old(valid_points[..]), per_points_num, packet_num)
    {
      var num: nat := 0;
      ghost var was, valid, per := points[..], valid_points[..], per_points_num;
      for i := 0 to packet_num
        invariant i * per <= packet_num * per
        invariant num <= i * per <= points.Length
        invariant points[..num] == ValidPoints(was, valid, per, i)
        invariant points[i * per..] == was[i * per..]
        invariant valid_points[..] == valid
      {
        Places(i, per, packet_num);
        num := movePacket(i, num, was, valid);
      }
      points_num := num;
    }

    method movePacket(i: nat, at: nat, ghost was: seq<PointT>, ghost valid: seq<int>) returns (num: nat)
      requires points as object != valid_points as object
      requires i < packet_num <= valid_points.Length && packet_num * per_points_num <= points.Length == |was|
      requires valid == valid_points[..] && forall k | 0 <= k < packet_num :: 0 <= valid[k] <= per_points_num
      requires at <= i * per_points_num <= points.Length
      requires points[..at] == ValidPoints(was, valid, per_points_num, i)
      requires points[i * per_points_num..] == was[i * per_points_num..]
      modifies points
      ensures num <= (i + 1) * per_points_num <= points.Length
      ensures points[..num] == ValidPoints(was, valid, per_points_num, i + 1)
      ensures points[(i + 1) * per_points_num..] == was[(i + 1) * per_points_num..]
    {
      Places(i, per_points_num, packet_num);
      var from: nat := i * per_points_num;
      var n: nat := valid_points[i];
      ghost var before, end := points[..], from + per_points_num;
      if at != from {
        CopyDown(points, at, from, n);
      }
      num := at + n;
      assert points[..num] == before[..at] + before[from..from + n];
      assert before[from..from + n] == was[from..from + n] by {
        assert before[from..][..n] == was[from..][..n];
      }
      assert points[end..] == was[end..] by {
        assert points[from + n..] == before[from + n..];
        assert before[from..][per_points_num..] == was[from..][per_points_num..];
        assert points[from + n..][per_points_num - n..] == before[from + n..][per_points_num - n..];
      }
    }

    // MultiSend in multi-frame mode: the frame at hand is added, and every multi_rate frames a cloud
    // is published.
    method multiSend() returns (sent: bool)
      requires Valid() && points_num <= points.Length
      modifies this`multi_points_num, this`multi_send_rate_count_, this`pending, this`groups, this`published,
               multi_points
      ensures Valid()
      ensures sent == (|old(pending)| + 1 == multi_rate)
      ensures var frames := old(pending) + [points[..points_num]];
              if sent
              then pending == [] && groups == old(groups) + [frames] && published == old(published) + [Flatten(frames)]
              else pending == frames && groups == old(groups) && published == old(published)
    {
      collect();
      multi_send_rate_count_ := multi_send_rate_count_ + 1;
      NextCount(multi_send_rate_count_ - 1, multi_rate);
      var per_multi_frame_index := multi_send_rate_count_ % multi_rate;
      sent := per_multi_frame_index == 0;
      if sent {
        published := published + [multi_points[..multi_points_num]];
        groups := groups + [pending];
        pending := [];
        multi_points_num := 0;
      }
    }

    // The buffer always has room for another frame.
    method collect()
      requires Valid() && points_num <= points.Length
      modifies this`multi_points_num, this`pending, multi_points
      ensures pending == old(pending) + [points[..points_num]]
      ensures multi_points_num <= points.Length * |pending| <= multi_points.Length
      ensures multi_points[..multi_points_num] == Flatten(pending)
    {
      Products(points.Length, |pending|, multi_rate);
      FlattenMore(pending, points[..points_num]);
      CopyInto(multi_points, multi_points_num, points, points_num);
      multi_points_num := multi_points_num + points_num;
      pending := pending + [points[..points_num]];
    }
  }

  lemma Products(len: nat, n: nat, rate: nat)
    requires n < rate
    ensures len * n + len == len * (n + 1) <= len * (rate + 1)
  {
    Multiples(n + 1, rate + 1, len);
  }

  lemma NextCount(c: nat, rate: nat)
    requires rate >= 1
    ensures (c + 1) % rate == if c % rate + 1 == rate then 0 else c % rate + 1
  {
    var q, r := c / rate, c % rate;
    assert c == q * rate + r;
    if r + 1 == rate {
      assert c + 1 == (q + 1) * rate;
      DivModUnique(c + 1, q + 1, 0, rate);
    } else {
      DivModUnique(c + 1, q, r + 1, rate);
    }
  }
}
