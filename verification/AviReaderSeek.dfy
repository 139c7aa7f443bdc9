/** avi_reader_seek of containers/avi/avi_reader.c: one track leads, the others follow to the time it was taken to. */
module AviReaderSeek {
  import opened Common
  import opened AviFormat
  import opened AviReader
  import opened AviSuperIndex

  /** A 64-bit position as a signed number. */
  function Signed(x: nat): (r: int)
    ensures -0x8000_0000_0000_0000 <= r <= 0x7FFF_FFFF_FFFF_FFFF
    ensures r % 0x1_0000_0000_0000_0000 == x % 0x1_0000_0000_0000_0000
  {
    var u := x % 0x1_0000_0000_0000_0000;
    if u < 0x8000_0000_0000_0000 then u else u - 0x1_0000_0000_0000_0000
  }

  // ---------- the leading track ----------

  predicate IsVideo(tracks: seq<Track>, enabled: seq<bool>, i: nat)
    requires |enabled| == |tracks|
  {
    i < |tracks| && enabled[i] && tracks[i].Video?
  }

  /** The first enabled video track, else the first enabled track, else the first one. */
  ghost predicate Leads(tracks: seq<Track>, enabled: seq<bool>, lead: nat)
    requires |enabled| == |tracks|
  {
    && lead < |tracks|
    && if exists i: nat :: IsVideo(tracks, enabled, i)
       then IsVideo(tracks, enabled, lead) && forall i: nat :: i < lead ==> !IsVideo(tracks, enabled, i)
       else if exists i :: 0 <= i < |enabled| && enabled[i]
       then enabled[lead] && forall i :: 0 <= i < lead ==> !enabled[i]
       else lead == 0
  }

  /** Which track to seek on. */
  method ChooseTrack(tracks: seq<Track>, enabled: seq<bool>) returns (i: nat)
    requires |enabled| == |tracks| > 0
    ensures Leads(tracks, enabled, i)
  {
    i := 0;
    while i < |tracks| && !(enabled[i] && tracks[i].Video?)
      invariant i <= |tracks| && forall j: nat :: j < i ==> !IsVideo(tracks, enabled, j)
    {
      i := i + 1;
    }
    if i < |tracks| {
      assert IsVideo(tracks, enabled, i);
      return;
    }
    assert forall j: nat :: !IsVideo(tracks, enabled, j);
    i := 0;
    while i < |tracks| && !enabled[i]
      invariant i <= |tracks| && forall j :: 0 <= j < i ==> !enabled[j]
    {
      i := i + 1;
    }
    if i == |tracks| {
      i := 0;
    }
  }

  // ---------- what each track finds ----------

  /** What the super index of track i leads to. */
  ghost function TrackScan(r: Reader, i: nat, time: int, forward: bool, unset: seq<nat>): Scan
    requires r.Valid() && i < |r.tracks| == |unset|
  {
    SuperScan(r.file, r.tracks, r.superOffset[i], r.superSize[i], i, Query(time, forward, r.times[i]), unset[i],
              Fresh(r.times[i]))
  }

  /** A track that has to follow by its super index. */
  predicate Follower(r: Reader, lead: nat, i: nat)
    requires |r.superOffset| == |r.tracks|
  {
    i < |r.tracks| && i != lead && r.superOffset[i] != 0
  }

  /** The scan of the legacy index for track i does not succeed. */
  ghost predicate LegacyFails(r: Reader, i: nat, time: int, forward: bool)
    requires r.Valid() && i < |r.tracks|
  {
    || (exists k: nat :: r.BadAt(i, time, forward, k))
    || (forward && 16 * r.EntryCount() < r.indexSize
        && forall k: nat :: !StopsAt(r.tracks, r.Entries(), r.times[i], i, time, forward, k))
  }

  /** Chunk state and offset are those of the entry that the legacy index gives for the track. */
  ghost predicate LegacyLands(r: Reader, i: nat, time: int, forward: bool, c: ChunkState, offset: int)
    requires r.Valid() && i < |r.tracks|
  {
    exists sel: int :: LegacySelects(r, i, time, forward, c, offset, sel)
  }

  ghost predicate LegacySelects(r: Reader, i: nat, time: int, forward: bool, c: ChunkState, offset: int, sel: int)
    requires r.Valid() && i < |r.tracks|
  {
    && -1 <= sel < r.EntryCount() && offset == Signed(r.PositionOf(sel)) && r.SelectedAt(c, i, sel)
    && (if forward then r.IsNext(i, time, sel) else r.IsLatest(i, time, sel))
    && r.ByRate(i, time, forward, sel, c.time)
  }

  /** Every other track finds a place for the time by the legacy index. */
  ghost predicate LegacyFollow(r: Reader, lead: nat, time: int, forward: bool)
    requires r.Valid() && lead < |r.tracks|
  {
    forall i: nat :: i < |r.tracks| && i != lead ==> !LegacyFails(r, i, time, forward)
  }

  // ---------- what a seek comes to ----------

  /** The reader goes on at the earliest of the positions, and shares it with the tracks that go on there. */
  ghost predicate GoesOn(offsets: seq<int>, offset: int, shared: seq<bool>)
  {
    && |shared| == |offsets| && offset in offsets
    && forall i :: 0 <= i < |offsets| ==> offset <= offsets[i] && (shared[i] <==> offsets[i] == offset)
  }

  /** A seek by super indexes succeeds exactly if the leading track finds its time and every other one finds a place for
      the time that was found. */
  ghost predicate SuperSeek(r: Reader, lead: nat, time: int, forward: bool, unset: seq<nat>, status: Status,
                            newTime: int)
    requires r.Valid() && lead < |r.tracks| == |unset|
  {
    var s := TrackScan(r, lead, time, forward, unset);
    && newTime == s.time && (s.status != Success ==> status == s.status)
    && (s.status == Success ==> FollowStatus(r, lead, newTime, forward, unset, status))
  }

  /** The status is that of the first follower that finds nothing, if any. */
  ghost predicate FollowStatus(r: Reader, lead: nat, time: int, forward: bool, unset: seq<nat>, status: Status)
    requires r.Valid() && lead < |r.tracks| == |unset|
  {
    && (status == Success <==>
        forall i: nat :: Follower(r, lead, i) ==> TrackScan(r, i, time, forward, unset).status == Success)
    && (status != Success ==>
          exists i: nat :: Follower(r, lead, i) && TrackScan(r, i, time, forward, unset).status == status
                           && forall j: nat :: j < i && Follower(r, lead, j) ==>
                                TrackScan(r, j, time, forward, unset).status == Success)
  }

  /** Where the followers are. */
  ghost predicate Followed(r: Reader, lead: nat, time: int, forward: bool, unset: seq<nat>, chunks: seq<ChunkState>,
                           offsets: seq<int>, n: nat)
    requires r.Valid() && lead < |r.tracks| == |unset| == |chunks| == |offsets|
  {
    forall i: nat :: i < n && Follower(r, lead, i) ==>
      var t := TrackScan(r, i, time, forward, unset);
      t.status == Success && chunks[i] == t.chunk && offsets[i] == Signed(t.pos)
  }

  ghost predicate AllCleared(r: Reader, chunks: seq<ChunkState>, offsets: seq<int>, from: nat, lead: int)
    requires r.Valid()
  {
    && |chunks| == |offsets| == |r.tracks|
    && forall i :: from <= i < |chunks| && i != lead ==>
         chunks[i] == Fresh(r.times[i]) && offsets[i] == Signed(r.dataOffset + 4)
  }

  predicate Unshared(shared: seq<bool>)
  {
    forall i :: 0 <= i < |shared| ==> !shared[i]
  }

  /** Offsets have 64 bits. */
  ghost predicate Bounded(offsets: seq<int>)
  {
    forall i :: 0 <= i < |offsets| ==> offsets[i] <= 0x7FFF_FFFF_FFFF_FFFF
  }

  /** Every track has the time of its place; by the legacy index a track without a keyframe to go to is set to zero. */
  ghost predicate AllTimely(r: Reader, chunks: seq<ChunkState>, cleared: bool)
    requires r.Valid()
  {
    && |chunks| == |r.tracks|
    && forall i :: 0 <= i < |chunks| ==> Timely(r.times[i], chunks[i]) || (cleared && chunks[i] == CLEARED)
  }

  lemma ScanTimely(r: Reader, i: nat, time: int, forward: bool, unset: seq<nat>)
    requires r.Valid() && i < |r.tracks| == |unset|
    ensures var s := TrackScan(r, i, time, forward, unset);
            Timely(r.times[i], s.chunk) && ToldTime(s, Query(time, forward, r.times[i]), unset[i])
  {
    hide SuperScan, Fresh, Timely;
    FreshTimely(r.times[i]);
    SuperTimely(r.file, r.tracks, r.superOffset[i], r.superSize[i], i, Query(time, forward, r.times[i]), unset[i],
                Fresh(r.times[i]));
  }

  lemma SuperAllTimely(r: Reader, lead: nat, time: int, forward: bool, unset: seq<nat>, newTime: int,
                       chunks: seq<ChunkState>, offsets: seq<int>)
    requires r.Valid() && lead < |r.tracks| == |unset| == |chunks| == |offsets|
    requires SuperPlaces(r, lead, time, forward, unset, newTime, chunks, offsets)
    ensures AllTimely(r, chunks, false)
  {
    hide TrackScan, Timely, Signed, Fresh;
    forall i: nat | i < |chunks| ensures Timely(r.times[i], chunks[i]) {
      FreshTimely(r.times[i]);
      ScanTimely(r, i, if i == lead then time else newTime, forward, unset);
      assert i != lead && r.superOffset[i] != 0 ==> Follower(r, lead, i);
    }
  }

  lemma SuperTold(r: Reader, lead: nat, time: int, forward: bool, unset: seq<nat>, newTime: int,
                  chunks: seq<ChunkState>, offsets: seq<int>)
    requires r.Valid() && lead < |r.tracks| == |unset| == |chunks| == |offsets|
    requires SuperSeek(r, lead, time, forward, unset, Success, newTime)
    requires SuperPlaces(r, lead, time, forward, unset, newTime, chunks, offsets)
    ensures newTime == chunks[lead].time || newTime == time
  {
    hide TrackScan, Timely, Signed, Fresh;
    ScanTimely(r, lead, time, forward, unset);
  }

  lemma LegacyAllTimely(r: Reader, lead: nat, time: int, forward: bool, newTime: int, chunks: seq<ChunkState>,
                        offsets: seq<int>)
    requires r.Valid() && lead < |r.tracks| == |chunks| == |offsets|
    requires LegacyPlaces(r, lead, time, forward, newTime, chunks, offsets)
    ensures AllTimely(r, chunks, true)
  {
    hide LegacyLands, Timely;
    forall i: nat | i < |chunks| ensures Timely(r.times[i], chunks[i]) || chunks[i] == CLEARED {
      LandsTimely(r, i, if i == lead then time else newTime, forward, chunks[i], offsets[i]);
    }
  }

  lemma LandsTimely(r: Reader, i: nat, time: int, forward: bool, c: ChunkState, offset: int)
    requires r.Valid() && i < |r.tracks| && LegacyLands(r, i, time, forward, c, offset)
    ensures Timely(r.times[i], c) || c == CLEARED
  {
    hide Reader.Entries, Reader.EntryCount, Reader.IsLatest, Reader.IsNext, Reader.PositionOf, Signed, Ticks, OnTick;
    var sel :| LegacySelects(r, i, time, forward, c, offset, sel);
  }

  lemma ClearedTimely(r: Reader, chunks: seq<ChunkState>, offsets: seq<int>)
    requires r.Valid() && AllCleared(r, chunks, offsets, 0, -1)
    ensures AllTimely(r, chunks, false)
  {
    hide Fresh, Timely;
    forall i | 0 <= i < |chunks| ensures Timely(r.times[i], chunks[i]) {
      FreshTimely(r.times[i]);
    }
  }

  /** Every track starts over. */
  method Clear(r: Reader)
    requires r.Valid() && r.Sized()
    modifies r`chunks, r`offsets, r`offset, r`shared
    ensures r.Sized() && AllCleared(r, r.chunks, r.offsets, 0, -1) && Unshared(r.shared)
    ensures Bounded(r.offsets)
  {
    var start := Signed(r.dataOffset + 4);
    var i := 0;
    while i < |r.tracks|
      invariant i <= |r.tracks| && r.Sized()
      invariant forall j :: 0 <= j < i ==>
                  r.chunks[j] == Fresh(r.times[j]) && r.offsets[j] == start && !r.shared[j]
    {
      r.chunks := r.chunks[i := Fresh(r.times[i])];
      r.offsets := r.offsets[i := start];
      r.shared := r.shared[i := false];
      i := i + 1;
    }
    r.offset := start;
  }

  /** Connects the earliest tracks to the position of the reader. */
  method Connect(r: Reader)
    requires r.Sized() && r.tracks != [] && Unshared(r.shared) && Bounded(r.offsets)
    modifies r`offset, r`shared
    ensures r.Sized() && GoesOn(r.offsets, r.offset, r.shared)
  {
    r.offset := 0x7FFF_FFFF_FFFF_FFFF;
    var i := 0;
    while i < |r.tracks|
      invariant i <= |r.tracks| && (forall j :: 0 <= j < i ==> r.offset <= r.offsets[j])
      invariant r.offset in r.offsets || r.offset == 0x7FFF_FFFF_FFFF_FFFF
      modifies r`offset
    {
      if r.offsets[i] < r.offset {
        r.offset := r.offsets[i];
      }
      i := i + 1;
    }
    assert r.offset <= r.offsets[0];
    i := 0;
    while i < |r.tracks|
      invariant i <= |r.tracks| && r.Sized()
      invariant forall j :: 0 <= j < |r.shared| ==> (r.shared[j] <==> j < i && r.offsets[j] == r.offset)
      modifies r`shared
    {
      if r.offsets[i] == r.offset {
        r.shared := r.shared[i := true];
      }
      i := i + 1;
    }
  }

  /** Takes the tracks with a super index to the time that the leading one was taken to. */
  method FollowSuper(r: Reader, lead: nat, time: int, forward: bool, unset: seq<nat>) returns (status: Status)
    requires r.Valid() && r.Sized() && lead < |r.tracks| == |unset| && AllCleared(r, r.chunks, r.offsets, 0, lead)
    requires Bounded(r.offsets)
    modifies r`chunks, r`offsets
    ensures r.Sized() && Bounded(r.offsets) && FollowStatus(r, lead, time, forward, unset, status)
    ensures status == Success ==> Followed(r, lead, time, forward, unset, r.chunks, r.offsets, |r.tracks|)
    ensures r.chunks[lead] == old(r.chunks[lead])
    ensures forall i :: 0 <= i < |r.tracks| && r.superOffset[i] == 0 ==>
              r.chunks[i] == old(r.chunks[i]) && r.offsets[i] == old(r.offsets[i])
  {
    hide SuperScan;
    status := Success;
    var i: nat := 0;
    while i < |r.tracks|
      invariant i <= |r.tracks| && r.Sized() && AllCleared(r, r.chunks, r.offsets, i, lead) && Bounded(r.offsets)
      invariant status == Success && Followed(r, lead, time, forward, unset, r.chunks, r.offsets, i)
      invariant r.chunks[lead] == old(r.chunks[lead])
      invariant forall j :: 0 <= j < |r.tracks| && r.superOffset[j] == 0 ==>
                  r.chunks[j] == old(r.chunks[j]) && r.offsets[j] == old(r.offsets[j])
    {
      if r.superOffset[i] != 0 && i != lead {
        var trackPos, trackTime;
        ghost var t := TrackScan(r, i, time, forward, unset);
        status, trackPos, trackTime := ScanSuperIndexChunk(r, i, Query(time, forward, r.times[i]), unset[i]);
        if status != Success {
          assert Follower(r, lead, i) && t.status == status;
          return;
        }
        r.offsets := r.offsets[i := Signed(trackPos)];
      }
      i := i + 1;
    }
  }

  /** One scan of the legacy index. */
  method ScanLegacy(r: Reader, i: nat, time: int, forward: bool) returns (status: Status, pos: nat, newTime: int)
    requires r.Valid() && i < |r.tracks| == |r.chunks| && r.chunks[i] == Fresh(r.times[i])
    modifies r`chunks
    ensures |r.chunks| == |r.tracks| && r.chunks == old(r.chunks)[i := r.chunks[i]]
    ensures status == Success <==> !LegacyFails(r, i, time, forward)
    ensures status == Success ==>
              LegacyLands(r, i, time, forward, r.chunks[i], Signed(pos)) && newTime == r.chunks[i].time
  {
    hide Reader.Entries, Reader.EntryCount, StopsAt, Reader.BadAt, Reader.IsLatest, Reader.IsNext, Reader.SelectedAt,
         Reader.PositionOf, Reader.ByRate, Signed;
    ghost var sel;
    status, pos, newTime, sel := r.ScanLegacyIndex(i, time, forward);
    if status == Success {
      assert LegacySelects(r, i, time, forward, r.chunks[i], Signed(pos), sel);
    }
  }

  /** Takes the other tracks to the time that the leading one was taken to, by the legacy index. */
  method FollowLegacy(r: Reader, lead: nat, time: int, forward: bool) returns (status: Status)
    requires r.Valid() && r.Sized() && lead < |r.tracks| && AllCleared(r, r.chunks, r.offsets, 0, lead)
    requires Bounded(r.offsets)
    modifies r`chunks, r`offsets
    ensures r.Sized() && Bounded(r.offsets) && (status == Success <==> LegacyFollow(r, lead, time, forward))
    ensures r.chunks[lead] == old(r.chunks[lead])
    ensures status == Success ==> forall i :: 0 <= i < |r.tracks| && i != lead ==>
              LegacyLands(r, i, time, forward, r.chunks[i], r.offsets[i])
  {
    hide LegacyFails, LegacyLands, Signed;
    status := Success;
    var i: nat := 0;
    while i < |r.tracks|
      invariant i <= |r.tracks| && r.Sized() && AllCleared(r, r.chunks, r.offsets, i, lead) && Bounded(r.offsets)
      invariant status == Success && r.chunks[lead] == old(r.chunks[lead])
      invariant forall j: nat :: j < i && j != lead ==> !LegacyFails(r, j, time, forward)
      invariant forall j :: 0 <= j < i && j != lead ==>
                  LegacyLands(r, j, time, forward, r.chunks[j], r.offsets[j])
    {
      if i != lead {
        var trackPos, trackTime;
        status, trackPos, trackTime := ScanLegacy(r, i, time, forward);
        if status != Success {
          return;
        }
        r.offsets := r.offsets[i := Signed(trackPos)];
      }
      i := i + 1;
    }
  }

  /** Where all tracks are after a seek by super indexes; those without one are at the start of the data. */
  ghost predicate SuperPlaces(r: Reader, lead: nat, time: int, forward: bool, unset: seq<nat>, newTime: int,
                              chunks: seq<ChunkState>, offsets: seq<int>)
    requires r.Valid() && lead < |r.tracks| == |unset| == |chunks| == |offsets|
  {
    var s := TrackScan(r, lead, time, forward, unset);
    && chunks[lead] == s.chunk && offsets[lead] == Signed(s.pos)
    && Followed(r, lead, newTime, forward, unset, chunks, offsets, |r.tracks|)
    && forall i :: 0 <= i < |r.tracks| && i != lead && r.superOffset[i] == 0 ==>
         chunks[i] == Fresh(r.times[i]) && offsets[i] == Signed(r.dataOffset + 4)
  }

  ghost predicate LegacyPlaces(r: Reader, lead: nat, time: int, forward: bool, newTime: int,
                               chunks: seq<ChunkState>, offsets: seq<int>)
    requires r.Valid() && lead < |r.tracks| == |chunks| == |offsets|
  {
    forall i :: 0 <= i < |r.tracks| ==>
      LegacyLands(r, i, if i == lead then time else newTime, forward, chunks[i], offsets[i])
  }

  /** The leading track's part of a seek that goes by its super index. */
  method SeekSuper(r: Reader, lead: nat, time: int, forward: bool, unset: seq<nat>)
      returns (status: Status, newTime: int)
    requires r.Valid() && r.Sized() && lead < |r.tracks| == |unset| && AllCleared(r, r.chunks, r.offsets, 0, -1)
    requires Bounded(r.offsets) && r.superOffset[lead] != 0
    modifies r`chunks, r`offsets
    ensures r.Sized() && Bounded(r.offsets) && SuperSeek(r, lead, time, forward, unset, status, newTime)
    ensures status == Success ==> SuperPlaces(r, lead, time, forward, unset, newTime, r.chunks, r.offsets)
  {
    hide SuperScan, Signed;
    var pos;
    ghost var s := TrackScan(r, lead, time, forward, unset);
    status, pos, newTime := ScanSuperIndexChunk(r, lead, Query(time, forward, r.times[lead]), unset[lead]);
    if status == Success {
      status := FollowSuper(r, lead, newTime, forward, unset);
    }
    r.offsets := r.offsets[lead := Signed(pos)];
  }

  method SeekLegacy(r: Reader, lead: nat, time: int, forward: bool) returns (status: Status, newTime: int)
    requires r.Valid() && r.Sized() && lead < |r.tracks| && AllCleared(r, r.chunks, r.offsets, 0, -1)
    requires Bounded(r.offsets)
    modifies r`chunks, r`offsets
    ensures r.Sized() && Bounded(r.offsets) && LegacySeek(r, lead, time, forward, status, newTime)
    ensures status == Success ==> LegacyPlaces(r, lead, time, forward, newTime, r.chunks, r.offsets)
    ensures status == Success ==> newTime == r.chunks[lead].time
  {
    hide LegacyFails, LegacyLands, Signed, LegacyFollow;
    var pos, found;
    newTime := time;
    status, pos, found := ScanLegacy(r, lead, time, forward);
    if status == Success {
      ghost var c := r.chunks[lead];
      newTime := found;
      status := FollowLegacy(r, lead, newTime, forward);
      assert LegacyLands(r, lead, time, forward, c, Signed(pos)) && newTime == c.time;
    }
    r.offsets := r.offsets[lead := Signed(pos)];
  }

  /** A seek by the legacy index succeeds exactly if no track's scan fails, the others seeking to the time that the
      leading one has found. */
  ghost predicate LegacySeek(r: Reader, lead: nat, time: int, forward: bool, status: Status, newTime: int)
    requires r.Valid() && lead < |r.tracks|
  {
    && (status == Success <==> !LegacyFails(r, lead, time, forward) && LegacyFollow(r, lead, newTime, forward))
    && if LegacyFails(r, lead, time, forward) then newTime == time
       else exists c, offset :: LegacyLands(r, lead, time, forward, c, offset) && newTime == c.time
  }

  /** Seeks to a time and goes on at the earliest place of any track, or leaves the reader as it was.  The numbers in
      unset stand for positions that are never assigned, one for each track. */
  method Seek(r: Reader, time: int, forward: bool, unset: seq<nat>)
      returns (status: Status, newTime: int, ghost lead: nat)
    requires r.Valid() && r.Sized() && |r.tracks| == |unset| > 0
    modifies r`chunks, r`offsets, r`offset, r`shared
    ensures r.Sized() && Leads(r.tracks, r.enabled, lead)
    ensures status != Success ==>
              (r.chunks, r.offsets, r.offset, r.shared) == old((r.chunks, r.offsets, r.offset, r.shared))
    ensures status == Success ==> GoesOn(r.offsets, r.offset, r.shared)
    ensures status == Success ==> AllTimely(r, r.chunks, r.superOffset[lead] == 0 && r.indexOffset != 0)
    ensures status == Success ==> newTime == r.chunks[lead].time || newTime == time
    ensures r.superOffset[lead] != 0 ==>
              && SuperSeek(r, lead, time, forward, unset, status, newTime)
              && (status == Success ==> SuperPlaces(r, lead, time, forward, unset, newTime, r.chunks, r.offsets))
    ensures r.superOffset[lead] == 0 && r.indexOffset != 0 ==>
              && LegacySeek(r, lead, time, forward, status, newTime)
              && (status == Success ==> LegacyPlaces(r, lead, time, forward, newTime, r.chunks, r.offsets))
    ensures r.superOffset[lead] == 0 && r.indexOffset == 0 ==>
              if time == 0 then status == Success && newTime == 0 && r.offsets[lead] == Signed(r.dataOffset)
              else status == UnsupportedOperation
  {
    hide SuperSeek, LegacySeek, SuperPlaces, LegacyPlaces, GoesOn, Leads, AllTimely, AllCleared;
    var chunks, offsets, offset, shared := r.chunks, r.offsets, r.offset, r.shared;
    Clear(r);
    ClearedTimely(r, r.chunks, r.offsets);
    var i := ChooseTrack(r.tracks, r.enabled);
    lead, status, newTime := i, Success, time;
    if r.superOffset[i] != 0 {
      status, newTime := SeekSuper(r, i, time, forward, unset);
      if status == Success {
        SuperAllTimely(r, i, time, forward, unset, newTime, r.chunks, r.offsets);
        SuperTold(r, i, time, forward, unset, newTime, r.chunks, r.offsets);
      }
    } else if r.indexOffset == 0 {
      if time != 0 {
        status := UnsupportedOperation;
      }
      r.offsets := r.offsets[i := Signed(r.dataOffset)];
    } else {
      status, newTime := SeekLegacy(r, i, time, forward);
      if status == Success {
        LegacyAllTimely(r, i, time, forward, newTime, r.chunks, r.offsets);
      }
    }
    if status == Success {
      Connect(r);
    } else {
      r.chunks, r.offsets, r.offset, r.shared := chunks, offsets, offset, shared;
    }
  }
}
