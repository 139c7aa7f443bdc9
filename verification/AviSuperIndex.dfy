/** Seeking by the super index of a track and the standard indexes it points at, as in containers/avi/avi_reader.c. */
module AviSuperIndex {
  import opened Common
  import opened AviFormat
  import opened AviReader

  /** What is asked for, and the time base of the track. */
  datatype Query = Query(time: int, forward: bool, base: TimeBase)

  /** What a scan leaves behind: the position and the time are those given if nothing was found. */
  datatype Scan = Scan(status: Status, pos: nat, time: int, chunk: ChunkState)

  /** The chunk state a scan starts from. */
  function Fresh(b: TimeBase): ChunkState
  {
    CLEARED.(time := b.start)
  }

  /** The chunk id is for the track. */
  predicate IdFits(tracks: seq<Track>, id: seq<Byte>, track: nat)
    requires |id| == 4
  {
    var e := Entry(id, 0, 0, 0);
    TrackOk(tracks, e) && TrackOf(e) == track
  }

  /** The chunk state behind a chunk of the given size. */
  function Moved(base: TimeBase, c: ChunkState, size: nat): ChunkState
    requires base.den > 0
  {
    c.(index := c.index + 1, offs := c.offs + size, time := ChunkTime(base, c.index + 1, c.offs + size))
  }

  // ---------- the scans ----------

  /** The scan of standard index entries from at on. */
  function ScanEntries(file: seq<Byte>, at: nat, left: nat, base: nat, q: Query, pos: nat, c: ChunkState, prevPos: nat,
                       prev: ChunkState): Scan
    requires q.base.den > 0
    decreases left
  {
    if left == 0 then Scan(NotFound, pos, q.time, c)
    else if at + 8 > |file| then Scan(EndOfStream, pos, q.time, c)
    else
      var word := Field32(file, at + 4);
      var (key, size) := (word / DELTAFRAME % 2 == 0, word % DELTAFRAME);
      var position := Unsigned(base + Field32(file, at) - 8);
      var d := c.(key := key, encrypted := false);
      var res := CompareSeekTime(c.time, q.time, key, q.forward);
      if res == 0 then Scan(Success, position, d.time, d)
      else if res > 0 then
        if prevPos != 0 then Scan(Success, prevPos, prev.time, prev) else Scan(NotFound, pos, q.time, d)
      else
        ScanEntries(file, at + 8, left - 1, base, q, pos, Moved(q.base, d, size), if key then position else prevPos,
                    if key then d else prev)
  }

  /** The scan of the standard index at the given place. */
  function StandardScan(file: seq<Byte>, tracks: seq<Track>, at: nat, track: nat, q: Query, pos: nat, c: ChunkState):
      Scan
    requires q.base.den > 0
  {
    if at + 32 > |file| then Scan(EndOfStream, pos, q.time, c)
    else
      var size := Field32(file, at + 4);
      if !IdFits(tracks, file[at + 16..at + 20], track) || size < 24 then Scan(FormatInvalid, pos, q.time, c)
      else if Field16(file, at + 8) != 2 || file[at + 10] != 0 || file[at + 11] != 1 then
        Scan(FormatNotSupported, pos, q.time, c)
      else
        var count := Min(Field32(file, at + 12), (size - 24) / 8);
        if count == 0 then Scan(Success, pos, q.time, c)
        else ScanEntries(file, at + 32, count, Field64(file, at + 20), q, pos, c, 0, CLEARED)
  }

  /** The scan of the standard indexes that the entries of a super index point at, one after the other. */
  function ScanIndexes(file: seq<Byte>, tracks: seq<Track>, at: nat, left: nat, track: nat, q: Query, pos: nat,
                       c: ChunkState): Scan
    requires q.base.den > 0
    decreases left
  {
    if left == 0 then Scan(NotFound, pos, q.time, c)
    else if at + 16 > |file| then Scan(EndOfStream, pos, q.time, c)
    else if Field64(file, at) == 0 then Scan(FormatNotSupported, pos, q.time, c)
    else
      var s := StandardScan(file, tracks, Field64(file, at), track, q, pos, c);
      if s.status != NotFound then s else ScanIndexes(file, tracks, at + 16, left - 1, track, q, pos, s.chunk)
  }

  /** The scan of a super index, or of a standard index in its place. */
  function SuperScan(file: seq<Byte>, tracks: seq<Track>, at: nat, size: nat, track: nat, q: Query, pos: nat,
                     c: ChunkState): Scan
    requires q.base.den > 0
  {
    if at + 24 > |file| then Scan(EndOfStream, pos, q.time, c)
    else if file[at + 3] == 0 then
      if !IdFits(tracks, file[at + 8..at + 12], track) || size < 24 then Scan(FormatInvalid, pos, q.time, c)
      else if Field16(file, at) != 4 || file[at + 2] != 0 then Scan(FormatNotSupported, pos, q.time, c)
      else
        var count := Min(Field32(file, at + 4), (size - 24) / 4);
        if count == 0 then Scan(Success, pos, q.time, c)
        else ScanIndexes(file, tracks, at + 24, count, track, q, pos, c)
    else if file[at + 3] == 1 then StandardScan(file, tracks, at, track, q, pos, c)
    else Scan(FormatNotSupported, pos, q.time, c)
  }

  /** avi_scan_standard_index_chunk */
  method ScanStandardIndexChunk(r: Reader, at: nat, track: nat, q: Query, pos0: nat)
      returns (status: Status, pos: nat, time: int)
    requires r.Valid() && track < |r.tracks| == |r.chunks| && q.base == r.times[track]
    modifies r`chunks
    ensures |r.chunks| == |r.tracks| && r.chunks == old(r.chunks)[track := r.chunks[track]]
    ensures Scan(status, pos, time, r.chunks[track])
            == StandardScan(r.file, r.tracks, at, track, q, pos0, old(r.chunks[track]))
  {
    hide ChunkTime, CompareSeekTime, IdFits, Unsigned, Moved, FromLe16, FromLe32, FromLe64;
    pos, time := pos0, q.time;
    if at + 32 > |r.file| {
      return EndOfStream, pos, time;
    }
    var chunkSize := Field32(r.file, at + 4);
    var entrySize, subType, indexType := Field16(r.file, at + 8), r.file[at + 10], r.file[at + 11];
    var entryCount, id := Field32(r.file, at + 12), r.file[at + 16..at + 20];
    var base := Field64(r.file, at + 20);
    if !IdFits(r.tracks, id, track) || chunkSize < 24 {
      return FormatInvalid, pos, time;
    }
    if entrySize != 2 || subType != 0 || indexType != 1 {
      return FormatNotSupported, pos, time;
    }
    entryCount := Min(entryCount, (chunkSize - 24) / (entrySize * 4));
    status := Success;
    var prevPos, prev := 0, CLEARED;
    var entry := 0;
    ghost var all := ScanEntries(r.file, at + 32, entryCount, base, q, pos0, r.chunks[track], 0, CLEARED);
    while entry < entryCount
      invariant |r.chunks| == |r.tracks| && r.chunks == old(r.chunks)[track := r.chunks[track]]
      invariant entry <= entryCount && status == if entry == 0 then Success else NotFound
      invariant all == ScanEntries(r.file, at + 32 + 8 * entry, entryCount - entry, base, q, pos0, r.chunks[track],
                                   prevPos, prev)
    {
      var here := at + 32 + 8 * entry;
      if here + 8 > |r.file| {
        return EndOfStream, pos, time;
      }
      var offset: int, word: nat := Field32(r.file, here), Field32(r.file, here + 4);
      var key, size := word / DELTAFRAME % 2 == 0, word % DELTAFRAME;
      var position := Unsigned(base + offset - 8);
      r.chunks := r.chunks[track := r.chunks[track].(key := key, encrypted := false)];
      var res := CompareSeekTime(r.chunks[track].time, q.time, key, q.forward);
      if res == 0 {
        return Success, position, r.chunks[track].time;
      } else if res > 0 {
        if prevPos != 0 {
          r.chunks := r.chunks[track := prev];
          return Success, prevPos, r.chunks[track].time;
        }
        return NotFound, pos, time;
      }
      if key {
        prevPos, prev := position, r.chunks[track];
      }
      r.chunks := r.chunks[track := Moved(r.times[track], r.chunks[track], size)];
      status := NotFound;
      entry := entry + 1;
    }
  }

  /** avi_scan_super_index_chunk */
  method ScanSuperIndexChunk(r: Reader, track: nat, q: Query, pos0: nat)
      returns (status: Status, pos: nat, time: int)
    requires r.Valid() && track < |r.tracks| == |r.chunks| && q.base == r.times[track]
    modifies r`chunks
    ensures |r.chunks| == |r.tracks| && r.chunks == old(r.chunks)[track := r.chunks[track]]
    ensures Scan(status, pos, time, r.chunks[track])
            == SuperScan(r.file, r.tracks, r.superOffset[track], r.superSize[track], track, q, pos0,
                         old(r.chunks[track]))
  {
    hide IdFits, FromLe16, FromLe32, FromLe64, StandardScan;
    var at, size := r.superOffset[track], r.superSize[track];
    pos, time := pos0, q.time;
    if at + 24 > |r.file| {
      return EndOfStream, pos, time;
    }
    var entrySize, subType, indexType := Field16(r.file, at), r.file[at + 2], r.file[at + 3];
    var entryCount, id := Field32(r.file, at + 4), r.file[at + 8..at + 12];
    if indexType == 0 {
      if !IdFits(r.tracks, id, track) || size < 24 {
        return FormatInvalid, pos, time;
      }
      if entrySize != 4 || subType != 0 {
        return FormatNotSupported, pos, time;
      }
      entryCount := Min(entryCount, (size - 24) / entrySize);
      status := Success;
      var entry := 0;
      ghost var all := ScanIndexes(r.file, r.tracks, at + 24, entryCount, track, q, pos0, r.chunks[track]);
      while entry < entryCount
        invariant |r.chunks| == |r.tracks| && r.chunks == old(r.chunks)[track := r.chunks[track]]
        invariant entry <= entryCount && status == if entry == 0 then Success else NotFound
        invariant pos == pos0 && time == q.time
        invariant all == ScanIndexes(r.file, r.tracks, at + 24 + 16 * entry, entryCount - entry, track, q, pos0,
                                     r.chunks[track])
      {
        var here := at + 24 + 16 * entry;
        if here + 16 > |r.file| {
          return EndOfStream, pos, time;
        }
        var offset := Field64(r.file, here);
        if offset == 0 {
          return FormatNotSupported, pos, time;
        }
        StandardUnfound(r.file, r.tracks, offset, track, q, pos0, r.chunks[track]);
        status, pos, time := ScanStandardIndexChunk(r, offset, track, q, pos);
        if status != NotFound {
          return;
        }
        entry := entry + 1;
      }
    } else if indexType == 1 {
      status, pos, time := ScanStandardIndexChunk(r, at, track, q, pos);
    } else {
      return FormatNotSupported, pos, time;
    }
  }

  /** A scan that finds nothing leaves position and time as they were given. */
  lemma {:induction false} EntriesUnfound(file: seq<Byte>, at: nat, left: nat, base: nat, q: Query, pos: nat,
                                          c: ChunkState, prevPos: nat, prev: ChunkState)
    requires q.base.den > 0
    ensures var s := ScanEntries(file, at, left, base, q, pos, c, prevPos, prev);
            s.status == NotFound ==> s.pos == pos && s.time == q.time
    decreases left
  {
    hide CompareSeekTime, Moved, Unsigned, FromLe32;
    if left > 0 && at + 8 <= |file| {
      var word := Field32(file, at + 4);
      var d := c.(key := word / DELTAFRAME % 2 == 0, encrypted := false);
      var position := Unsigned(base + Field32(file, at) - 8);
      EntriesUnfound(file, at + 8, left - 1, base, q, pos, Moved(q.base, d, word % DELTAFRAME),
                     if d.key then position else prevPos, if d.key then d else prev);
    }
  }

  lemma StandardUnfound(file: seq<Byte>, tracks: seq<Track>, at: nat, track: nat, q: Query, pos: nat, c: ChunkState)
    requires q.base.den > 0
    ensures var s := StandardScan(file, tracks, at, track, q, pos, c);
            s.status == NotFound ==> s.pos == pos && s.time == q.time
  {
    hide ScanEntries, IdFits, FromLe16, FromLe32, FromLe64;
    if at + 32 <= |file| {
      var (count, size, base) := (Field32(file, at + 12), Field32(file, at + 4), Field64(file, at + 20));
      if size >= 24 {
        EntriesUnfound(file, at + 32, Min(count, (size - 24) / 8), base, q, pos, c, 0, CLEARED);
      }
    }
  }

  // ---------- what is found ----------

  datatype IndexEntry = IndexEntry(offset: nat, size: nat, key: bool)

  /** The entries stand in the file from at on. */
  ghost predicate Lists(file: seq<Byte>, at: nat, es: seq<IndexEntry>)
  {
    && at + 8 * |es| <= |file|
    && forall j :: 0 <= j < |es| ==>
         && Field32(file, at + 8 * j) == es[j].offset && es[j].size < DELTAFRAME
         && Field32(file, at + 8 * j + 4) == es[j].size + if es[j].key then 0 else DELTAFRAME
  }

  /** Where the reader takes the chunk of an entry to be. */
  function Place(base: nat, e: IndexEntry): nat
  {
    Unsigned(base + e.offset - 8)
  }

  function DataBefore(es: seq<IndexEntry>, j: nat): nat
    requires j <= |es|
  {
    if j == 0 then 0 else DataBefore(es, j - 1) + es[j - 1].size
  }

  function TimeAt(es: seq<IndexEntry>, b: TimeBase, j: nat): int
    requires j <= |es| && b.den > 0
  {
    ChunkTime(b, j, DataBefore(es, j))
  }

  lemma {:induction false} TimesMonotone(es: seq<IndexEntry>, b: TimeBase, i: nat, j: nat)
    requires i <= j <= |es| && b.den > 0
    ensures DataBefore(es, i) <= DataBefore(es, j) && TimeAt(es, b, i) <= TimeAt(es, b, j)
  {
    hide ChunkTime;
    if i < j {
      TimesMonotone(es, b, i, j - 1);
      ChunkTimeMonotone(b, j - 1, DataBefore(es, j - 1), j, DataBefore(es, j));
    }
  }

  /** The chunk state at entry j. */
  function StateAt(es: seq<IndexEntry>, b: TimeBase, j: nat, key: bool): ChunkState
    requires j <= |es| && b.den > 0
  {
    ChunkState(j, DataBefore(es, j), TimeAt(es, b, j), key, false)
  }

  ghost predicate KeyAt(es: seq<IndexEntry>, j: int)
  {
    0 <= j < |es| && es[j].key
  }

  /** A backward scan gets no further than entry j. */
  ghost predicate Reaches(es: seq<IndexEntry>, b: TimeBase, time: int, j: int)
    requires b.den > 0
  {
    0 <= j < |es| && (TimeAt(es, b, j) > time || (KeyAt(es, j) && TimeAt(es, b, j) == time))
  }

  /** The keyframe at sel is the latest up to the given time. */
  ghost predicate Latest(es: seq<IndexEntry>, b: TimeBase, time: int, sel: int)
    requires b.den > 0
  {
    && KeyAt(es, sel) && TimeAt(es, b, sel) <= time
    && forall j :: KeyAt(es, j) && TimeAt(es, b, j) <= time ==> TimeAt(es, b, j) <= TimeAt(es, b, sel)
  }

  /** There is a keyframe to be found: forward one after the time; backward one up to it, as long as the index does not
      end without a keyframe at that time or a chunk after it. */
  ghost predicate CanFind(es: seq<IndexEntry>, q: Query)
    requires q.base.den > 0
  {
    if q.forward then exists j :: KeyAt(es, j) && TimeAt(es, q.base, j) > q.time
    else
      && (exists j :: KeyAt(es, j) && TimeAt(es, q.base, j) <= q.time)
      && exists j :: Reaches(es, q.base, q.time, j)
  }

  /** What a backward scan of the entries comes to: it finds the latest keyframe up to the time. */
  ghost predicate FoundLatest(es: seq<IndexEntry>, base: nat, q: Query, s: Scan, sel: int)
    requires q.base.den > 0 && !q.forward
  {
    && s.status in {Success, NotFound} && (s.status == Success <==> CanFind(es, q))
    && (s.status == Success ==>
          && Latest(es, q.base, q.time, sel) && s.pos == Place(base, es[sel])
          && s.chunk == StateAt(es, q.base, sel, true) && s.time == s.chunk.time)
  }

  /** What is known before entry i, with the last keyframe so far at sel. */
  ghost predicate Passed(es: seq<IndexEntry>, b: TimeBase, time: int, i: nat, sel: int)
    requires b.den > 0
  {
    && i <= |es| && -1 <= sel < i && (sel >= 0 ==> KeyAt(es, sel))
    && (forall j :: sel < j < i ==> !KeyAt(es, j)) && forall j :: 0 <= j < i ==> !Reaches(es, b, time, j)
  }

  /** One round of the scan, in terms of the entry. */
  lemma EntryScanned(file: seq<Byte>, at: nat, es: seq<IndexEntry>, base: nat, q: Query, pos: nat, i: nat,
                     c: ChunkState, prevPos: nat, prev: ChunkState)
    requires q.base.den > 0 && Lists(file, at, es) && i < |es|
    ensures var (e, d) := (es[i], c.(key := es[i].key, encrypted := false));
            var res := CompareSeekTime(c.time, q.time, e.key, q.forward);
            ScanEntries(file, at + 8 * i, |es| - i, base, q, pos, c, prevPos, prev) ==
            if res == 0 then Scan(Success, Place(base, e), c.time, d)
            else if res > 0 then
              if prevPos != 0 then Scan(Success, prevPos, prev.time, prev) else Scan(NotFound, pos, q.time, d)
            else ScanEntries(file, at + 8 * (i + 1), |es| - (i + 1), base, q, pos, Moved(q.base, d, e.size),
                             if e.key then Place(base, e) else prevPos, if e.key then d else prev)
  {
    hide ChunkTime, Unsigned, FromLe32, CompareSeekTime, Moved;
    var e := es[i];
    assert Field32(file, at + 8 * i) == e.offset;
    assert at + 8 * i + 8 == at + 8 * (i + 1);
  }

  /** A backward scan of a complete list of entries. */
  lemma {:induction false} ScanFindsLatest(file: seq<Byte>, at: nat, es: seq<IndexEntry>, base: nat, q: Query,
          pos: nat, i: nat, c: ChunkState, sel: int, prevPos: nat, prev: ChunkState) returns (found: int)
    requires q.base.den > 0 && !q.forward && Lists(file, at, es) && Passed(es, q.base, q.time, i, sel)
    requires c == StateAt(es, q.base, i, c.key) && (forall j :: 0 <= j < |es| ==> Place(base, es[j]) != 0)
    requires if sel < 0 then prevPos == 0
             else prevPos == Place(base, es[sel]) && prev == StateAt(es, q.base, sel, true)
    ensures FoundLatest(es, base, q, ScanEntries(file, at + 8 * i, |es| - i, base, q, pos, c, prevPos, prev), found)
    decreases |es| - i
  {
    hide ChunkTime, Place, Lists, ScanEntries, FoundLatest;
    found := sel;
    if i == |es| {
      NothingReached(file, at, es, base, q, pos, c, sel, prevPos, prev);
      return;
    }
    EntryScanned(file, at, es, base, q, pos, i, c, prevPos, prev);
    var e := es[i];
    var d := c.(key := e.key, encrypted := false);
    var t := TimeAt(es, q.base, i);
    if t > q.time {
      LaterReached(es, base, q, pos, i, sel, d, prevPos, prev);
    } else if t == q.time && e.key {
      found := i;
      TimeReached(es, base, q, i, d);
    } else {
      found := ScanFindsLatest(file, at, es, base, q, pos, i + 1, Moved(q.base, d, e.size), if e.key then i else sel,
                               if e.key then Place(base, e) else prevPos, if e.key then d else prev);
    }
  }

  lemma NothingReached(file: seq<Byte>, at: nat, es: seq<IndexEntry>, base: nat, q: Query, pos: nat, c: ChunkState,
                       sel: int, prevPos: nat, prev: ChunkState)
    requires q.base.den > 0 && !q.forward && Passed(es, q.base, q.time, |es|, sel)
    ensures FoundLatest(es, base, q, ScanEntries(file, at + 8 * |es|, 0, base, q, pos, c, prevPos, prev), sel)
  {
  }

  lemma TimeReached(es: seq<IndexEntry>, base: nat, q: Query, i: nat, d: ChunkState)
    requires q.base.den > 0 && !q.forward && KeyAt(es, i) && TimeAt(es, q.base, i) == q.time
    requires d == StateAt(es, q.base, i, true)
    ensures FoundLatest(es, base, q, Scan(Success, Place(base, es[i]), d.time, d), i)
  {
    hide TimeAt, Place;
    assert Reaches(es, q.base, q.time, i);
  }

  lemma LaterReached(es: seq<IndexEntry>, base: nat, q: Query, pos: nat, i: nat, sel: int, d: ChunkState,
                     prevPos: nat, prev: ChunkState)
    requires q.base.den > 0 && !q.forward && Passed(es, q.base, q.time, i, sel)
    requires i < |es| && TimeAt(es, q.base, i) > q.time
    requires forall j :: 0 <= j < |es| ==> Place(base, es[j]) != 0
    requires if sel < 0 then prevPos == 0
             else prevPos == Place(base, es[sel]) && prev == StateAt(es, q.base, sel, true)
    ensures var s := if prevPos != 0 then Scan(Success, prevPos, prev.time, prev) else Scan(NotFound, pos, q.time, d);
            FoundLatest(es, base, q, s, sel)
  {
    EarlierKeys(es, q.base, q.time, i, sel);
    hide TimeAt, Place;
    assert Reaches(es, q.base, q.time, i);
  }

  /** Where the scan stops at a later chunk, the last keyframe before it is the latest up to the time. */
  lemma EarlierKeys(es: seq<IndexEntry>, b: TimeBase, time: int, i: nat, sel: int)
    requires b.den > 0 && Passed(es, b, time, i, sel) && i < |es| && TimeAt(es, b, i) > time
    ensures sel >= 0 ==> Latest(es, b, time, sel)
    ensures sel < 0 ==> forall j :: KeyAt(es, j) ==> TimeAt(es, b, j) > time
  {
    hide TimeAt;
    forall j | KeyAt(es, j) && TimeAt(es, b, j) <= time
      ensures sel >= 0 && TimeAt(es, b, j) <= TimeAt(es, b, sel)
    {
      if j >= i {
        TimesMonotone(es, b, i, j);
      } else {
        TimesMonotone(es, b, j, sel);
      }
    }
    if sel >= 0 {
      assert !Reaches(es, b, time, sel);
    }
  }

  /** The keyframe at sel is the first one later than the given time. */
  ghost predicate FoundNext(es: seq<IndexEntry>, base: nat, q: Query, s: Scan, sel: int)
    requires q.base.den > 0 && q.forward
  {
    && s.status in {Success, NotFound} && (s.status == Success <==> CanFind(es, q))
    && (s.status == Success ==>
          && KeyAt(es, sel) && TimeAt(es, q.base, sel) > q.time
          && (forall j :: KeyAt(es, j) && TimeAt(es, q.base, j) > q.time ==> sel <= j)
          && s.pos == Place(base, es[sel]) && s.chunk == StateAt(es, q.base, sel, true) && s.time == s.chunk.time)
  }

  /** A forward scan of a complete list of entries. */
  lemma {:induction false} ScanFindsNext(file: seq<Byte>, at: nat, es: seq<IndexEntry>, base: nat, q: Query, pos: nat,
          i: nat, c: ChunkState, prevPos: nat, prev: ChunkState) returns (found: int)
    requires q.base.den > 0 && q.forward && Lists(file, at, es) && i <= |es|
    requires c == StateAt(es, q.base, i, c.key)
    requires forall j :: KeyAt(es, j) && j < i ==> TimeAt(es, q.base, j) <= q.time
    ensures FoundNext(es, base, q, ScanEntries(file, at + 8 * i, |es| - i, base, q, pos, c, prevPos, prev), found)
    decreases |es| - i
  {
    hide ChunkTime, Place, Lists;
    found := i;
    if i < |es| {
      EntryScanned(file, at, es, base, q, pos, i, c, prevPos, prev);
      hide ScanEntries;
      var e := es[i];
      var d := c.(key := e.key, encrypted := false);
      if TimeAt(es, q.base, i) > q.time && e.key {
        assert KeyAt(es, i);
      } else {
        found := ScanFindsNext(file, at, es, base, q, pos, i + 1, Moved(q.base, d, e.size),
                               if e.key then Place(base, e) else prevPos, if e.key then d else prev);
      }
    }
  }

  /** A scan of a complete list of entries, in either direction. */
  ghost predicate Finds(es: seq<IndexEntry>, base: nat, q: Query, s: Scan, sel: int)
    requires q.base.den > 0
  {
    if q.forward then FoundNext(es, base, q, s, sel) else FoundLatest(es, base, q, s, sel)
  }

  lemma ScanFinds(file: seq<Byte>, at: nat, es: seq<IndexEntry>, base: nat, q: Query, pos: nat) returns (sel: int)
    requires q.base.den > 0 && Lists(file, at, es) && forall j :: 0 <= j < |es| ==> Place(base, es[j]) != 0
    ensures Finds(es, base, q, ScanEntries(file, at, |es|, base, q, pos, Fresh(q.base), 0, CLEARED), sel)
  {
    hide Lists, Place, ScanEntries, ChunkTime;
    var c := Fresh(q.base);
    TimeAtStart(q.base);
    assert c == StateAt(es, q.base, 0, c.key) && at + 8 * 0 == at;
    if q.forward {
      sel := ScanFindsNext(file, at, es, base, q, pos, 0, c, 0, CLEARED);
    } else {
      sel := ScanFindsLatest(file, at, es, base, q, pos, 0, c, -1, 0, CLEARED);
    }
  }

  /** What a scan finds is on success its position, time and chunk state only. */
  lemma FindsSame(es: seq<IndexEntry>, base: nat, q: Query, s: Scan, sel: int, t: Scan)
    requires q.base.den > 0 && Finds(es, base, q, s, sel) && t.status == s.status && (s.status == Success ==> t == s)
    ensures Finds(es, base, q, t, sel) && s.status in {Success, NotFound} && (s.status == Success <==> CanFind(es, q))
    ensures s.status == Success ==> KeyAt(es, sel) && s.pos == Place(base, es[sel])
  {
    hide Place, TimeAt;
  }

  // ---------- what is found, going by the time base ----------

  ghost function TicksAt(es: seq<IndexEntry>, b: TimeBase, j: nat): nat
    requires j <= |es|
  {
    Ticks(b, j, DataBefore(es, j))
  }

  ghost predicate KeyBy(es: seq<IndexEntry>, b: TimeBase, j: int, limit: int)
  {
    KeyAt(es, j) && StartsBy(b, TicksAt(es, b, j), limit)
  }

  ghost predicate KeyAfter(es: seq<IndexEntry>, b: TimeBase, j: int, limit: int)
  {
    KeyAt(es, j) && !StartsBy(b, TicksAt(es, b, j), limit)
  }

  /** The keyframe at sel is that of the request, and the time is its time: that of the ticks before it. */
  ghost predicate ByRate(es: seq<IndexEntry>, q: Query, sel: int, newTime: int)
  {
    && KeyAt(es, sel) && OnTick(q.base, TicksAt(es, q.base, sel), newTime)
    && if q.forward
       then KeyAfter(es, q.base, sel, q.time) && forall j :: KeyAfter(es, q.base, j, q.time) ==> sel <= j
       else KeyBy(es, q.base, sel, q.time) && forall j :: KeyBy(es, q.base, j, q.time) ==> KeyBy(es, q.base, j, newTime)
  }

  lemma EntryRate(es: seq<IndexEntry>, b: TimeBase, j: nat, limit: int)
    requires j < |es| && b.den > 0
    ensures OnTick(b, TicksAt(es, b, j), TimeAt(es, b, j))
    ensures KeyBy(es, b, j, limit) <==> KeyAt(es, j) && TimeAt(es, b, j) <= limit
    ensures KeyAfter(es, b, j, limit) <==> KeyAt(es, j) && TimeAt(es, b, j) > limit
  {
    hide OnTick, StartsBy, Ticks, ChunkTime;
    ChunkTimeOnTick(b, j, DataBefore(es, j));
    OnTickBy(b, TicksAt(es, b, j), TimeAt(es, b, j), limit);
  }

  lemma FoundByRate(es: seq<IndexEntry>, base: nat, q: Query, s: Scan, sel: int)
    requires q.base.den > 0 && Finds(es, base, q, s, sel) && s.status == Success
    ensures ByRate(es, q, sel, s.time)
  {
    hide OnTick, StartsBy, TicksAt, TimeAt, Place, CanFind;
    forall j | 0 <= j < |es|
      ensures KeyBy(es, q.base, j, q.time) <==> KeyAt(es, j) && TimeAt(es, q.base, j) <= q.time
      ensures KeyAfter(es, q.base, j, q.time) <==> KeyAt(es, j) && TimeAt(es, q.base, j) > q.time
      ensures KeyBy(es, q.base, j, s.time) <==> KeyAt(es, j) && TimeAt(es, q.base, j) <= s.time
    {
      EntryRate(es, q.base, j, q.time);
      EntryRate(es, q.base, j, s.time);
    }
    EntryRate(es, q.base, sel, q.time);
  }

  // ---------- every scan keeps the time of the chunk state ----------

  lemma FreshTimely(b: TimeBase)
    requires b.den > 0
    ensures Timely(b, Fresh(b))
  {
    TimeAtStart(b);
    hide ChunkTime, Ticks;
    ChunkTimeOnTick(b, 0, 0);
  }

  lemma MovedTimely(b: TimeBase, c: ChunkState, size: nat)
    requires b.den > 0
    ensures Timely(b, Moved(b, c, size))
  {
    hide ChunkTime, Ticks;
    ChunkTimeOnTick(b, c.index + 1, c.offs + size);
  }

  /** The time told is that of the chunk, unless an index without entries ended the scan at once. */
  predicate ToldTime(s: Scan, q: Query, pos: nat)
  {
    s.status == Success ==> s.time == s.chunk.time || (s.time == q.time && s.pos == pos)
  }

  lemma {:induction false} EntriesTimely(file: seq<Byte>, at: nat, left: nat, base: nat, q: Query, pos: nat,
                                         c: ChunkState, prevPos: nat, prev: ChunkState)
    requires q.base.den > 0 && Timely(q.base, c) && (prevPos != 0 ==> Timely(q.base, prev))
    ensures var s := ScanEntries(file, at, left, base, q, pos, c, prevPos, prev);
            Timely(q.base, s.chunk) && ToldTime(s, q, pos)
    decreases left
  {
    hide CompareSeekTime, Moved, Unsigned, FromLe32, OnTick;
    if left > 0 && at + 8 <= |file| {
      var word := Field32(file, at + 4);
      var d := c.(key := word / DELTAFRAME % 2 == 0, encrypted := false);
      var position := Unsigned(base + Field32(file, at) - 8);
      MovedTimely(q.base, d, word % DELTAFRAME);
      EntriesTimely(file, at + 8, left - 1, base, q, pos, Moved(q.base, d, word % DELTAFRAME),
                    if d.key then position else prevPos, if d.key then d else prev);
    }
  }

  lemma StandardTimely(file: seq<Byte>, tracks: seq<Track>, at: nat, track: nat, q: Query, pos: nat, c: ChunkState)
    requires q.base.den > 0 && Timely(q.base, c)
    ensures var s := StandardScan(file, tracks, at, track, q, pos, c); Timely(q.base, s.chunk) && ToldTime(s, q, pos)
  {
    hide ScanEntries, IdFits, FromLe16, FromLe32, FromLe64, Timely;
    if at + 32 <= |file| {
      var (count, size, base) := (Field32(file, at + 12), Field32(file, at + 4), Field64(file, at + 20));
      if size >= 24 {
        EntriesTimely(file, at + 32, Min(count, (size - 24) / 8), base, q, pos, c, 0, CLEARED);
      }
    }
  }

  lemma {:induction false} IndexesTimely(file: seq<Byte>, tracks: seq<Track>, at: nat, left: nat, track: nat, q: Query,
                                         pos: nat, c: ChunkState)
    requires q.base.den > 0 && Timely(q.base, c)
    ensures var s := ScanIndexes(file, tracks, at, left, track, q, pos, c);
            Timely(q.base, s.chunk) && ToldTime(s, q, pos)
    decreases left
  {
    hide StandardScan, FromLe64, Timely;
    if left > 0 && at + 16 <= |file| && Field64(file, at) != 0 {
      StandardTimely(file, tracks, Field64(file, at), track, q, pos, c);
      var s := StandardScan(file, tracks, Field64(file, at), track, q, pos, c);
      IndexesTimely(file, tracks, at + 16, left - 1, track, q, pos, s.chunk);
    }
  }

  /** Whatever the file holds, the chunk state that a scan leaves behind has the time of its place in the track. */
  lemma SuperTimely(file: seq<Byte>, tracks: seq<Track>, at: nat, size: nat, track: nat, q: Query, pos: nat,
                    c: ChunkState)
    requires q.base.den > 0 && Timely(q.base, c)
    ensures var s := SuperScan(file, tracks, at, size, track, q, pos, c);
            Timely(q.base, s.chunk) && ToldTime(s, q, pos)
  {
    hide StandardScan, ScanIndexes, IdFits, FromLe16, FromLe32, Timely;
    if at + 24 <= |file| {
      StandardTimely(file, tracks, at, track, q, pos, c);
      if size >= 24 {
        IndexesTimely(file, tracks, at + 24, Min(Field32(file, at + 4), (size - 24) / 4), track, q, pos, c);
      }
    }
  }

  /** An index of a single keyframe at the start: a backward seek finds it for no other time. */
  lemma BeyondLast(e: IndexEntry, time: int)
    requires e.key
    ensures var (es, b) := ([e], TimeBase(0, 1, 1, 0));
            (CanFind(es, Query(time, false, b)) <==> time == 0) && (time >= 0 ==> Latest(es, b, time, 0))
  {
    var es, b := [e], TimeBase(0, 1, 1, 0);
    hide ChunkTime;
    TimeAtStart(b);
    assert TimeAt(es, b, 0) == 0 && KeyAt(es, 0);
    assert Reaches(es, b, time, 0) <==> time <= 0;
  }
}
