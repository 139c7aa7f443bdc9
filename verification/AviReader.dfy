/** Seeking by the legacy index, as in containers/avi/avi_reader.c. */
module AviReader {
  import opened Common
  import opened AviFormat

  const AVIIF_LIST := 0x1
  const AVIIF_NOTIME := 0x100

  /** The time base of a track: start in microseconds, scale, rate, and bytes per sample (zero if chunks count). */
  datatype TimeBase = TimeBase(start: int, num: nat, den: nat, sampleSize: nat)

  datatype Entry = Entry(id: seq<Byte>, flags: nat, offset: nat, size: nat)

  datatype Kind = DC | DB | DD | WB | Other

  function ReadEntry(s: seq<Byte>): (e: Entry)
    requires |s| == 16
    ensures |e.id| == 4
  {
    Entry(s[..4], FromLe32(s[4..8]), FromLe32(s[8..12]), FromLe32(s[12..16]))
  }

  /** Two decimal digits, computed with 16 bits. */
  function TrackOf(e: Entry): nat
    requires |e.id| == 4
  {
    var (a: int, b: int) := (e.id[0], e.id[1]);
    ((a - 48) * 10 + b - 48) % 0x1_0000
  }

  function KindOf(e: Entry): Kind
    requires |e.id| == 4
  {
    var k := e.id[2..4];
    if k == [0x64, 0x63] then DC else if k == [0x64, 0x62] then DB
    else if k == [0x64, 0x64] then DD else if k == [0x77, 0x62] then WB else Other
  }

  /** How many ticks come before a chunk: as many as chunks, or the whole number of samples nearest to the data. */
  function Ticks(t: TimeBase, index: nat, offs: nat): (n: nat)
    ensures if t.sampleSize == 0 then n == index
            else 2 * (n * t.sampleSize - offs) <= t.sampleSize && 2 * (offs - n * t.sampleSize) < t.sampleSize
  {
    if t.sampleSize == 0 then index else (NearestSample(offs, t.sampleSize); (offs + t.sampleSize / 2) / t.sampleSize)
  }

  lemma NearestSample(offs: nat, size: nat)
    requires size > 0
    ensures var n := (offs + size / 2) / size; 2 * (n * size - offs) <= size && 2 * (offs - n * size) < size
  {
    var x := offs + size / 2;
    assert x == x / size * size + x % size;
  }

  function TicksToUs(t: TimeBase, ticks: nat): int
    requires t.den > 0
  {
    1000000 * t.num * ticks / t.den
  }

  function ChunkTime(t: TimeBase, index: nat, offs: nat): int
    requires t.den > 0
  {
    t.start + TicksToUs(t, Ticks(t, index, offs))
  }

  /** The time is that of n ticks, in whole microseconds: t.den ticks take t.num seconds. */
  predicate OnTick(t: TimeBase, n: nat, time: int)
  {
    t.den * (time - t.start) <= 1000000 * t.num * n < t.den * (time - t.start + 1)
  }

  /** n ticks are over by the time; the same without the division. */
  predicate StartsBy(t: TimeBase, n: nat, time: int)
  {
    1000000 * t.num * n < t.den * (time - t.start + 1)
  }

  /** A chunk has the time of the ticks before it. */
  lemma ChunkTimeOnTick(t: TimeBase, index: nat, offs: nat)
    requires t.den > 0
    ensures OnTick(t, Ticks(t, index, offs), ChunkTime(t, index, offs))
  {
    hide Ticks;
    var x := 1000000 * t.num * Ticks(t, index, offs);
    assert x == t.den * (x / t.den) + x % t.den;
  }

  /** That fixes the time, and says when it is up to another one. */
  lemma OnTickBy(t: TimeBase, n: nat, time: int, limit: int)
    requires t.den > 0 && OnTick(t, n, time)
    ensures time <= limit <==> StartsBy(t, n, limit)
    ensures OnTick(t, n, limit) ==> limit == time
  {
    var (a, b) := (time - t.start, limit - t.start);
    MulOrder(t.den, a + 1, b + 1);
    MulOrder(t.den, b + 1, a);
  }

  /** t.den chunks later it is t.num seconds later. */
  lemma WholePeriod(t: TimeBase, index: nat, offs: nat, offs': nat)
    requires t.den > 0 && t.sampleSize == 0
    ensures ChunkTime(t, index + t.den, offs') == ChunkTime(t, index, offs) + 1000000 * t.num
  {
    var x, k := 1000000 * t.num * index, 1000000 * t.num;
    assert 1000000 * t.num * (index + t.den) == (x / t.den + k) * t.den + x % t.den;
    DivModUnique(x / t.den + k, x % t.den, t.den);
  }

  /** The same for a chunk with exactly n samples in front of it, whatever their division into chunks. */
  lemma WholeSamples(t: TimeBase, index: nat, n: nat)
    requires t.den > 0 && t.sampleSize > 0
    ensures Ticks(t, index, n * t.sampleSize) == n
  {
    var m := Ticks(t, index, n * t.sampleSize);
    assert n * t.sampleSize - m * t.sampleSize == t.sampleSize * (n - m);
    MulSmall(t.sampleSize, n - m);
  }

  /** 30 chunks at 1001/30000 of a second, as in NTSC video. */
  lemma NtscSecond()
    ensures ChunkTime(TimeBase(0, 1001, 30000, 0), 30, 0) == 1001000
  {
  }

  /** The chunk state has the time of its place in the track. */
  predicate Timely(t: TimeBase, c: ChunkState)
  {
    OnTick(t, Ticks(t, c.index, c.offs), c.time)
  }

  /** -1: go on, 0: this is the chunk, 1: the previous keyframe was. */
  function CompareSeekTime(chunkTime: int, seekTime: int, key: bool, forward: bool): int
  {
    if chunkTime == seekTime && key && !forward then 0
    else if chunkTime > seekTime && key && forward then 0
    else if chunkTime > seekTime && !forward then 1
    else -1
  }

  // ---------- what an index says ----------

  ghost predicate EntriesOk(entries: seq<Entry>)
  {
    forall i :: 0 <= i < |entries| ==> |entries[i].id| == 4
  }

  /** The track exists and has the right type. */
  predicate TrackOk(tracks: seq<Track>, e: Entry)
    requires |e.id| == 4
  {
    && TrackOf(e) < |tracks|
    && (KindOf(e) == WB ==> tracks[TrackOf(e)].Audio?)
    && (KindOf(e) in {DB, DC, DD} ==> tracks[TrackOf(e)].Video?)
  }

  /** Entries that stand for a chunk with a time. */
  predicate Timed(tracks: seq<Track>, e: Entry)
    requires |e.id| == 4
  {
    TrackOk(tracks, e) && e.flags / AVIIF_LIST % 2 == 0 && e.flags / AVIIF_NOTIME % 2 == 0 && KindOf(e) != DD
  }

  predicate Of(tracks: seq<Track>, e: Entry, track: nat)
    requires |e.id| == 4
  {
    Timed(tracks, e) && TrackOf(e) == track
  }

  predicate IsKey(tracks: seq<Track>, e: Entry)
    requires |e.id| == 4 && TrackOf(e) < |tracks|
  {
    tracks[TrackOf(e)].Video? ==> e.flags / AVIIF_KEYFRAME % 2 == 1
  }

  /** Offsets count from the data, unless the first one is already beyond its start. */
  function Base(entries: seq<Entry>, dataOffset: nat): nat
  {
    if entries != [] && entries[0].offset > dataOffset then 0 else dataOffset
  }

  /** Minus the size of a chunk with its header, computed with 32 bits and then taken as a signed number. */
  function BackBy(size: nat): (r: int)
    ensures -0x8000_0000 <= r < 0x8000_0000 && (r + size + 8) % 0x1_0000_0000 == 0
  {
    var u := (-(size + 8)) % 0x1_0000_0000;
    if u < 0x8000_0000 then u else u - 0x1_0000_0000
  }

  /** A position is an unsigned number of 64 bits. */
  function Unsigned(x: int): nat
  {
    x % 0x1_0000_0000_0000_0000
  }

  /** What the last entry for in-band data before entry i moves the next chunk by. */
  function Extra(tracks: seq<Track>, entries: seq<Entry>, i: nat): int
    requires EntriesOk(entries) && i <= |entries|
  {
    if i == 0 then 0
    else
      var e := entries[i - 1];
      if !TrackOk(tracks, e) then Extra(tracks, entries, i - 1)
      else if KindOf(e) == DD then BackBy(e.size)
      else if Timed(tracks, e) then 0
      else Extra(tracks, entries, i - 1)
  }

  /** In-band data, or a chunk with a time. */
  predicate Moves(tracks: seq<Track>, e: Entry)
    requires |e.id| == 4
  {
    TrackOk(tracks, e) && (KindOf(e) == DD || Timed(tracks, e))
  }

  /** A chunk is moved back by the in-band data in front of it, header included, if no other such entry is between. */
  lemma {:induction false} MovedBy(tracks: seq<Track>, entries: seq<Entry>, k: nat, i: nat)
    requires EntriesOk(entries) && k < i <= |entries| && Moves(tracks, entries[k])
    requires forall j :: k < j < i ==> !Moves(tracks, entries[j])
    ensures Extra(tracks, entries, i) == if KindOf(entries[k]) == DD then BackBy(entries[k].size) else 0
  {
    if k < i - 1 {
      MovedBy(tracks, entries, k, i - 1);
    }
  }

  lemma {:induction false} NotMoved(tracks: seq<Track>, entries: seq<Entry>, i: nat)
    requires EntriesOk(entries) && i <= |entries|
    requires forall j :: 0 <= j < i ==> !Moves(tracks, entries[j])
    ensures Extra(tracks, entries, i) == 0
  {
    if i > 0 {
      NotMoved(tracks, entries, i - 1);
    }
  }

  function Position(tracks: seq<Track>, entries: seq<Entry>, dataOffset: nat, i: nat): nat
    requires EntriesOk(entries) && i < |entries|
  {
    Unsigned(Base(entries, dataOffset) + entries[i].offset + Extra(tracks, entries, i))
  }

  lemma SmallUnsigned(x: int)
    requires 0 <= x < 0x1_0000_0000_0000_0000
    ensures Unsigned(x) == x
  {
  }

  /** The check for positions in front of the data misses those in front of the file. */
  lemma CheckMisses(sum: int, dataOffset: nat)
    requires -0x8000_0000_0000_0000 <= sum < 0x8000_0000_0000_0000 && dataOffset < 0x8000_0000_0000_0000
    ensures Unsigned(sum) <= dataOffset <==> 0 <= sum <= dataOffset
  {
    var m := 0x1_0000_0000_0000_0000;
    if sum < 0 {
      SmallUnsigned(sum + m);
      assert sum % m == (sum + m) % m;
    } else {
      SmallUnsigned(sum);
    }
  }

  /** An index of 1000 bytes of in-band data and a chunk at the start of the data: the chunk is placed 784 bytes in
      front of the file, and the check lets that pass. */
  lemma InFrontOfFile()
    ensures var es := [Entry([0x30, 0x30, 0x64, 0x64], 0, 4, 1000), Entry([0x30, 0x30, 0x64, 0x63], 0x10, 4, 8)];
            && Timed([Video], es[1]) && Of([Video], es[1], 0) && IsKey([Video], es[1])
            && Position([Video], es, 220, 1) == 0x1_0000_0000_0000_0000 - 784 > 220
  {
    var es := [Entry([0x30, 0x30, 0x64, 0x64], 0, 4, 1000), Entry([0x30, 0x30, 0x64, 0x63], 0x10, 4, 8)];
    assert es[0].id[2..4] == [0x64, 0x64] && es[1].id[2..4] == [0x64, 0x63];
    assert KindOf(es[0]) == DD && TrackOf(es[0]) == 0;
    assert Extra([Video], es, 1) == -1008;
    assert (-784) % 0x1_0000_0000_0000_0000 == 0x1_0000_0000_0000_0000 - 784;
  }

  /** How many chunks of the track come before entry i, and how much data they hold. */
  function Index(tracks: seq<Track>, entries: seq<Entry>, track: nat, i: nat): nat
    requires EntriesOk(entries) && i <= |entries|
  {
    if i == 0 then 0 else Index(tracks, entries, track, i - 1) + if Of(tracks, entries[i - 1], track) then 1 else 0
  }

  function Offs(tracks: seq<Track>, entries: seq<Entry>, track: nat, i: nat): nat
    requires EntriesOk(entries) && i <= |entries|
  {
    if i == 0 then 0
    else Offs(tracks, entries, track, i - 1) + if Of(tracks, entries[i - 1], track) then entries[i - 1].size else 0
  }

  function Time(tracks: seq<Track>, entries: seq<Entry>, t: TimeBase, track: nat, i: nat): int
    requires EntriesOk(entries) && i <= |entries| && t.den > 0
  {
    ChunkTime(t, Index(tracks, entries, track, i), Offs(tracks, entries, track, i))
  }

  lemma DivMonotone(a: nat, b: nat, d: nat)
    requires a <= b && d > 0
    ensures a / d <= b / d
  {
    if a / d > b / d {
      MulOrder(d, b / d + 1, a / d);
    }
  }

  lemma ChunkTimeMonotone(t: TimeBase, index: nat, offs: nat, index': nat, offs': nat)
    requires t.den > 0 && index <= index' && offs <= offs'
    ensures ChunkTime(t, index, offs) <= ChunkTime(t, index', offs')
  {
    var a := if t.sampleSize == 0 then index else (offs + t.sampleSize / 2) / t.sampleSize;
    var b := if t.sampleSize == 0 then index' else (offs' + t.sampleSize / 2) / t.sampleSize;
    if t.sampleSize > 0 {
      DivMonotone(offs + t.sampleSize / 2, offs' + t.sampleSize / 2, t.sampleSize);
    }
    ScaledMonotone(1000000 * t.num, a, b, t.den);
  }

  lemma ScaledMonotone(k: nat, a: nat, b: nat, d: nat)
    requires a <= b && d > 0
    ensures k * a / d <= k * b / d
  {
    MulOrder(k, a, b);
    DivMonotone(k * a, k * b, d);
  }

  /** Times never decrease along the index. */
  lemma {:induction false} TimeMonotone(tracks: seq<Track>, entries: seq<Entry>, t: TimeBase, track: nat, i: nat,
          j: nat)
    requires EntriesOk(entries) && i <= j <= |entries| && t.den > 0
    ensures Time(tracks, entries, t, track, i) <= Time(tracks, entries, t, track, j)
    ensures Index(tracks, entries, track, i) <= Index(tracks, entries, track, j)
    ensures Offs(tracks, entries, track, i) <= Offs(tracks, entries, track, j)
  {
    if i < j {
      hide ChunkTime, Of;
      TimeMonotone(tracks, entries, t, track, i, j - 1);
      ChunkTimeMonotone(t, Index(tracks, entries, track, i), Offs(tracks, entries, track, i),
                        Index(tracks, entries, track, j), Offs(tracks, entries, track, j));
    }
  }

  /** Before the first chunk the time is the start of the track. */
  lemma TimeAtStart(t: TimeBase)
    requires t.den > 0
    ensures ChunkTime(t, 0, 0) == t.start
  {
    if t.sampleSize > 0 {
      assert t.sampleSize / 2 / t.sampleSize == 0;
    }
    assert 1000000 * t.num * 0 / t.den == 0;
  }

  // ---------- seeking ----------

  /** Entry i is a keyframe of the track with a time up to the limit. */
  ghost predicate KeyUpTo(tracks: seq<Track>, entries: seq<Entry>, t: TimeBase, track: nat, limit: int, i: nat)
    requires EntriesOk(entries) && t.den > 0
  {
    i < |entries| && Of(tracks, entries[i], track) && IsKey(tracks, entries[i])
    && Time(tracks, entries, t, track, i) <= limit
  }

  /** The scan ends at entry i. */
  ghost predicate StopsAt(tracks: seq<Track>, entries: seq<Entry>, t: TimeBase, track: nat, time: int, forward: bool,
          i: nat)
    requires EntriesOk(entries) && t.den > 0
  {
    && i < |entries| && Of(tracks, entries[i], track)
    && CompareSeekTime(Time(tracks, entries, t, track, i), time, IsKey(tracks, entries[i]), forward) >= 0
  }

  datatype Status = Success | FormatInvalid | NotFound | FormatNotSupported | UnsupportedOperation | EndOfStream

  /** The per-track state of the reader that a seek sets. */
  datatype ChunkState = ChunkState(index: nat, offs: nat, time: int, key: bool, encrypted: bool)

  const CLEARED := ChunkState(0, 0, 0, false, false)

  /** The variables of the scan loop. */
  datatype ScanState = ScanState(base: nat, first: bool, extra: int, chunk: ChunkState, selected: ChunkState,
                                 selectedOffset: nat)

  datatype Outcome = GoOn | Stop | Bad

  class Reader {
    const file: seq<Byte>
    const tracks: seq<Track>
    const times: seq<TimeBase>
    const dataOffset: nat
    const indexOffset: nat
    const indexSize: nat
    const superOffset: seq<nat> // where the super index of each track starts, or zero
    const superSize: seq<nat>
    var enabled: seq<bool>
    var chunks: seq<ChunkState>
    var offsets: seq<int>       // where each track goes on on its own
    var offset: int             // where the tracks go on that share the position of the reader
    var shared: seq<bool>       // which ones do

    ghost predicate Valid()
    {
      && |times| == |superOffset| == |superSize| == |tracks|
      && forall i :: 0 <= i < |times| ==> times[i].den > 0
    }

    /** Every track has its state. */
    ghost predicate Sized()
      reads this`enabled, this`chunks, this`offsets, this`shared
    {
      |enabled| == |chunks| == |offsets| == |shared| == |tracks|
    }

    constructor (file: seq<Byte>, tracks: seq<Track>, times: seq<TimeBase>, dataOffset: nat, indexOffset: nat,
            indexSize: nat, superOffset: seq<nat>, superSize: seq<nat>)
      requires |times| == |superOffset| == |superSize| == |tracks|
      requires forall i :: 0 <= i < |times| ==> times[i].den > 0
      ensures Valid() && Sized() && this.file == file && this.tracks == tracks && this.times == times
      ensures this.dataOffset == dataOffset && this.indexOffset == indexOffset && this.indexSize == indexSize
      ensures this.superOffset == superOffset && this.superSize == superSize
    {
      this.file, this.tracks, this.times := file, tracks, times;
      this.dataOffset, this.indexOffset, this.indexSize := dataOffset, indexOffset, indexSize;
      this.superOffset, this.superSize := superOffset, superSize;
      enabled, chunks := seq(|tracks|, _ => true), seq(|tracks|, _ => CLEARED);
      offsets, offset, shared := seq(|tracks|, _ => dataOffset), dataOffset, seq(|tracks|, _ => true);
    }

    /** The entries the scan can read: up to the size of the index, as far as the file goes. */
    ghost function Entries(): (es: seq<Entry>)
      ensures EntriesOk(es)
    {
      seq(EntryCount(), i requires 0 <= i < EntryCount() => EntryAt(i))
    }

    function EntryCount(): nat
    {
      if indexOffset > |file| then 0 else Min((indexSize + 15) / 16, (|file| - indexOffset) / 16)
    }

    function EntryAt(i: nat): (e: Entry)
      requires i < EntryCount()
      ensures |e.id| == 4
    {
      ReadEntry(file[indexOffset + 16 * i..indexOffset + 16 * i + 16])
    }

    ghost predicate KeyEntry(track: nat, i: nat)
      requires i < EntryCount()
    {
      Of(tracks, Entries()[i], track) && IsKey(tracks, Entries()[i])
    }

    /** Entry i would place a chunk in front of the data, and the scan gets there. */
    ghost predicate BadAt(track: nat, time: int, forward: bool, i: nat)
      requires Valid() && track < |tracks|
    {
      && i < EntryCount() && Timed(tracks, Entries()[i]) && Position(tracks, Entries(), dataOffset, i) <= dataOffset
      && forall j :: 0 <= j < i ==> !StopsAt(tracks, Entries(), times[track], track, time, forward, j)
    }

    /** The state of the scan before entry i, with the last keyframe so far at sel, or -1. */
    ghost predicate Scanned(track: nat, time: int, forward: bool, i: nat, sel: int)
      requires Valid() && track < |tracks|
    {
      && i <= EntryCount() && -1 <= sel < i
      && (sel >= 0 ==> KeyEntry(track, sel))
      && (forall j :: sel < j < i ==> !KeyEntry(track, j))
      && (forall j :: 0 <= j < i ==> !StopsAt(tracks, Entries(), times[track], track, time, forward, j))
      && (forall j :: 0 <= j < i ==> !BadAt(track, time, forward, j))
    }

    /** Where the keyframe at sel is, or the start of the data if there is none. */
    ghost function PositionOf(sel: int): nat
      requires sel < EntryCount()
    {
      if sel < 0 then Base(Entries(), dataOffset) + 4 else Position(tracks, Entries(), dataOffset, sel)
    }

    ghost predicate StateAt(c: ChunkState, track: nat, i: nat)
      requires Valid() && track < |tracks| && i <= EntryCount()
    {
      && c.index == Index(tracks, Entries(), track, i) && c.offs == Offs(tracks, Entries(), track, i)
      && c.time == Time(tracks, Entries(), times[track], track, i)
    }

    ghost predicate SelectedAt(c: ChunkState, track: nat, sel: int)
      requires Valid() && track < |tracks| && sel < EntryCount()
    {
      if sel < 0 then c == CLEARED else StateAt(c, track, sel)
    }

    /** Scans the index for the chunk to seek to; sel is the entry it is taken from, or -1. */
    method ScanLegacyIndex(track: nat, time: int, forward: bool)
        returns (status: Status, pos: nat, newTime: int, ghost sel: int)
      requires Valid() && track < |tracks| == |chunks| && chunks[track] == CLEARED.(time := times[track].start)
      modifies this`chunks
      ensures |chunks| == |tracks| && chunks == old(chunks)[track := chunks[track]]
      ensures status in {Success, FormatInvalid, NotFound}
      ensures status == FormatInvalid <==> exists i: nat :: BadAt(track, time, forward, i)
      ensures status == Success ==> -1 <= sel < EntryCount() && pos == PositionOf(sel)
      ensures status == Success ==> SelectedAt(chunks[track], track, sel) && newTime == chunks[track].time
      ensures status == Success && !forward ==> IsLatest(track, time, sel)
      ensures status == Success && forward ==> IsNext(track, time, sel)
      ensures status == Success ==> ByRate(track, time, forward, sel, newTime)
      ensures status == NotFound <==>
              && forward && 16 * EntryCount() < indexSize
              && (forall i: nat :: !BadAt(track, time, forward, i))
              && forall i: nat :: !StopsAt(tracks, Entries(), times[track], track, time, forward, i)
    {
      hide *;
      var s := ScanState(dataOffset, true, 0, chunks[track], CLEARED, dataOffset + 4);
      var i: nat := 0;
      status, pos, newTime, sel := Success, 0, 0, -1;
      ScanStart(track, time, forward, s);
      while 16 * i < indexSize
        invariant i <= EntryCount() && -1 <= sel < i && (s.first ==> s.base == dataOffset)
        invariant Scanned(track, time, forward, i, sel) && Follows(s, track, i, sel)
        invariant |chunks| == |tracks| && chunks == old(chunks)
        decreases indexSize - 16 * i
      {
        CountBound(i);
        if indexOffset + 16 * i + 16 > |file| {
          break;
        }
        var e := EntryAt(i);
        var next, outcome := ScanEntry(s, e, track, time, forward);
        OutcomeIs(s, next, outcome, track, time, forward, i, sel);
        if outcome == Bad {
          chunks := chunks[track := next.chunk];
          return FormatInvalid, 0, 0, sel;
        }
        FollowsOn(s, next, outcome, track, time, forward, i, sel);
        s := next;
        if outcome == Stop {
          StopFound(track, time, forward, i, sel);
          sel := NextSel(track, time, forward, i, sel);
          chunks := chunks[track := s.selected];
          SelectedTime(s.selected, track, sel);
          RateFollows(track, time, forward, sel, s.selected.time);
          return Success, s.selectedOffset, chunks[track].time, sel;
        }
        ScannedOn(track, time, forward, i, sel);
        sel := NextSel(track, time, forward, i, sel);
        i := i + 1;
      }
      CountBound(i);
      EndReached(track, time, forward, i, sel);
      AtEnd(s, track, i, sel);
      chunks := chunks[track := s.chunk];
      if forward && 16 * i < indexSize {
        return NotFound, 0, 0, sel;
      }
      chunks := chunks[track := s.selected];
      assert chunks == old(chunks)[track := s.selected];
      SelectedTime(s.selected, track, sel);
      RateFollows(track, time, forward, sel, s.selected.time);
      return Success, s.selectedOffset, chunks[track].time, sel;
    }

    /** What the loop variables hold before entry i. */
    ghost predicate Follows(s: ScanState, track: nat, i: nat, sel: int)
      requires Valid() && track < |tracks| && i <= EntryCount() && sel < i
    {
      && (if s.first then i == 0 && s.base == dataOffset else s.base == Base(Entries(), dataOffset))
      && s.extra == Extra(tracks, Entries(), i) && StateAt(s.chunk, track, i) && SelectedAt(s.selected, track, sel)
      && s.selectedOffset == if s.first then s.base + 4 else PositionOf(sel)
    }

    /** What one round makes of the loop variables. */
    ghost predicate RoundOk(s: ScanState, e: Entry, track: nat, time: int, forward: bool, r: ScanState,
            outcome: Outcome)
      requires Valid() && track < |tracks| && |e.id| == 4
    {
      && r.base == (if s.first then (if e.offset > dataOffset then 0 else dataOffset) else s.base) && !r.first
      && (outcome == Bad <==> Timed(tracks, e) && Unsigned(r.base + e.offset + s.extra) <= dataOffset)
      && (outcome == Stop <==>
          outcome != Bad && Of(tracks, e, track) && CompareSeekTime(s.chunk.time, time, IsKey(tracks, e), forward) >= 0)
      && (outcome == GoOn ==> Advanced(s, e, track, r))
      && (outcome != Bad ==>
            if Of(tracks, e, track) && IsKey(tracks, e) && CompareSeekTime(s.chunk.time, time, true, forward) <= 0 then
              && r.selectedOffset == Unsigned(r.base + e.offset + s.extra) && r.selected.index == s.chunk.index
              && r.selected.offs == s.chunk.offs && r.selected.time == s.chunk.time
            else r.selected == s.selected && r.selectedOffset == if s.first then r.base + 4 else s.selectedOffset)
    }

    /** The chunk state moves past the entry. */
    ghost predicate Advanced(s: ScanState, e: Entry, track: nat, r: ScanState)
      requires Valid() && track < |tracks| && |e.id| == 4
    {
      && r.extra == (if TrackOk(tracks, e) && KindOf(e) == DD then BackBy(e.size)
                     else if Timed(tracks, e) then 0 else s.extra)
      && r.chunk.index == s.chunk.index + (if Of(tracks, e, track) then 1 else 0)
      && r.chunk.offs == s.chunk.offs + (if Of(tracks, e, track) then e.size else 0)
      && r.chunk.time == if Of(tracks, e, track) then ChunkTime(times[track], r.chunk.index,
              r.chunk.offs) else s.chunk.time
    }

    /** One round of the scan. */
    method ScanEntry(s: ScanState, e: Entry, track: nat, time: int, forward: bool) returns (r: ScanState,
            outcome: Outcome)
      requires Valid() && track < |tracks| && |e.id| == 4 && (s.first ==> s.base == dataOffset)
      ensures RoundOk(s, e, track, time, forward, r, outcome)
    {
      hide ChunkTime;
      r := s;
      if s.first {
        var base := if e.offset > dataOffset then 0 else s.base;
        r := ScanState(base, false, s.extra, s.chunk, s.selected, base + 4);
      }
      if !TrackOk(tracks, e) {
        return r, GoOn;
      }
      if KindOf(e) == DD {
        if TrackOf(e) == track {
          r := r.(chunk := r.chunk.(encrypted := true));
        }
        r := r.(extra := BackBy(e.size));
      }
      if e.flags / AVIIF_LIST % 2 == 1 || e.flags / AVIIF_NOTIME % 2 == 1 || KindOf(e) == DD {
        return r, GoOn;
      }
      var position := Unsigned(r.base + e.offset + r.extra);
      r := r.(extra := 0);
      if position <= dataOffset {
        return r, Bad;
      }
      outcome := GoOn;
      if TrackOf(e) == track {
        var key := IsKey(tracks, e);
        r := r.(chunk := r.chunk.(key := key));
        var res := CompareSeekTime(r.chunk.time, time, key, forward);
        if res > 0 {
          return r, Stop;
        }
        if key {
          r := r.(selectedOffset := position, selected := r.chunk);
        }
        if res == 0 {
          return r, Stop;
        }
        var index, offs := r.chunk.index + 1, r.chunk.offs + e.size;
        r := r.(chunk := r.chunk.(index := index, offs := offs, time := ChunkTime(times[track], index, offs)));
      }
    }

    // ---------- the rounds of the scan ----------

    lemma ScanStart(track: nat, time: int, forward: bool, s: ScanState)
      requires Valid() && track < |tracks|
      requires s == ScanState(dataOffset, true, 0, CLEARED.(time := times[track].start), CLEARED, dataOffset + 4)
      ensures Scanned(track, time, forward, 0, -1) && Follows(s, track, 0, -1)
    {
      TimeAtStart(times[track]);
    }

    lemma CountBound(i: nat)
      requires i <= EntryCount()
      ensures i < EntryCount() <==> 16 * i < indexSize && indexOffset + 16 * i + 16 <= |file|
    {
    }

    /** The selection after entry i. */
    ghost function NextSel(track: nat, time: int, forward: bool, i: nat, sel: int): (k: int)
      requires Valid() && track < |tracks| && i < EntryCount() && -1 <= sel < i
      ensures -1 <= k <= i
    {
      if KeyEntry(track, i)
              && CompareSeekTime(Time(tracks, Entries(), times[track], track, i), time, true, forward) <= 0
      then i else sel
    }

    lemma EntryIs(i: nat)
      requires i < EntryCount()
      ensures |Entries()| == EntryCount() && Entries()[i] == EntryAt(i)
    {
    }

    lemma FollowsOn(s: ScanState, r: ScanState, outcome: Outcome, track: nat, time: int, forward: bool, i: nat,
            sel: int)
      requires Valid() && track < |tracks| && i < EntryCount() && -1 <= sel < i && Follows(s, track, i, sel)
      requires RoundOk(s, EntryAt(i), track, time, forward, r, outcome) && outcome != Bad
      ensures var k := NextSel(track, time, forward, i, sel);
              SelectedAt(r.selected, track, k) && r.selectedOffset == PositionOf(k) && !r.first
      ensures outcome == GoOn ==> Follows(r, track, i + 1, NextSel(track, time, forward, i, sel))
    {
      SelectionFollows(s, r, outcome, track, time, forward, i, sel);
      EntryIs(i);
      hide Reader.Entries, Reader.EntryAt, Reader.EntryCount, ChunkTime, Of, IsKey, Timed, TrackOk, CompareSeekTime,
           KindOf, BackBy, Unsigned, Reader.SelectedAt, Reader.PositionOf, Reader.NextSel;
    }

    lemma SelectionFollows(s: ScanState, r: ScanState, outcome: Outcome, track: nat, time: int, forward: bool, i: nat,
            sel: int)
      requires Valid() && track < |tracks| && i < EntryCount() && -1 <= sel < i && Follows(s, track, i, sel)
      requires RoundOk(s, EntryAt(i), track, time, forward, r, outcome) && outcome != Bad
      ensures var k := NextSel(track, time, forward, i, sel);
              SelectedAt(r.selected, track, k) && r.selectedOffset == PositionOf(k) && !r.first
    {
      hide Reader.Entries, Reader.EntryAt, Reader.EntryCount, ChunkTime, Of, IsKey, Timed, TrackOk, CompareSeekTime,
           KindOf, BackBy, Unsigned, Extra, Reader.Advanced, Position, Base, Index, Offs, OnTick, Ticks;
      EntryIs(i);
      PositionHere(s, r, track, i, sel);
    }

    lemma PositionHere(s: ScanState, r: ScanState, track: nat, i: nat, sel: int)
      requires Valid() && track < |tracks| && i < EntryCount() && -1 <= sel < i && Follows(s, track, i, sel)
      requires var e := EntryAt(i);
               r.base == if s.first then (if e.offset > dataOffset then 0 else dataOffset) else s.base
      ensures |Entries()| == EntryCount() && r.base == Base(Entries(), dataOffset)
      ensures Position(tracks, Entries(), dataOffset, i) == Unsigned(r.base + EntryAt(i).offset + s.extra)
    {
      EntryIs(i);
      hide Reader.Entries, Reader.EntryAt, Reader.EntryCount, Unsigned, Extra, Reader.StateAt, Reader.SelectedAt,
           Reader.PositionOf;
    }

    lemma ScannedOn(track: nat, time: int, forward: bool, i: nat, sel: int)
      requires Valid() && track < |tracks| && i < EntryCount() && Scanned(track, time, forward, i, sel)
      requires !BadAt(track, time, forward, i)
      requires !StopsAt(tracks, Entries(), times[track], track, time, forward, i)
      ensures Scanned(track, time, forward, i + 1, NextSel(track, time, forward, i, sel))
    {
      hide Reader.Entries, Reader.EntryCount, Reader.BadAt, Reader.KeyEntry, Reader.NextSel, StopsAt;
      KeyPassed(track, time, forward, i, sel);
    }

    lemma KeyPassed(track: nat, time: int, forward: bool, i: nat, sel: int)
      requires Valid() && track < |tracks| && i < EntryCount() && -1 <= sel < i
      requires !StopsAt(tracks, Entries(), times[track], track, time, forward, i)
      ensures NextSel(track, time, forward, i, sel) == if KeyEntry(track, i) then i else sel
    {
      EntryIs(i);
      hide Reader.Entries, Reader.EntryCount, Time, Of, IsKey, CompareSeekTime;
    }

    lemma OutcomeIs(s: ScanState, r: ScanState, outcome: Outcome, track: nat, time: int, forward: bool, i: nat,
            sel: int)
      requires Valid() && track < |tracks| && i < EntryCount() && Scanned(track, time, forward, i, sel)
      requires Follows(s, track, i, sel) && RoundOk(s, EntryAt(i), track, time, forward, r, outcome)
      ensures outcome == Bad <==> BadAt(track, time, forward, i)
      ensures outcome == Stop <==>
              outcome != Bad && StopsAt(tracks, Entries(), times[track], track, time, forward, i)
    {
      EntryIs(i);
      hide Reader.Entries, Reader.EntryAt, Reader.EntryCount, ChunkTime, Of, IsKey, Timed, TrackOk, CompareSeekTime;
    }

    ghost function TimeOf(track: nat, j: nat): int
      requires Valid() && track < |tracks| && j <= EntryCount()
    {
      Time(tracks, Entries(), times[track], track, j)
    }

    /** A scan for the latest keyframe that got to entry n has seen everything that matters. */
    lemma LatestUpTo(track: nat, time: int, sel: int, n: nat)
      requires Valid() && track < |tracks| && -1 <= sel < n <= EntryCount()
      requires sel >= 0 ==> KeyEntry(track, sel) && TimeOf(track, sel) <= time
      requires forall j :: sel < j < n ==> !KeyEntry(track, j)
      requires n == EntryCount() || TimeOf(track, n) > time || (sel >= 0 && TimeOf(track, sel) == time)
      ensures IsLatest(track, time, sel)
    {
      var es, t := Entries(), times[track];
      assert |es| == EntryCount();
      hide Reader.Entries, Reader.EntryCount, Time, Of, IsKey;
      forall j: nat | KeyUpTo(tracks, es, t, track, time, j)
        ensures sel >= 0 && Time(tracks, es, t, track, j) <= Time(tracks, es, t, track, sel)
      {
        assert KeyEntry(track, j);
        if j < n {
          assert j <= sel;
          TimeMonotone(tracks, es, t, track, j, sel);
        } else {
          TimeMonotone(tracks, es, t, track, n, j);
        }
      }
    }

    /** What not having stopped says about an entry. */
    lemma NotStopped(track: nat, time: int, forward: bool, j: nat)
      requires Valid() && track < |tracks| && j < EntryCount()
      ensures KeyEntry(track, j) && !StopsAt(tracks, Entries(), times[track], track, time, forward, j) ==>
                if forward then TimeOf(track, j) <= time else TimeOf(track, j) < time
      ensures StopsAt(tracks, Entries(), times[track], track, time, forward, j) ==>
                if forward then KeyEntry(track, j) && TimeOf(track, j) > time
                else TimeOf(track, j) > time || (KeyEntry(track, j) && TimeOf(track, j) == time)
      ensures KeyEntry(track, j) ==>
                (CompareSeekTime(TimeOf(track, j), time, true, forward) <= 0 <==> forward || TimeOf(track, j) <= time)
    {
      EntryIs(j);
      hide Reader.Entries, Reader.EntryCount, Time, Of, IsKey;
    }

    lemma NothingBad(track: nat, time: int, forward: bool, i: nat, sel: int)
      requires Valid() && track < |tracks| && i <= EntryCount() && Scanned(track, time, forward, i, sel)
      requires i < EntryCount() ==> !BadAt(track, time, forward, i)
                                    && StopsAt(tracks, Entries(), times[track], track, time, forward, i)
      ensures forall j: nat :: !BadAt(track, time, forward, j)
    {
      hide Reader.Entries, Reader.EntryCount, StopsAt, Timed;
    }

    /** Where the scan stops, nothing behind is bad, and the selection is the right one. */
    lemma StopFound(track: nat, time: int, forward: bool, i: nat, sel: int)
      requires Valid() && track < |tracks| && i < EntryCount() && Scanned(track, time, forward, i, sel)
      requires !BadAt(track, time, forward, i)
      requires StopsAt(tracks, Entries(), times[track], track, time, forward, i)
      ensures forall j: nat :: !BadAt(track, time, forward, j)
      ensures !forward ==> IsLatest(track, time, NextSel(track, time, forward, i, sel))
      ensures forward ==> IsNext(track, time, NextSel(track, time, forward, i, sel))
    {
      hide Reader.Entries, Reader.EntryCount, Reader.EntryAt, StopsAt, Timed, Reader.BadAt, Reader.KeyEntry,
              Reader.IsLatest,
           CompareSeekTime, Time;
      NothingBad(track, time, forward, i, sel);
      NotStopped(track, time, forward, i);
      if forward {
        forall j: nat | j < i ensures KeyEntry(track, j) ==> TimeOf(track, j) <= time {
          NotStopped(track, time, forward, j);
        }
      } else {
        if sel >= 0 {
          NotStopped(track, time, forward, sel);
        }
        if TimeOf(track, i) > time {
          LatestUpTo(track, time, sel, i);
        } else {
          LatestUpTo(track, time, i, i + 1);
        }
      }
    }

    /** The scan has come to the end of the index. */
    lemma EndReached(track: nat, time: int, forward: bool, i: nat, sel: int)
      requires Valid() && track < |tracks| && i == EntryCount() && Scanned(track, time, forward, i, sel)
      ensures forall j: nat :: !BadAt(track, time, forward, j)
      ensures forall j: nat :: !StopsAt(tracks, Entries(), times[track], track, time, forward, j)
      ensures !forward ==> IsLatest(track, time, sel)
      ensures forward ==> IsNext(track, time, sel)
    {
      assert |Entries()| == EntryCount();
      hide Reader.Entries, Reader.EntryCount, Reader.EntryAt, Timed, Reader.BadAt, Reader.KeyEntry, Reader.IsLatest,
           CompareSeekTime, Time;
      NothingBad(track, time, forward, i, sel);
      if forward {
        forall j: nat | j < i ensures KeyEntry(track, j) ==> TimeOf(track, j) <= time {
          NotStopped(track, time, forward, j);
        }
      } else {
        if sel >= 0 {
          NotStopped(track, time, forward, sel);
        }
        LatestUpTo(track, time, sel, i);
      }
    }

    lemma AtEnd(s: ScanState, track: nat, i: nat, sel: int)
      requires Valid() && track < |tracks| && i == EntryCount() && sel < i && Follows(s, track, i, sel)
      requires s.first ==> s.base == dataOffset
      ensures s.selectedOffset == PositionOf(sel) && SelectedAt(s.selected, track, sel)
      ensures i > 0 ==> !s.first
    {
    }

    lemma SelectedTime(c: ChunkState, track: nat, sel: int)
      requires Valid() && track < |tracks| && sel < EntryCount() && SelectedAt(c, track, sel)
      ensures c.time == if sel < 0 then 0 else Time(tracks, Entries(), times[track], track, sel)
    {
    }

    ghost function TicksAt(track: nat, i: nat): nat
      requires Valid() && track < |tracks| && i <= EntryCount()
    {
      Ticks(times[track], Index(tracks, Entries(), track, i), Offs(tracks, Entries(), track, i))
    }

    /** The keyframe at entry i is over the limit or not, going by the time base. */
    ghost predicate KeyBy(track: nat, i: nat, limit: int)
      requires Valid() && track < |tracks| && i < EntryCount()
    {
      KeyEntry(track, i) && StartsBy(times[track], TicksAt(track, i), limit)
    }

    ghost predicate KeyAfter(track: nat, i: nat, limit: int)
      requires Valid() && track < |tracks| && i < EntryCount()
    {
      KeyEntry(track, i) && !StartsBy(times[track], TicksAt(track, i), limit)
    }

    /** What was selected, going by the time base: the time found is that of the ticks before the keyframe, which is the
        latest up to the time sought, or the first after it if there is one. */
    ghost predicate ByRate(track: nat, time: int, forward: bool, sel: int, newTime: int)
      requires Valid() && track < |tracks| && -1 <= sel < EntryCount()
    {
      && (sel >= 0 ==> OnTick(times[track], TicksAt(track, sel), newTime))
      && if forward
         then forall j: nat :: j < EntryCount() && KeyAfter(track, j, time) ==>
                0 <= sel <= j && KeyAfter(track, sel, time)
         else
           && (sel >= 0 ==> KeyBy(track, sel, time))
           && forall j: nat :: j < EntryCount() && KeyBy(track, j, time) ==> sel >= 0 && KeyBy(track, j, newTime)
    }

    lemma EntryRate(track: nat, i: nat, limit: int)
      requires Valid() && track < |tracks| && i < EntryCount()
      ensures OnTick(times[track], TicksAt(track, i), TimeOf(track, i))
      ensures KeyBy(track, i, limit) <==> KeyEntry(track, i) && TimeOf(track, i) <= limit
      ensures KeyAfter(track, i, limit) <==> KeyEntry(track, i) && TimeOf(track, i) > limit
    {
      var t, es := times[track], Entries();
      hide Reader.Entries, Reader.KeyEntry, OnTick, StartsBy, Ticks, ChunkTime;
      ChunkTimeOnTick(t, Index(tracks, es, track, i), Offs(tracks, es, track, i));
      OnTickBy(t, TicksAt(track, i), TimeOf(track, i), limit);
    }

    lemma RateFollows(track: nat, time: int, forward: bool, sel: int, newTime: int)
      requires Valid() && track < |tracks| && -1 <= sel < EntryCount()
      requires if forward then IsNext(track, time, sel) else IsLatest(track, time, sel)
      requires newTime == if sel < 0 then 0 else Time(tracks, Entries(), times[track], track, sel)
      ensures ByRate(track, time, forward, sel, newTime)
    {
      EntriesAre();
      hide Reader.Entries, Reader.EntryCount, Reader.KeyBy, Reader.KeyAfter, OnTick, Reader.TicksAt, Time, Of, IsKey;
      forall j: nat | j < EntryCount()
        ensures KeyBy(track, j, time) <==> KeyEntry(track, j) && TimeOf(track, j) <= time
        ensures KeyAfter(track, j, time) <==> KeyEntry(track, j) && TimeOf(track, j) > time
        ensures KeyBy(track, j, newTime) <==> KeyEntry(track, j) && TimeOf(track, j) <= newTime
      {
        EntryRate(track, j, time);
        EntryRate(track, j, newTime);
      }
      if sel >= 0 {
        EntryRate(track, sel, time);
      }
    }

    lemma EntriesAre()
      ensures |Entries()| == EntryCount()
    {
    }

    /** The keyframe at sel is the latest up to the given time; with none, every keyframe is later. */
    ghost predicate IsLatest(track: nat, time: int, sel: int)
      requires Valid() && track < |tracks| && -1 <= sel < EntryCount()
    {
      var es := Entries();
      && (sel >= 0 ==> KeyUpTo(tracks, es, times[track], track, time, sel))
      && forall j: nat :: KeyUpTo(tracks, es, times[track], track, time, j) ==>
           sel >= 0 && Time(tracks, es, times[track], track, j) <= Time(tracks, es, times[track], track, sel)
    }

    /** The keyframe at sel is the first after the given time; with none after it, the last one. */
    ghost predicate IsNext(track: nat, time: int, sel: int)
      requires Valid() && track < |tracks| && -1 <= sel < EntryCount()
    {
      var es := Entries();
      && (sel >= 0 ==> KeyEntry(track, sel))
      && (forall j :: 0 <= j < EntryCount() && KeyEntry(track, j) && Time(tracks, es, times[track], track, j) > time ==>
            0 <= sel <= j && Time(tracks, es, times[track], track, sel) > time)
      && (forall j :: 0 <= j < EntryCount() && KeyEntry(track, j) && j > sel ==>
            sel >= 0 && Time(tracks, es, times[track], track, sel) > time)
    }
  }
}
