/** The legacy index that the AVI writer leaves behind, as the AVI reader understands it. */
module AviIndex {
  import opened Common
  import opened AviFormat
  import opened AviChunks
  import opened AviOpenDml
  import opened AviWriter
  import opened AviReader

  /** What the reader makes of the index entry of a chunk. */
  function AsRead(tracks: seq<Track>, n: Noted, offset: nat): Entry
    requires n.track < |tracks| <= 100
  {
    Entry(ChunkId(tracks, n.track), if n.key then AVIIF_KEYFRAME else 0, offset, n.size)
  }

  lemma EntryRoundTrip(tracks: seq<Track>, n: Noted, offset: nat)
    requires n.track < |tracks| <= 100 && n.size < DELTAFRAME && offset < 0x1_0000_0000
    ensures ReadEntry(EntryBytes(tracks, n, offset)) == AsRead(tracks, n, offset)
  {
    hide ChunkId, Le32, FromLe32;
    Le32RoundTrip(if n.key then AVIIF_KEYFRAME else 0);
    Le32RoundTrip(offset);
    Le32RoundTrip(n.size);
    var s := EntryBytes(tracks, n, offset);
    assert s[..4] == ChunkId(tracks, n.track) && s[4..8] == Le32(if n.key then AVIIF_KEYFRAME else 0);
    assert s[8..12] == Le32(offset) && s[12..16] == Le32(n.size);
  }

  lemma {:induction false} IndexSlice(tracks: seq<Track>, notes: seq<Noted>, j: nat, n: nat)
    requires NotesOk(tracks, notes) && j < n <= |notes|
    ensures IndexBytes(tracks, notes, n)[16 * j..16 * j + 16] == EntryBytes(tracks, notes[j], IndexOffset(notes, j))
  {
    hide EntryBytes;
    if j < n - 1 {
      IndexSlice(tracks, notes, j, n - 1);
    }
  }

  /** A written entry stands for a chunk of its track, and a keyframe of a video track is one. */
  lemma WrittenEntry(tracks: seq<Track>, n: Noted, offset: nat)
    requires n.track < |tracks| <= 100
    ensures var e := AsRead(tracks, n, offset);
            && TrackOf(e) == n.track && TrackOk(tracks, e) && Timed(tracks, e) && KindOf(e) != DD
            && (IsKey(tracks, e) <==> tracks[n.track].Audio? || n.key)
  {
    var e := AsRead(tracks, n, offset);
    assert e.id[2..4] == if tracks[n.track].Video? then [0x64, 0x63] else [0x77, 0x62];
  }

  lemma Sections(a: seq<Byte>, b: seq<Byte>, c: seq<Byte>, d: seq<Byte>, e: seq<Byte>)
    ensures var f := a + b + c + d + e;
            && f[|a| + |b|..|a| + |b| + |c|] == c && f[|a| + |b| + |c| + |d|..] == e
  {
  }

  /** Where the chunks and the index stand in a finished file. */
  lemma FinalSections(tracks: seq<Track>, head: seq<Byte>, pieces: seq<Piece>, standardIndex: seq<Byte>)
    requires |head| >= 8 && PiecesOk(tracks, pieces) && NotesOk(tracks, Notes(pieces))
    ensures var (f, l) := (FinalFile(tracks, head, pieces, standardIndex), Layout(tracks, pieces));
            var i := |head| + 12 + |l| + |standardIndex|;
            && |f| == i + |IndexChunk(tracks, pieces)|
            && f[|head| + 12..|head| + 12 + |l|] == l && f[i..] == IndexChunk(tracks, pieces)
  {
    hide Layout, IndexChunk, Le32, LIST, MOVI, ListHeader;
    var l, t := Layout(tracks, pieces), IndexChunk(tracks, pieces);
    var fileSize := |head| + 12 + |l| + |standardIndex| + |t|;
    var a := Splice(head, 4, Le32(fileSize));
    assert |a| == |head|;
    Sections(a, ListHeader(4 + |l| + |standardIndex|), l, standardIndex, t);
  }

  /** A file as the writer leaves it, and a reader that found its data list and its legacy index. */
  ghost predicate Reads(r: Reader, head: seq<Byte>, pieces: seq<Piece>, standardIndex: seq<Byte>)
  {
    && r.Valid() && |r.tracks| <= 100 && |head| >= 8 && PiecesOk(r.tracks, pieces) && NotesOk(r.tracks, Notes(pieces))
    && r.file == FinalFile(r.tracks, head, pieces, standardIndex) && |r.file| < 0x1_0000_0000
    && r.dataOffset == |head| + 8 && r.indexSize == 16 * |Notes(pieces)|
    && r.indexOffset == |head| + 12 + |Layout(r.tracks, pieces)| + |standardIndex| + 8
  }

  lemma {:induction false} OffsetBound(notes: seq<Noted>, j: nat)
    requires j <= |notes|
    ensures 4 <= IndexOffset(notes, j) <= IndexOffset(notes, |notes|)
    decreases |notes| - j
  {
    if j < |notes| {
      OffsetBound(notes, j + 1);
    }
  }

  lemma IndexFits(r: Reader, head: seq<Byte>, pieces: seq<Piece>, standardIndex: seq<Byte>)
    requires Reads(r, head, pieces, standardIndex)
    ensures IndexOffset(Notes(pieces), |Notes(pieces)|) < 0x1_0000_0000
  {
    FinalSections(r.tracks, head, pieces, standardIndex);
    LayoutLength(r.tracks, pieces);
    NotesBefore(pieces);
    hide FinalFile, IndexChunk, Layout, Notes, HeaderOffset, IndexOffset;
  }

  lemma IndexChunkSlice(tracks: seq<Track>, pieces: seq<Piece>, j: nat)
    requires NotesOk(tracks, Notes(pieces)) && j < |Notes(pieces)|
    ensures var notes := Notes(pieces);
            && |IndexChunk(tracks, pieces)| == 8 + 16 * |notes|
            && IndexChunk(tracks, pieces)[8 + 16 * j..8 + 16 * j + 16]
               == EntryBytes(tracks, notes[j], IndexOffset(notes, j))
  {
    hide Le32, IndexBytes, EntryBytes;
    var notes := Notes(pieces);
    var h, b := IDX1 + Le32(16 * |notes|), IndexBytes(tracks, notes, |notes|);
    IndexSlice(tracks, notes, j, |notes|);
    Shifted(h, b, 16 * j, 16 * j + 16);
  }

  lemma Shifted(h: seq<Byte>, b: seq<Byte>, i: nat, j: nat)
    requires i <= j <= |b| && |h| == 8
    ensures (h + b)[8 + i..8 + j] == b[i..j]
  {
  }

  lemma IndexPlace(r: Reader, head: seq<Byte>, pieces: seq<Piece>, standardIndex: seq<Byte>) returns (i: nat)
    requires Reads(r, head, pieces, standardIndex)
    ensures NotesOk(r.tracks, Notes(pieces)) && i == r.indexOffset - 8
    ensures |r.file| == i + |IndexChunk(r.tracks, pieces)| && r.file[i..|r.file|] == IndexChunk(r.tracks, pieces)
  {
    FinalSections(r.tracks, head, pieces, standardIndex);
    hide FinalFile, IndexChunk, Layout, Notes;
    i := r.indexOffset - 8;
    assert r.file[i..|r.file|] == r.file[i..];
  }

  /** The bytes of entry j stand where the reader looks for them. */
  lemma EntryBytesFound(r: Reader, head: seq<Byte>, pieces: seq<Piece>, standardIndex: seq<Byte>, j: nat)
    requires Reads(r, head, pieces, standardIndex) && j < |Notes(pieces)|
    ensures r.indexOffset + 16 * j + 16 <= |r.file|
    ensures r.file[r.indexOffset + 16 * j..r.indexOffset + 16 * j + 16]
            == EntryBytes(r.tracks, Notes(pieces)[j], IndexOffset(Notes(pieces), j))
  {
    hide *;
    var i := IndexPlace(r, head, pieces, standardIndex);
    IndexChunkSlice(r.tracks, pieces, j);
    SliceOfSlice(r.file, i, |r.file|, 8 + 16 * j, 8 + 16 * j + 16);
  }

  lemma EntryAtIs(r: Reader, j: nat)
    requires j < r.EntryCount()
    ensures r.indexOffset + 16 * j + 16 <= |r.file| && |r.Entries()| == r.EntryCount()
    ensures r.Entries()[j] == ReadEntry(r.file[r.indexOffset + 16 * j..r.indexOffset + 16 * j + 16])
  {
    hide ReadEntry;
  }

  /** The reader finds exactly the entries that were written. */
  lemma EntryFound(r: Reader, head: seq<Byte>, pieces: seq<Piece>, standardIndex: seq<Byte>, j: nat)
    requires Reads(r, head, pieces, standardIndex) && j < |Notes(pieces)|
    ensures r.EntryCount() == |Notes(pieces)| && |r.Entries()| == |Notes(pieces)|
    ensures r.Entries()[j] == AsRead(r.tracks, Notes(pieces)[j], IndexOffset(Notes(pieces), j))
  {
    var notes := Notes(pieces);
    assert notes[j].track < |r.tracks| <= 100 && notes[j].size < DELTAFRAME;
    hide *;
    CountFound(r, head, pieces, standardIndex);
    EntryAtIs(r, j);
    EntryBytesFound(r, head, pieces, standardIndex, j);
    IndexFits(r, head, pieces, standardIndex);
    OffsetBound(notes, j);
    EntryRoundTrip(r.tracks, notes[j], IndexOffset(notes, j));
  }

  lemma CountFound(r: Reader, head: seq<Byte>, pieces: seq<Piece>, standardIndex: seq<Byte>)
    requires Reads(r, head, pieces, standardIndex)
    ensures r.EntryCount() == |Notes(pieces)| && |r.Entries()| == |Notes(pieces)|
  {
    FinalSections(r.tracks, head, pieces, standardIndex);
    hide FinalFile, Layout, Notes;
  }

  /** The first entry is not taken for an offset from the start of the file. */
  lemma BaseFound(r: Reader, head: seq<Byte>, pieces: seq<Piece>, standardIndex: seq<Byte>)
    requires Reads(r, head, pieces, standardIndex) && Notes(pieces) != []
    ensures Base(r.Entries(), r.dataOffset) == r.dataOffset
  {
    CountFound(r, head, pieces, standardIndex);
    EntryFound(r, head, pieces, standardIndex, 0);
    hide FinalFile, Layout, Notes, Reader.Entries, Reader.EntryCount;
  }

  lemma NoExtra(r: Reader, head: seq<Byte>, pieces: seq<Piece>, standardIndex: seq<Byte>, j: nat)
    requires Reads(r, head, pieces, standardIndex) && j < |Notes(pieces)|
    ensures |r.Entries()| == |Notes(pieces)| && Extra(r.tracks, r.Entries(), j) == 0
  {
    var notes := Notes(pieces);
    assert forall i :: 0 <= i < |notes| ==> notes[i].track < |r.tracks| <= 100;
    hide *;
    CountFound(r, head, pieces, standardIndex);
    if j > 0 {
      EntryFound(r, head, pieces, standardIndex, j - 1);
      WrittenEntry(r.tracks, notes[j - 1], IndexOffset(notes, j - 1));
    }
    ExtraStep(r.tracks, r.Entries(), j);
  }

  lemma ExtraStep(tracks: seq<Track>, entries: seq<Entry>, j: nat)
    requires EntriesOk(entries) && j <= |entries|
    requires j > 0 ==> Timed(tracks, entries[j - 1]) && KindOf(entries[j - 1]) != DD && TrackOk(tracks, entries[j - 1])
    ensures Extra(tracks, entries, j) == 0
  {
    hide Timed, KindOf, TrackOk;
  }

  /** Every entry lies behind the start of the data, at the offset it gives. */
  lemma PositionFound(r: Reader, head: seq<Byte>, pieces: seq<Piece>, standardIndex: seq<Byte>, j: nat)
    requires Reads(r, head, pieces, standardIndex) && j < |Notes(pieces)|
    ensures |r.Entries()| == |Notes(pieces)|
    ensures Position(r.tracks, r.Entries(), r.dataOffset, j) == r.dataOffset + IndexOffset(Notes(pieces),
            j) > r.dataOffset
  {
    BaseFound(r, head, pieces, standardIndex);
    NoExtra(r, head, pieces, standardIndex, j);
    EntryFound(r, head, pieces, standardIndex, j);
    OffsetBound(Notes(pieces), j);
    IndexFits(r, head, pieces, standardIndex);
    assert AsRead(r.tracks, Notes(pieces)[j], IndexOffset(Notes(pieces), j)).offset == IndexOffset(Notes(pieces), j);
    assert r.dataOffset <= |r.file| by {
      FinalSections(r.tracks, head, pieces, standardIndex);
    }
    SmallUnsigned(r.dataOffset + IndexOffset(Notes(pieces), j));
    hide FinalFile, Layout, Notes, IndexOffset, Reader.Entries, Reader.EntryCount, Base, Extra, Unsigned;
  }

  lemma ChunkFound(r: Reader, head: seq<Byte>, pieces: seq<Piece>, standardIndex: seq<Byte>, k: nat)
    requires Reads(r, head, pieces, standardIndex) && k < |pieces|
    ensures var (h, n) := (|head| + 12 + HeaderOffset(pieces, k), Extent(|pieces[k].data|));
            h + n <= |r.file| && r.file[h..h + n] == PieceBytes(r.tracks, pieces[k])
  {
    hide *;
    LayoutIs(r, head, pieces, standardIndex);
    LayoutAt(r.tracks, pieces, k);
    var (o, n) := (HeaderOffset(pieces, k), Extent(|pieces[k].data|));
    SliceOfSlice(r.file, |head| + 12, |head| + 12 + |Layout(r.tracks, pieces)|, o, o + n);
  }

  lemma LayoutIs(r: Reader, head: seq<Byte>, pieces: seq<Piece>, standardIndex: seq<Byte>)
    requires Reads(r, head, pieces, standardIndex)
    ensures r.Valid() && PiecesOk(r.tracks, pieces) && |r.tracks| <= 100
    ensures |head| + 12 + |Layout(r.tracks, pieces)| <= |r.file|
    ensures r.file[|head| + 12..|head| + 12 + |Layout(r.tracks, pieces)|] == Layout(r.tracks, pieces)
    ensures r.dataOffset == |head| + 8
    ensures forall i :: 0 <= i < |pieces| ==> !pieces[i].indexed ==> pieces[i].data == []
  {
    FinalSections(r.tracks, head, pieces, standardIndex);
    hide FinalFile, Layout, Notes, IndexChunk;
  }

  /** The reader gets from the entry of a chunk to its header exactly if no header was left behind in front of it. */
  lemma EntryPointsAtChunk(r: Reader, head: seq<Byte>, pieces: seq<Piece>, standardIndex: seq<Byte>, k: nat)
    requires Reads(r, head, pieces, standardIndex) && k < |pieces| && pieces[k].indexed
    ensures var (j, h) := (|Notes(pieces[..k])|, |head| + 12 + HeaderOffset(pieces, k));
            && j < |r.Entries()| && h + Extent(|pieces[k].data|) <= |r.file|
            && r.file[h..h + Extent(|pieces[k].data|)] == PieceBytes(r.tracks, pieces[k])
            && (Position(r.tracks, r.Entries(), r.dataOffset, j) == h <==> Strays(pieces[..k]) == 0)
  {
    hide *;
    LayoutIs(r, head, pieces, standardIndex);
    IndexPointsAtHeader(pieces, k);
    PositionFound(r, head, pieces, standardIndex, |Notes(pieces[..k])|);
    ChunkFound(r, head, pieces, standardIndex, k);
  }

  /** No entry makes the reader give up. */
  lemma NeverBad(r: Reader, head: seq<Byte>, pieces: seq<Piece>, standardIndex: seq<Byte>, track: nat, time: int)
    requires Reads(r, head, pieces, standardIndex) && track < |r.tracks|
    ensures forall i: nat :: !r.BadAt(track, time, false, i)
  {
    assert r.Valid();
    hide *;
    CountFound(r, head, pieces, standardIndex);
    forall i: nat ensures !r.BadAt(track, time, false, i) {
      if i < |Notes(pieces)| {
        PositionFound(r, head, pieces, standardIndex, i);
      }
      NotBad(r, track, time, i);
    }
  }

  lemma NotBad(r: Reader, track: nat, time: int, i: nat)
    requires r.Valid() && track < |r.tracks| && |r.Entries()| == r.EntryCount()
    requires i < r.EntryCount() ==> Position(r.tracks, r.Entries(), r.dataOffset, i) > r.dataOffset
    ensures !r.BadAt(track, time, false, i)
  {
  }

  /** Which chunk a selected entry stands for. */
  lemma SelectedChunk(r: Reader, head: seq<Byte>, pieces: seq<Piece>, standardIndex: seq<Byte>, track: nat, sel: nat)
    requires Reads(r, head, pieces, standardIndex) && track < |r.tracks| && sel < |Notes(pieces)|
    requires sel < r.EntryCount() && r.KeyEntry(track, sel)
    ensures var k := PieceOf(pieces, sel);
            pieces[k].track == track && (r.tracks[track].Video? ==> pieces[k].key)
  {
    var k := PieceOf(pieces, sel);
    LayoutIs(r, head, pieces, standardIndex);
    IndexPointsAtHeader(pieces, k);
    EntryFound(r, head, pieces, standardIndex, sel);
    WrittenEntry(r.tracks, Notes(pieces)[sel], IndexOffset(Notes(pieces), sel));
    hide FinalFile, Layout, Notes, IndexOffset, Reader.Entries, Reader.EntryCount, TrackOk, Timed, KindOf, Strays,
            HeaderOffset,
         TrackOf, IsKey, AsRead;
  }

  lemma {:induction false} StraysPrefix(pieces: seq<Piece>, k: nat)
    requires k <= |pieces| && Strays(pieces) == 0
    ensures Strays(pieces[..k]) == 0
  {
    if k < |pieces| {
      assert pieces[..|pieces| - 1][..k] == pieces[..k];
      StraysPrefix(pieces[..|pieces| - 1], k);
    } else {
      assert pieces[..k] == pieces;
    }
  }

  /** A run without harm leaves no headers behind, and closing adds none. */
  lemma ClosedStrays(tracks: seq<Track>, packets: seq<Packet>)
    requires ForTracks(tracks, packets) && |tracks| <= 100 && NoHeaderLeft(tracks, packets)
    ensures Strays(Chunks(tracks, packets)) == 0
  {
    RunHarm(tracks, packets);
    RunChunks(tracks, packets);
    hide Chunks;
    var s := Run(tracks, packets);
    hide Run, NoHeaderLeft, Strays;
    if s.open.Some? {
      var o := s.open.value;
      StraysOne(s.pieces, Piece(o.track, o.data, |o.data|, false, true));
    }
  }

  /** The size that the header of the index chunk gives. */
  lemma IndexSizeFound(tracks: seq<Track>, head: seq<Byte>, pieces: seq<Piece>, standardIndex: seq<Byte>, i: nat)
    requires |head| >= 8 && PiecesOk(tracks, pieces) && NotesOk(tracks, Notes(pieces))
    requires i == |head| + 12 + |Layout(tracks, pieces)| + |standardIndex|
    ensures var f := FinalFile(tracks, head, pieces, standardIndex);
            && i + 8 <= |f|
            && (|f| < 0x1_0000_0000 ==> FromLe32(f[i + 4..i + 8]) == 16 * |Notes(pieces)|)
  {
    FinalSections(tracks, head, pieces, standardIndex);
    var n := |Notes(pieces)|;
    var f, c := FinalFile(tracks, head, pieces, standardIndex), IndexChunk(tracks, pieces);
    hide FinalFile, Layout, Notes, IndexBytes, Le32, FromLe32;
    assert f[i + 4..i + 8] == f[i..][4..8] == Le32(16 * n);
    if |f| < 0x1_0000_0000 {
      Le32RoundTrip(16 * n);
    }
  }

  /** The selection of a seek in a written file. */
  lemma SeekLands(r: Reader, head: seq<Byte>, pieces: seq<Piece>, standardIndex: seq<Byte>, track: nat, time: int,
          sel: int)
    requires Reads(r, head, pieces, standardIndex) && track < |r.tracks|
    requires 0 <= sel < r.EntryCount() && r.IsLatest(track, time, sel) && Strays(pieces) == 0
    ensures LandsOn(r, |head| + 12, pieces, track, sel, r.PositionOf(sel))
  {
    hide *;
    CountFound(r, head, pieces, standardIndex);
    LayoutIs(r, head, pieces, standardIndex);
    Selection(r, track, time, sel);
    var k := PieceOf(pieces, sel);
    OnePieceOk(r.tracks, pieces, k);
    SelectedChunk(r, head, pieces, standardIndex, track, sel);
    StraysPrefix(pieces, k);
    EntryPointsAtChunk(r, head, pieces, standardIndex, k);
    Lands(r, |head| + 12, pieces, track, sel, r.PositionOf(sel), k);
  }

  lemma Selection(r: Reader, track: nat, time: int, sel: nat)
    requires r.Valid() && track < |r.tracks| && sel < r.EntryCount() && r.IsLatest(track, time, sel)
    ensures |r.Entries()| == r.EntryCount() && r.KeyEntry(track, sel)
    ensures r.PositionOf(sel) == Position(r.tracks, r.Entries(), r.dataOffset, sel)
  {
    hide Time, Of, IsKey, Position, Base;
  }

  lemma Lands(r: Reader, start: nat, pieces: seq<Piece>, track: nat, sel: nat, pos: nat, k: nat)
    requires track < |r.tracks| && sel < |Notes(pieces)| && k == PieceOf(pieces, sel)
    requires pieces[k].track == track && PieceOk(r.tracks, pieces[k]) && (r.tracks[track].Video? ==> pieces[k].key)
    requires pos == start + HeaderOffset(pieces, k) && pos + Extent(|pieces[k].data|) <= |r.file|
    requires r.file[pos..pos + Extent(|pieces[k].data|)] == PieceBytes(r.tracks, pieces[k])
    ensures LandsOn(r, start, pieces, track, sel, pos)
  {
    hide Notes, PieceOf, HeaderOffset, PieceBytes;
  }

  /** Writes a file and opens it with its legacy index only. */
  method WriteThenOpen(tracks: seq<Track>, times: seq<TimeBase>, sections: seq<seq<Byte>>, packets: seq<Packet>,
                       closing: seq<seq<Byte>>) returns (r: Reader)
    requires |tracks| <= 3 && SectionsOk(tracks, sections) && SameLengths(sections, closing)
    requires packets != [] && ForTracks(tracks, packets) && ChunksFit(tracks, packets)
    requires |times| == |tracks| && forall i :: 0 <= i < |times| ==> times[i].den > 0
    ensures fresh(r) && r.Valid() && |r.chunks| == |tracks| && r.tracks == tracks && r.times == times
    ensures |r.file| < 0x1_0000_0000 ==> ReadsFinished(r, closing, Chunks(tracks, packets))
  {
    hide *;
    SectionCount(tracks, sections, closing);
    ghost var pieces := Chunks(tracks, packets);
    var w, indexOffset := WriteFile(tracks, sections, packets, closing);
    ghost var head := FinalHead(tracks, closing, pieces);
    ghost var standardIndex := Standard(tracks, pieces, |head|);
    FinishedIs(tracks, closing, pieces);
    IndexSizeFound(tracks, head, pieces, standardIndex, indexOffset);
    var indexSize := FromLe32(w.file[indexOffset + 4..indexOffset + 8]);
    var none := seq(|tracks|, _ => 0);
    r := new Reader(w.file, tracks, times, w.dataOffset + 8, indexOffset + 8, indexSize, none, none);
    if |w.file| < 0x1_0000_0000 {
      ReadsWritten(r, head, pieces, standardIndex);
      ReadsIt(r, closing, pieces);
    }
  }

  /** The reader has the finished file of these pieces. */
  ghost predicate ReadsFinished(r: Reader, sections: seq<seq<Byte>>, pieces: seq<Piece>)
  {
    && |r.tracks| <= 100 && |sections| == |r.tracks| + 1 && PiecesOk(r.tracks, pieces)
    && var head := FinalHead(r.tracks, sections, pieces);
    Reads(r, head, pieces, Standard(r.tracks, pieces, |head|))
  }

  lemma ReadsIt(r: Reader, sections: seq<seq<Byte>>, pieces: seq<Piece>)
    requires |r.tracks| <= 100 && |sections| == |r.tracks| + 1 && PiecesOk(r.tracks, pieces)
    requires var head := FinalHead(r.tracks, sections, pieces);
             Reads(r, head, pieces, Standard(r.tracks, pieces, |head|))
    ensures ReadsFinished(r, sections, pieces)
  {
    hide FinalHead, Reads, Standard;
  }

  /** Writing a file and scanning its legacy index, as the reader does for a track without a super index: if no packet
      left a header behind, a backward scan ends at the header of a keyframe chunk of the track, no keyframe of the
      track lies between it and the request in time, and there is such a chunk whenever the track has a keyframe up to
      the request.  The tracks of the file itself have super indexes, and a seek takes those. */
  method WriteThenScanLegacy(tracks: seq<Track>, times: seq<TimeBase>, sections: seq<seq<Byte>>, packets: seq<Packet>,
                             closing: seq<seq<Byte>>, track: nat, time: int)
      returns (pos: nat, newTime: int, r: Reader, ghost sel: int)
    requires |tracks| <= 3 && SectionsOk(tracks, sections) && SameLengths(sections, closing)
    requires packets != [] && ForTracks(tracks, packets) && ChunksFit(tracks, packets)
    requires |times| == |tracks| && (forall i :: 0 <= i < |times| ==> times[i].den > 0) && track < |tracks|
    ensures r.Valid() && r.tracks == tracks
    ensures |r.file| < 0x1_0000_0000 ==>
              var (pieces, d) := (Chunks(tracks, packets), 12 + HeaderLength(closing, |tracks|));
              && ReadsFinished(r, closing, pieces)
              && -1 <= sel < r.EntryCount() && pos == r.PositionOf(sel) && r.IsLatest(track, time, sel)
              && r.ByRate(track, time, false, sel, newTime) && KeyframesEnd(tracks, packets)
              && (sel >= 0 && NoHeaderLeft(tracks, packets) ==> LandsOn(r, d + 12, pieces, track, sel, pos))
  {
    hide *;
    r := WriteThenOpen(tracks, times, sections, packets, closing);
    assert track < |r.times| && r.times[track].den > 0;
    r.chunks := r.chunks[track := CLEARED.(time := times[track].start)];
    pos, newTime, sel := 0, 0, -1;
    if |r.file| < 0x1_0000_0000 {
      ghost var pieces := Chunks(tracks, packets);
      ghost var head := ReadsHead(r, closing, pieces);
      ghost var standardIndex := Standard(tracks, pieces, |head|);
      NeverBad(r, head, pieces, standardIndex, track, time);
      AllKeyframesEnd(tracks, packets);
      var status;
      status, pos, newTime, sel := r.ScanLegacyIndex(track, time, false);
      if sel >= 0 && NoHeaderLeft(tracks, packets) {
        ClosedStrays(tracks, packets);
        SeekLands(r, head, pieces, standardIndex, track, time, sel);
      }
    }
  }

  lemma ReadsHead(r: Reader, sections: seq<seq<Byte>>, pieces: seq<Piece>) returns (head: seq<Byte>)
    requires ReadsFinished(r, sections, pieces)
    ensures |head| == 12 + HeaderLength(sections, |r.tracks|)
    ensures |r.tracks| <= 100 && Reads(r, head, pieces, Standard(r.tracks, pieces, |head|))
  {
    hide FinalHead, Reads, Standard, HeaderLength;
    head := FinalHead(r.tracks, sections, pieces);
  }

  lemma SectionCount(tracks: seq<Track>, sections: seq<seq<Byte>>, closing: seq<seq<Byte>>)
    requires SectionsOk(tracks, sections) && SameLengths(sections, closing)
    ensures |closing| == |tracks| + 1
  {
  }

  lemma FinishedIs(tracks: seq<Track>, sections: seq<seq<Byte>>, pieces: seq<Piece>)
    requires |sections| == |tracks| + 1 && PiecesOk(tracks, pieces) && NotesOk(tracks, Notes(pieces))
    ensures var head := FinalHead(tracks, sections, pieces);
            && |head| == 12 + HeaderLength(sections, |tracks|)
            && Finished(tracks, sections, pieces)
               == FinalFile(tracks, head, pieces, Standard(tracks, pieces, |head|))
  {
    hide FinalHead, FinalFile, HeaderLength;
  }

  /** The position is that of the header of the chunk that entry sel stands for, a keyframe of the track. */
  ghost predicate LandsOn(r: Reader, start: nat, pieces: seq<Piece>, track: nat, sel: nat, pos: nat)
    requires track < |r.tracks|
  {
    && sel < |Notes(pieces)|
    && var k := PieceOf(pieces, sel);
    && pieces[k].track == track && PieceOk(r.tracks, pieces[k]) && (r.tracks[track].Video? ==> pieces[k].key)
    && pos == start + HeaderOffset(pieces, k) && pos + Extent(|pieces[k].data|) <= |r.file|
    && r.file[pos..pos + Extent(|pieces[k].data|)] == PieceBytes(r.tracks, pieces[k])
  }

  lemma ReadsWritten(r: Reader, head: seq<Byte>, pieces: seq<Piece>, standardIndex: seq<Byte>)
    requires r.Valid() && |r.tracks| <= 100 && |head| >= 8 && PiecesOk(r.tracks, pieces)
            && NotesOk(r.tracks, Notes(pieces))
    requires r.file == FinalFile(r.tracks, head, pieces, standardIndex) && |r.file| < 0x1_0000_0000
    requires r.dataOffset == |head| + 8 && r.indexSize == 16 * |Notes(pieces)|
    requires r.indexOffset == |head| + 12 + |Layout(r.tracks, pieces)| + |standardIndex| + 8
    ensures Reads(r, head, pieces, standardIndex)
  {
  }
}
