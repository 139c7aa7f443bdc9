/** The chunk bookkeeping, the indexes and the header list of containers/avi/avi_writer.c, on a seekable output. */
module AviWriter {
  import opened Common
  import opened AviFormat
  import opened AviChunks
  import opened AviOpenDml

  const LIST: seq<Byte> := [0x4C, 0x49, 0x53, 0x54]
  const MOVI: seq<Byte> := [0x6D, 0x6F, 0x76, 0x69]
  const IDX1: seq<Byte> := [0x69, 0x64, 0x78, 0x31]

  /** The header of the list of data chunks. */
  function ListHeader(size: nat): (s: seq<Byte>)
    ensures |s| == 12
  {
    LIST + Le32(size) + MOVI
  }

  /** An entry of the temporary index: the track and, in big-endian order, the size with the delta frame bit. */
  function NoteBytes(n: Noted): (s: seq<Byte>)
    requires n.track < 256
    ensures |s| == 5
  {
    [n.track] + Be32(Word(n))
  }

  ghost predicate NotesOk(tracks: seq<Track>, notes: seq<Noted>)
  {
    |tracks| <= 100 && forall i :: 0 <= i < |notes| ==> notes[i].track < |tracks| && notes[i].size < DELTAFRAME
  }

  function TempBytes(notes: seq<Noted>): (s: seq<Byte>)
    requires forall i :: 0 <= i < |notes| ==> notes[i].track < 256
    ensures |s| == 5 * |notes|
  {
    if notes == [] then [] else TempBytes(notes[..|notes| - 1]) + NoteBytes(notes[|notes| - 1])
  }

  /** The index entry for a chunk: its id, flags, offset and size. */
  function EntryBytes(tracks: seq<Track>, n: Noted, offset: nat): (s: seq<Byte>)
    requires n.track < |tracks| <= 100
    ensures |s| == 16
  {
    ChunkId(tracks, n.track) + Le32(if n.key then AVIIF_KEYFRAME else 0) + Le32(offset) + Le32(n.size)
  }

  /** The first j entries of the legacy index. */
  function IndexBytes(tracks: seq<Track>, notes: seq<Noted>, j: nat): (s: seq<Byte>)
    requires NotesOk(tracks, notes) && j <= |notes|
    ensures |s| == 16 * j
  {
    if j == 0 then []
    else IndexBytes(tracks, notes, j - 1) + EntryBytes(tracks, notes[j - 1], IndexOffset(notes, j - 1))
  }

  /** Reading an entry of the temporary index back gives what was noted. */
  lemma NoteRoundTrip(n: Noted)
    requires n.track < 256 && n.size < DELTAFRAME
    ensures var v := FromBe32(NoteBytes(n)[1..5]);
            && NoteBytes(n)[0] == n.track && v == Word(n)
            && v % DELTAFRAME == n.size && (v / DELTAFRAME % 2 == 0 <==> n.key)
  {
    assert NoteBytes(n)[1..5] == Be32(Word(n));
    Be32RoundTrip(Word(n));
  }

  lemma {:induction false} TempSlice(notes: seq<Noted>, j: nat)
    requires j < |notes| && forall i :: 0 <= i < |notes| ==> notes[i].track < 256
    ensures TempBytes(notes)[5 * j..5 * j + 5] == NoteBytes(notes[j])
  {
    hide NoteBytes;
    if j < |notes| - 1 {
      TempSlice(notes[..|notes| - 1], j);
    }
  }

  function Sum(s: seq<nat>): nat
  {
    if s == [] then 0 else Sum(s[..|s| - 1]) + s[|s| - 1]
  }

  lemma {:induction false} SumIncrement(s: seq<nat>, t: nat)
    requires t < |s|
    ensures Sum(s[t := s[t] + 1]) == Sum(s) + 1
  {
    var u := s[t := s[t] + 1];
    if t == |s| - 1 {
      assert u[..|u| - 1] == s[..|s| - 1];
    } else {
      assert u[..|u| - 1] == s[..|s| - 1][t := s[t] + 1];
      SumIncrement(s[..|s| - 1], t);
    }
  }

  function OpenBytes(tracks: seq<Track>, o: Option<Open>): seq<Byte>
    requires o.Some? ==> o.value.track < |tracks| && o.value.track < 100
  {
    if o.Some? then Header(tracks, o.value.track, o.value.sizeField) + o.value.data else []
  }

  lemma {:induction false} LayoutLength(tracks: seq<Track>, pieces: seq<Piece>)
    requires PiecesOk(tracks, pieces)
    ensures |Layout(tracks, pieces)| == HeaderOffset(pieces, |pieces|) && |Layout(tracks, pieces)| % 2 == 0
  {
    hide PieceBytes, Extent, PieceOk;
    EvenOffset(pieces, |pieces|);
    if pieces != [] {
      LayoutLength(tracks, pieces[..|pieces| - 1]);
      HeaderOffsetPrefix(pieces, |pieces| - 1);
    }
  }

  lemma {:induction false} EvenOffset(pieces: seq<Piece>, k: nat)
    requires k <= |pieces|
    ensures HeaderOffset(pieces, k) % 2 == 0
  {
    if k > 0 {
      EvenOffset(pieces, k - 1);
      EvenExtent(|pieces[k - 1].data|);
      hide Extent;
    }
  }

  lemma EvenExtent(n: nat)
    ensures Extent(n) % 2 == 0
  {
  }

  lemma LayoutOne(tracks: seq<Track>, pieces: seq<Piece>, p: Piece)
    requires PiecesOk(tracks, pieces) && PieceOk(tracks, p)
    ensures PiecesOk(tracks, pieces + [p])
    ensures Layout(tracks, pieces + [p]) == Layout(tracks, pieces) + PieceBytes(tracks, p)
    ensures Notes(pieces + [p]) == Notes(pieces) + if p.indexed then [Noted(p.track, |p.data|, p.key)] else []
  {
    hide PieceBytes;
    assert (pieces + [p])[..|pieces + [p]| - 1] == pieces;
  }

  /** The header of piece k stands where HeaderOffset says, with its data behind it. */
  lemma {:induction false} LayoutAt(tracks: seq<Track>, pieces: seq<Piece>, k: nat)
    requires PiecesOk(tracks, pieces) && k < |pieces|
    ensures var (h, n) := (HeaderOffset(pieces, k), |pieces[k].data|);
            && h + Extent(n) <= |Layout(tracks, pieces)|
            && Layout(tracks, pieces)[h..h + Extent(n)] == PieceBytes(tracks, pieces[k])
  {
    hide PieceBytes, Extent;
    var init := pieces[..|pieces| - 1];
    LayoutLength(tracks, init);
    HeaderOffsetPrefix(pieces, |pieces| - 1);
    if k < |init| {
      LayoutAt(tracks, init, k);
      HeaderOffsetUpTo(pieces, k, |init|);
    }
  }

  lemma AppendSplice(f: seq<Byte>, d: seq<Byte>)
    ensures Splice(f, |f|, d) == f + d
  {
  }

  /** Rewriting the four bytes in front of the data at the end of the file. */
  lemma PatchSplice(a: seq<Byte>, b: seq<Byte>, c: seq<Byte>, d: seq<Byte>)
    requires |b| == |d|
    ensures Splice(a + b + c, |a|, d) == a + d + c
  {
  }

  class Writer {
    const tracks: seq<Track>
    var file: seq<Byte>
    var position: nat
    var temp: seq<Byte>
    var dataOffset: nat
    var currentTrack: nat
    var chunkSize: nat
    var chunkDataWritten: nat
    var chunkIndex: seq<nat>
    var chunkOffs: seq<nat>
    var trackIndexOffset: seq<nat>
    var trackIndexSize: seq<nat>

    ghost var head: seq<Byte>
    ghost var progress: Progress

    /** Everything in front of the data chunks. */
    ghost function Front(): seq<Byte>
      reads `head, `dataOffset
    {
      head + if dataOffset == 0 then [] else ListHeader(0)
    }

    ghost predicate TracksOk()
      reads this`chunkIndex, this`chunkOffs, this`head, this`dataOffset, this`progress
    {
      && |tracks| <= 3 && |chunkIndex| == |chunkOffs| == |tracks|
      && |head| >= 12 && |head| % 2 == 0 && head[..12] == RiffHeader(0) && (dataOffset != 0 ==> dataOffset == |head|)
      && ProgressOk(tracks, progress) && NotesOk(tracks, Notes(progress.pieces))
    }

    /** The counters describe the open chunk. */
    ghost predicate OpenOk()
      reads this
    {
      && (chunkDataWritten == 0 <==> progress.open.None?)
      && (progress.open.Some? ==>
            var o := progress.open.value;
            && dataOffset != 0 && o.track == currentTrack && |o.data| == chunkDataWritten < DELTAFRAME
            && (o.announced <==> chunkSize != 0) && (o.announced ==> o.sizeField == chunkSize))
    }

    /** The temporary index lists the finished chunks, and each track has its number of them and their size. */
    ghost predicate IndexOk()
      requires TracksOk()
      reads this`chunkIndex, this`chunkOffs, this`head, this`dataOffset, this`progress, this`temp
    {
      && temp == TempBytes(Notes(progress.pieces)) && Sum(chunkIndex) == |Notes(progress.pieces)|
      && forall t :: 0 <= t < |tracks| ==>
           var own := Own(Notes(progress.pieces), t);
           chunkIndex[t] == |own| && chunkOffs[t] == TotalSize(own)
    }

    ghost predicate FileOk()
      requires TracksOk()
      reads this
    {
      && position == |file| && (dataOffset == 0 ==> progress.pieces == [])
      && file == Front() + Layout(tracks, progress.pieces) + OpenBytes(tracks, progress.open)
    }

    ghost predicate Valid()
      reads this
    {
      TracksOk() && OpenOk() && IndexOk() && FileOk() && SupersOk()
    }

    /** Opens the file: the first twelve bytes and the header list, in which the super indexes pass for junk. */
    constructor (tracks: seq<Track>, sections: seq<seq<Byte>>)
      requires |tracks| <= 3 && SectionsOk(tracks, sections)
      ensures Valid() && this.tracks == tracks && progress == Progress([], None) && dataOffset == 0
      ensures head == RiffHeader(0) + HeaderList(tracks, sections, NoSupers(tracks), |tracks|)
      ensures |head| == 12 + HeaderLength(sections, |tracks|)
    {
      this.tracks := tracks;
      file, position, temp, head := [], 0, [], [];
      dataOffset, currentTrack, chunkSize, chunkDataWritten := 0, 0, 0, 0;
      chunkIndex, chunkOffs := seq(|tracks|, _ => 0), seq(|tracks|, _ => 0);
      trackIndexOffset, trackIndexSize := seq(|tracks|, _ => 0), seq(|tracks|, _ => 0);
      progress := Progress([], None);
      new;
      hide *;
      WriteHeaders(sections);
    }

    /** Writes the headers of a new file. */
    method WriteHeaders(sections: seq<seq<Byte>>)
      requires |tracks| <= 3 && SectionsOk(tracks, sections) && file == temp == [] && position == 0
      requires dataOffset == chunkDataWritten == 0 && progress == Progress([], None)
      requires chunkIndex == chunkOffs == trackIndexOffset == trackIndexSize == seq(|tracks|, _ => 0)
      modifies this`file, this`position, this`head
      ensures Valid() && |head| == 12 + HeaderLength(sections, |tracks|)
      ensures head == RiffHeader(0) + HeaderList(tracks, sections, NoSupers(tracks), |tracks|)
    {
      assert |sections| == |tracks| + 1;
      hide *;
      ghost var list := HeaderList(tracks, sections, NoSupers(tracks), |tracks|);
      HeaderListLength(tracks, sections, NoSupers(tracks), |tracks|);
      EvenHeaderLength(tracks, sections, |tracks|);
      Put(RiffHeader(0));
      NoSupersYet();
      AppendSplice(file, list);
      PutHeaderList(sections);
      head := file;
      BeginValid(list);
    }

    lemma NoSupersYet()
      requires chunkIndex == chunkOffs == trackIndexOffset == trackIndexSize == seq(|tracks|, _ => 0)
      ensures SupersOk() && CurrentSupers() == NoSupers(tracks)
    {
    }

    lemma BeginValid(list: seq<Byte>)
      requires |tracks| <= 3 && SupersOk() && file == head == RiffHeader(0) + list && position == |file|
      requires |list| % 2 == 0 && temp == [] && dataOffset == 0 && chunkDataWritten == 0
      requires progress == Progress([], None) && chunkIndex == chunkOffs == seq(|tracks|, _ => 0)
      ensures Valid()
    {
      hide RiffHeader;
      SumZeros(|tracks|);
    }

    ghost predicate SupersOk()
      reads this`trackIndexOffset, this`trackIndexSize
    {
      |trackIndexOffset| == |trackIndexSize| == |tracks|
    }

    /** What is known of each track's indexes. */
    ghost function CurrentSupers(): (s: seq<Super>)
      requires |tracks| == |chunkIndex| == |chunkOffs| && SupersOk()
      reads this`chunkIndex, this`chunkOffs, this`trackIndexOffset, this`trackIndexSize
      ensures |s| == |tracks|
    {
      TrackSupers(tracks, trackIndexOffset, trackIndexSize, chunkIndex, chunkOffs)
    }

    /** Writes the header list where the file stands, over an older one or at the end. */
    method PutHeaderList(sections: seq<seq<Byte>>)
      requires |tracks| == |chunkIndex| == |chunkOffs| <= 100 && SupersOk() && |sections| == |tracks| + 1
      modifies this`file, this`position
      ensures var h := HeaderList(tracks, sections, CurrentSupers(), |tracks|);
              file == Splice(old(file), old(position), h) && position == old(position) + |h|
    {
      hide Splice, SuperChunk;
      Put(sections[0]);
      var i := 0;
      while i < |tracks|
        invariant i <= |tracks|
        invariant var h := HeaderList(tracks, sections, CurrentSupers(), i);
                  file == Splice(old(file), old(position), h) && position == old(position) + |h|
      {
        ghost var h := HeaderList(tracks, sections, CurrentSupers(), i);
        var duration := if tracks[i] == Audio(true) then chunkOffs[i] else chunkIndex[i];
        var super := SuperChunk(tracks, i, Super(trackIndexOffset[i], trackIndexSize[i], duration));
        SpliceMore(old(file), old(position), h, sections[i + 1]);
        Put(sections[i + 1]);
        SpliceMore(old(file), old(position), h + sections[i + 1], super);
        Put(super);
        i := i + 1;
      }
    }

    method Put(data: seq<Byte>)
      modifies this`file, this`position
      ensures position == old(position) + |data| && file == Splice(old(file), old(position), data)
      ensures old(position) == |old(file)| ==> file == old(file) + data && position == |file|
    {
      AppendSplice(file, data);
      file := Splice(file, position, data);
      position := position + |data|;
    }

    method EndChunk()
      requires position == |file|
      modifies this`file, this`position
      ensures file == old(file) + Padding(old(position)) && position == |file|
    {
      if position % 2 == 1 {
        Put([0]);
      }
    }

    /** Ends the chunk whose data stands at the end of the file, correcting its size field if a size is given. */
    method FinishDataChunk(size: nat, ghost before: seq<Byte>, ghost field: seq<Byte>, ghost data: seq<Byte>)
      requires position == |file| && file == before + field + data && |field| == 4 && (size == 0 || size == |data|)
      modifies this`file, this`position
      ensures position == |file|
      ensures file == before + (if size == 0 then field else Le32(size)) + data + Padding(old(position))
    {
      if size != 0 {
        PatchSplice(before, field, data, Le32(size));
        position := position - size - 4;
        Put(Le32(size));
        position := position + size;
      }
      EndChunk();
    }

    method WriteIndexEntry(track: nat, size: nat, key: bool)
      requires track < 256 && size < DELTAFRAME
      modifies this`temp
      ensures temp == old(temp) + NoteBytes(Noted(track, size, key))
    {
      temp := temp + [track];
      temp := temp + Be32(size + if key then 0 else DELTAFRAME);
      ConcatAssoc(old(temp), [track], Be32(size + if key then 0 else DELTAFRAME));
    }

    /** Notes the chunk that just ended and forgets it. */
    method NoteChunk(track: nat, key: bool, ghost piece: Piece)
      requires TracksOk() && IndexOk() && track < |tracks| && chunkDataWritten < DELTAFRAME
      requires piece.track == track && |piece.data| == chunkDataWritten && piece.key == key && piece.indexed
      modifies this`temp, this`chunkIndex, this`chunkOffs, this`chunkDataWritten, this`progress
      ensures TracksOk() && IndexOk() && chunkDataWritten == 0
      ensures progress == Progress(old(progress.pieces) + [piece], None)
      ensures Layout(tracks, progress.pieces) == old(Layout(tracks, progress.pieces)) + PieceBytes(tracks, piece)
    {
      hide Layout, PieceBytes, Sum, TempBytes, NoteBytes, Notes, Own, TotalSize;
      ghost var note := Noted(track, chunkDataWritten, key);
      LayoutOne(tracks, progress.pieces, piece);
      forall t | 0 <= t < |tracks|
        ensures Own(Notes(progress.pieces + [piece]), t)
                == if t == track then Own(Notes(progress.pieces), t) + [note] else Own(Notes(progress.pieces), t)
      {
        OwnOne(Notes(progress.pieces), note, t);
      }
      TotalOne(Own(Notes(progress.pieces), track), note);
      TempOne(Notes(progress.pieces), note);
      WriteIndexEntry(track, chunkDataWritten, key);
      SumIncrement(chunkIndex, track);
      chunkIndex := chunkIndex[track := chunkIndex[track] + 1];
      chunkOffs := chunkOffs[track := chunkOffs[track] + chunkDataWritten];
      chunkDataWritten := 0;
      progress := Progress(progress.pieces + [piece], None);
    }

    /** Ends the open chunk because another track goes on, or because the file is closed. */
    method CutChunk()
      requires Valid() && chunkDataWritten > 0
      modifies this`file, this`position, this`temp, this`chunkIndex, this`chunkOffs, this`chunkDataWritten,
               this`progress
      ensures Valid() && progress == Cut(old(progress))
    {
      hide Writer.IndexOk, Layout, PieceBytes, Notes, TempBytes, Sum, ChunkId, Le32, HeaderOffset;
      ghost var o := progress.open.value;
      ghost var base := Front() + Layout(tracks, progress.pieces);
      OpenSplit(tracks, o, base);
      LayoutLength(tracks, progress.pieces);
      FinishDataChunk(chunkDataWritten, base + ChunkId(tracks, o.track), Le32(o.sizeField), o.data);
      ghost var piece := Piece(o.track, o.data, |o.data|, false, true);
      PieceJoin(tracks, piece, base, old(position));
      NoteChunk(currentTrack, false, piece);
      ConcatAssoc(Front(), old(Layout(tracks, progress.pieces)), PieceBytes(tracks, piece));
    }

    /** What is known between adding a packet's data to its chunk and deciding whether the chunk ends. */
    ghost predicate Pending(o: Open)
      reads this
    {
      && TracksOk() && IndexOk() && SupersOk() && dataOffset != 0 && o.track < |tracks| && o.track == currentTrack
      && |o.data| == chunkDataWritten < DELTAFRAME
      && (o.announced <==> chunkSize != 0) && (o.announced ==> o.sizeField == chunkSize)
      && position == |file|
      && file == (Front() + Layout(tracks, progress.pieces)) + OpenBytes(tracks, Some(o))
    }

    /** Writes the header and the first data of a chunk. */
    method BeginChunk(p: Packet)
      requires Valid() && dataOffset != 0 && chunkDataWritten == 0
      requires p.track < |tracks| && |p.data| < DELTAFRAME
      modifies this`file, this`position, this`currentTrack, this`chunkSize, this`chunkDataWritten
      ensures Pending(Extended(progress, p))
    {
      hide Writer.IndexOk, Layout, Notes, TempBytes, Sum, Header;
      var size;
      currentTrack := p.track;
      if p.frameSize != 0 {
        size := p.frameSize;
        chunkSize := p.frameSize;
      } else {
        size := |p.data|;
        chunkSize := 0;
      }
      ghost var base := Front() + Layout(tracks, progress.pieces);
      assert file == base;
      Put(Header(tracks, p.track, size));
      Put(p.data);
      chunkDataWritten := |p.data|;
      assert Extended(progress, p).data == p.data;
      ConcatAssoc(base, Header(tracks, p.track, size), p.data);
    }

    /** Adds data to the open chunk. */
    method ContinueChunk(p: Packet)
      requires Valid() && progress.open.Some? && progress.open.value.track == p.track
      requires chunkDataWritten + |p.data| < DELTAFRAME
      modifies this`file, this`position, this`currentTrack, this`chunkDataWritten
      ensures Pending(Extended(progress, p))
    {
      hide Writer.IndexOk, Layout, Notes, TempBytes, Sum, Header;
      currentTrack := p.track;
      ghost var o := progress.open.value;
      ghost var base := Front() + Layout(tracks, progress.pieces);
      ghost var header := Header(tracks, o.track, o.sizeField);
      assert file == base + (header + o.data);
      Put(p.data);
      ConcatAssoc(base, header + o.data, p.data);
      ConcatAssoc(header, o.data, p.data);
      chunkDataWritten := chunkDataWritten + |p.data|;
    }

    /** Corrects the size of the chunk if need be, and pads it. */
    method SealChunk(p: Packet, ghost o: Open, ghost piece: Piece)
      requires Pending(o) && p.track == o.track
      requires o.announced || chunkDataWritten > |p.data| || o.sizeField == |o.data|
      requires PieceOk(tracks, piece) && piece.track == o.track && piece.data == o.data
              && piece.sizeField == FinalSize(o)
      modifies this`file, this`position
      ensures position == |file|
      ensures file == (Front() + Layout(tracks, progress.pieces)) + PieceBytes(tracks, piece)
    {
      hide Writer.IndexOk, Layout, PieceBytes, Notes, ChunkId, Le32;
      ghost var base := Front() + Layout(tracks, progress.pieces);
      OpenSplit(tracks, o, base);
      LayoutLength(tracks, progress.pieces);
      if chunkSize == 0 && chunkDataWritten > |p.data| {
        FinishDataChunk(chunkDataWritten, base + ChunkId(tracks, o.track), Le32(o.sizeField), o.data);
      } else {
        FinishDataChunk(0, base + ChunkId(tracks, o.track), Le32(o.sizeField), o.data);
      }
      PieceJoin(tracks, piece, base, old(position));
    }

    /** Ends the chunk of the packet itself. */
    method EndOwnChunk(p: Packet, ghost o: Open)
      requires Pending(o) && p.track == o.track
      requires o.announced || chunkDataWritten > |p.data| || o.sizeField == |o.data|
      modifies this`file, this`position, this`temp, this`chunkIndex, this`chunkOffs, this`chunkDataWritten,
               this`progress
      ensures Valid() && dataOffset == old(dataOffset)
      ensures progress == Progress(old(progress.pieces) + [Ended(o, p)], None)
    {
      hide Writer.IndexOk, Layout, PieceBytes, Notes;
      ghost var piece := Ended(o, p);
      SealChunk(p, o, piece);
      NoteChunk(p.track, p.keyframe && p.frameEnd, piece);
      ConcatAssoc(Front(), old(Layout(tracks, progress.pieces)), PieceBytes(tracks, piece));
    }

    /** Adds the packet to the chunk of its track. */
    method GrowChunk(p: Packet)
      requires Valid() && dataOffset != 0 && p.track < |tracks|
      requires progress.open.Some? ==> progress.open.value.track == p.track
      requires chunkDataWritten + |p.data| < DELTAFRAME
      modifies this`file, this`position, this`currentTrack, this`chunkSize, this`chunkDataWritten, this`temp,
               this`chunkIndex, this`chunkOffs, this`progress
      ensures Valid() && progress == Grow(tracks, old(progress), p)
    {
      hide Writer.IndexOk, Layout, PieceBytes, Notes, TempBytes, Sum, OpenBytes;
      ghost var o := Extended(progress, p);
      if chunkDataWritten == 0 {
        BeginChunk(p);
      } else {
        ContinueChunk(p);
      }
      if p.frameEnd || (tracks[p.track] == Audio(true) && chunkDataWritten > AUDIO_LIMIT) {
        EndOwnChunk(p, o);
      } else {
        Settle(o);
      }
    }

    /** What an unended chunk is to the writer: open if it has data, a header left behind otherwise. */
    ghost method Settle(o: Open)
      requires Pending(o)
      modifies this`progress
      ensures Valid()
      ensures progress == if o.data == [] then Progress(old(progress.pieces) + [LeftBehind(o)], None)
                          else Progress(old(progress.pieces), Some(o))
    {
      hide Layout, Notes, TempBytes, Sum, Header;
      if o.data == [] {
        ghost var piece := LeftBehind(o);
        LayoutOne(tracks, progress.pieces, piece);
        assert PieceBytes(tracks, piece) == OpenBytes(tracks, Some(o));
        assert file == Front() + Layout(tracks, progress.pieces + [piece]) + [];
        ConcatAssoc(Front(), Layout(tracks, progress.pieces), PieceBytes(tracks, piece));
        assert Notes(progress.pieces + [piece]) == Notes(progress.pieces);
        progress := Progress(progress.pieces + [piece], None);
      } else {
        progress := Progress(progress.pieces, Some(o));
      }
    }

    /** Starts the list of data chunks. */
    method StartList()
      requires Valid() && dataOffset == 0
      modifies this`file, this`position, this`dataOffset
      ensures Valid() && dataOffset != 0
    {
      hide Notes, TempBytes, Sum;
      assert file == head;
      dataOffset := position;
      Put(LIST);
      Put(Le32(0));
      Put(MOVI);
      assert file == head + ListHeader(0);
    }

    /** Writes a packet. */
    method Write(p: Packet)
      requires Valid() && p.track < |tracks| && Fits(progress, p)
      modifies this
      ensures Valid() && head == old(head) && dataOffset != 0
      ensures progress == Step(tracks, old(progress), p)
    {
      hide Writer.TracksOk, Writer.IndexOk, Writer.FileOk;
      if dataOffset == 0 {
        StartList();
      }
      if chunkDataWritten > 0 && p.track != currentTrack {
        CutChunk();
      }
      GrowChunk(p);
    }

    /** The number of finished chunks of all tracks. */
    method NumChunks() returns (n: nat)
      requires TracksOk() && IndexOk()
      ensures n == |Notes(progress.pieces)|
    {
      n := 0;
      var i := 0;
      while i < |tracks|
        invariant i <= |tracks| == |chunkIndex| && n == Sum(chunkIndex[..i])
      {
        assert chunkIndex[..i + 1][..i] == chunkIndex[..i];
        n := n + chunkIndex[i];
        i := i + 1;
      }
      assert chunkIndex[..i] == chunkIndex;
    }

    /** Reads an entry of the temporary index: its track, which always exists, and its size with the delta frame bit. */
    method ReadNote(at: nat, ghost notes: seq<Noted>, ghost j: nat) returns (track: nat, word: nat)
      requires NotesOk(tracks, notes) && j < |notes| && at == 5 * j && temp == TempBytes(notes)
      ensures at + 5 <= |temp| && track == notes[j].track < |tracks| && word == Word(notes[j])
      ensures word % DELTAFRAME == notes[j].size && (word / DELTAFRAME % 2 == 0 <==> notes[j].key)
    {
      hide TempBytes, NoteBytes, FromBe32;
      TempSlice(notes, j);
      NoteRoundTrip(notes[j]);
      SliceOfSlice(temp, at, at + 5, 1, 5);
      track := temp[at];
      assert track == temp[at..at + 5][0];
      word := FromBe32(temp[at + 1..at + 5]);
    }

    /** Writes the legacy index from the temporary one. */
    method WriteLegacyIndexChunk(size: nat)
      requires TracksOk() && IndexOk() && position == |file| && position % 2 == 0
      modifies this`file, this`position
      ensures position == |file|
      ensures var notes := Notes(progress.pieces);
              file == old(file) + (IDX1 + Le32(size)) + IndexBytes(tracks, notes, |notes|)
    {
      hide Notes, Sum, TempBytes, IndexBytes, EntryBytes, Extent;
      ghost var notes := Notes(progress.pieces);
      Put(IDX1);
      Put(Le32(size));
      ghost var base := old(file) + (IDX1 + Le32(size));
      ConcatAssoc(old(file), IDX1, Le32(size));
      var at, chunkOffset := 0, 4;
      ghost var j := 0;
      IndexStart(tracks, notes);
      assert base + [] == base;
      while at + 5 <= |temp|
        invariant j <= |notes| && at == 5 * j && chunkOffset == IndexOffset(notes, j)
        invariant position == |file| && file == base + IndexBytes(tracks, notes, j)
        decreases |temp| - at
      {
        var track, word := ReadNote(at, notes, j);
        at := at + 5;
        var key := word / DELTAFRAME % 2 == 0;
        var dataSize := word % DELTAFRAME;
        PutEntry(Noted(track, dataSize, key), chunkOffset);
        IndexStep(tracks, notes, j);
        ConcatAssoc(base, IndexBytes(tracks, notes, j), EntryBytes(tracks, notes[j], chunkOffset));
        chunkOffset := chunkOffset + (dataSize + 1) / 2 * 2 + 8;
        j := j + 1;
      }
      assert j == |notes|;
      assert position % 2 == 0;
      ghost var full := file;
      EndChunk();
      assert full + [] == full;
    }

    method PutEntry(n: Noted, offset: nat)
      requires n.track < |tracks| <= 100 && position == |file|
      modifies this`file, this`position
      ensures position == |file| && file == old(file) + EntryBytes(tracks, n, offset)
    {
      hide ChunkId, Le32;
      Put(ChunkId(tracks, n.track));
      Put(Le32(if n.key then AVIIF_KEYFRAME else 0));
      Put(Le32(offset));
      Put(Le32(n.size));
    }

    /** Writes the standard index of a track from the temporary index. */
    method WriteStandardIndexChunk(t: nat, size: nat)
      requires TracksOk() && IndexOk() && SupersOk() && position == |file| && position % 2 == 0 && t < |tracks|
      requires size == 24 + 8 * chunkIndex[t]
      modifies this`file, this`position, this`trackIndexOffset, this`trackIndexSize
      ensures SupersOk() && position == |file|
      ensures file == old(file) + StandardChunk(tracks, Notes(progress.pieces), t, dataOffset + 12)
      ensures trackIndexOffset == old(trackIndexOffset)[t := old(position)]
      ensures trackIndexSize == old(trackIndexSize)[t := size - 8]
    {
      hide Notes, Sum, TempBytes, StandardHead, StandardEntries, StandardEntry, StandardStep, Own, OwnOffset;
      ghost var notes := Notes(progress.pieces);
      trackIndexOffset := trackIndexOffset[t := position];
      trackIndexSize := trackIndexSize[t := if size != 0 then size - 8 else 0];
      Put(StandardHead(tracks, t, size, chunkIndex[t], dataOffset + 12));
      ghost var base := file;
      var at, chunkOffset := 0, 4;
      ghost var j := 0;
      NoneOwn(notes, t);
      assert base + [] == base;
      while at + 5 <= |temp|
        invariant j <= |notes| && at == 5 * j
        invariant var own := Own(notes[..j], t);
                  chunkOffset == OwnOffset(own, |own|) && file == base + StandardEntries(own)
        invariant position == |file|
        decreases |temp| - at
        modifies this`file, this`position
      {
        var track, word := ReadNote(at, notes, j);
        at := at + 5;
        OwnStep(notes, j, t);
        if track == t {
          ghost var own := Own(notes[..j], t);
          EntriesOne(own, notes[j]);
          PutStandardEntry(notes[j], chunkOffset, word);
          ConcatAssoc(base, StandardEntries(own), StandardEntry(notes[j], chunkOffset));
          chunkOffset := chunkOffset + StandardStep(word);
        }
        j := j + 1;
      }
      assert notes[..j] == notes;
      ConcatAssoc(old(file), StandardHead(tracks, t, size, chunkIndex[t], dataOffset + 12),
                  StandardEntries(Own(notes, t)));
      ghost var full := file;
      EndChunk();
      assert full + [] == full;
    }

    method PutStandardEntry(ghost n: Noted, offset: nat, word: nat)
      requires position == |file| && word == Word(n)
      modifies this`file, this`position
      ensures position == |file| && file == old(file) + StandardEntry(n, offset)
    {
      hide Le32;
      Put(Le32(offset));
      Put(Le32(word));
    }

    /** The standard index of a track, with its size, and what its super index will say of it. */
    method WriteIndexOf(t: nat)
      requires TracksOk() && IndexOk() && SupersOk() && position == |file| && position % 2 == 0 && t < |tracks|
      modifies this`file, this`position, this`trackIndexOffset, this`trackIndexSize
      ensures SupersOk() && position == |file|
      ensures file == old(file) + StandardChunk(tracks, Notes(progress.pieces), t, dataOffset + 12)
      ensures var own := Own(Notes(progress.pieces), t);
              CurrentSupers() == old(CurrentSupers())[t := Super(old(position), 16 + 8 * |own|,
                                                                 Duration(tracks[t], own))]
    {
      hide Notes, Sum, TempBytes, StandardChunk, Own, TotalSize;
      var size := 8 + 24 + 8 * chunkIndex[t] - 8;
      WriteStandardIndexChunk(t, size);
    }

    /** Writes the standard indexes of all tracks. */
    method WriteStandardIndexData()
      requires TracksOk() && IndexOk() && SupersOk() && position == |file| && position % 2 == 0
      modifies this`file, this`position, this`trackIndexOffset, this`trackIndexSize
      ensures SupersOk() && position == |file|
      ensures var notes := Notes(progress.pieces);
              && file == old(file) + StandardIndexes(tracks, notes, dataOffset + 12, |tracks|)
              && CurrentSupers() == Supers(tracks, notes, dataOffset + 12, |old(file)|)
    {
      hide Notes, Sum, TempBytes, StandardChunk, Own, TotalSize, Duration, TrackSupers, Writer.IndexOk;
      ghost var notes, base := Notes(progress.pieces), dataOffset + 12;
      var i := 0;
      assert old(file) + [] == old(file);
      while i < |tracks|
        invariant i <= |tracks| && SupersOk() && position == |file|
        invariant file == old(file) + StandardIndexes(tracks, notes, base, i)
        invariant forall t :: 0 <= t < i ==> CurrentSupers()[t] == Supers(tracks, notes, base, |old(file)|)[t]
      {
        IndexesLength(tracks, notes, base, i);
        WriteIndexOf(i);
        ConcatAssoc(old(file), StandardIndexes(tracks, notes, base, i), StandardChunk(tracks, notes, i, base));
        i := i + 1;
      }
    }

    /** Writes the indexes behind the chunks. */
    method PutIndexes() returns (indexOffset: nat, dataSize: nat)
      requires Valid() && chunkDataWritten == 0
      modifies this`file, this`position, this`trackIndexOffset, this`trackIndexSize
      ensures SupersOk() && position == |file|
      ensures var notes := Notes(progress.pieces);
              var standard := StandardIndexes(tracks, notes, dataOffset + 12, |tracks|);
              && indexOffset == |old(file)| + |standard| && dataSize == indexOffset - dataOffset - 8
              && file == old(file) + standard + IndexChunk(tracks, progress.pieces)
              && CurrentSupers() == Supers(tracks, notes, dataOffset + 12, |old(file)|)
      ensures old(file) == Front() + Layout(tracks, progress.pieces)
    {
      hide Layout, Notes, Sum, TempBytes, IndexBytes, ListHeader, OpenBytes, StandardIndexes;
      NoOpenBytes(tracks);
      ghost var base := Front() + Layout(tracks, progress.pieces);
      assert file == base by {
        assert file == base + [];
      }
      LayoutLength(tracks, progress.pieces);
      ghost var notes := Notes(progress.pieces);
      IndexesLength(tracks, notes, dataOffset + 12, |tracks|);
      WriteStandardIndexData();
      dataSize := position - dataOffset - 8;
      indexOffset := position;
      var n := NumChunks();
      ghost var standard := StandardIndexes(tracks, notes, dataOffset + 12, |tracks|);
      WriteLegacyIndexChunk(8 + n * 16 - 8);
      ConcatAssoc(base + standard, IDX1 + Le32(16 * n), IndexBytes(tracks, notes, n));
    }

    /** Finishes the file: the open chunk, the indexes, and then what was not known before: the file size, the header
        list, which now points at the standard indexes, and the size of the list of chunks.  Returns where the legacy
        index chunk starts. */
    method Close(sections: seq<seq<Byte>>) returns (indexOffset: nat)
      requires Valid() && |sections| == |tracks| + 1 && |head| == 12 + HeaderLength(sections, |tracks|)
      modifies this
      ensures TracksOk() && head == old(head) && dataOffset == old(dataOffset)
      ensures progress == Closed(old(progress))
      ensures dataOffset == 0 ==> file == FinishedEmpty(tracks, sections)
      ensures dataOffset != 0 ==>
                && file == Finished(tracks, sections, progress.pieces)
                && indexOffset == |head| + 12 + |Layout(tracks, progress.pieces)|
                                  + |Standard(tracks, progress.pieces, |head|)|
    {
      hide Layout, Notes, Sum, TempBytes, IndexBytes, ListHeader, OpenBytes, IndexChunk, Writer.IndexOk, Writer.FileOk,
           Splice, PiecesOk, NotesOk, Le32, Standard, Supers, HeaderList, HeaderLength, RiffHeader, StandardIndexes,
           Finished, FinishedEmpty, Writer.Front;
      if chunkDataWritten > 0 {
        CutChunk();
      }
      ghost var pieces := progress.pieces;
      NothingEmpty();
      var dataSize;
      indexOffset, dataSize := PutIndexes();
      ghost var standard := StandardIndexes(tracks, Notes(pieces), dataOffset + 12, |tracks|);
      ghost var rest := Layout(tracks, pieces) + standard + IndexChunk(tracks, pieces);
      RestIs(Front(), Layout(tracks, pieces), standard, IndexChunk(tracks, pieces));
      Patch(sections, rest, position, dataSize);
      if dataOffset == 0 {
        EmptyIs(tracks, sections);
      } else {
        FinishedFrom(tracks, sections, pieces, dataSize);
      }
    }

    lemma NothingEmpty()
      requires Valid()
      ensures dataOffset == 0 ==> progress.pieces == [] && Front() == head
      ensures dataOffset != 0 ==> Front() == head + ListHeader(0) && dataOffset == |head|
    {
      hide ListHeader, Layout, OpenBytes, RiffHeader;
    }

    /** Writes over what was not known before. */
    method Patch(sections: seq<seq<Byte>>, ghost rest: seq<Byte>, fileSize: nat, dataSize: nat)
      requires |tracks| <= 3 && |chunkIndex| == |chunkOffs| == |tracks| && SupersOk() && |sections| == |tracks| + 1
      requires |head| == 12 + HeaderLength(sections, |tracks|) && (dataOffset != 0 ==> dataOffset == |head|)
      requires head[..12] == RiffHeader(0)
      requires file == (if dataOffset == 0 then head else head + ListHeader(0)) + rest
      modifies this`file, this`position
      ensures var list := HeaderList(tracks, sections, CurrentSupers(), |tracks|);
              file == if dataOffset == 0 then (RiffHeader(dataSize) + list) + rest
                      else (Splice(RiffHeader(0) + list, 4, Le32(fileSize)) + ListHeader(dataSize)) + rest
    {
      hide *;
      HeaderListLength(tracks, sections, CurrentSupers(), |tracks|);
      if dataOffset == 0 {
        PatchEmpty(head, HeaderList(tracks, sections, CurrentSupers(), |tracks|), rest, fileSize, dataSize);
      } else {
        PatchAll(head, HeaderList(tracks, sections, CurrentSupers(), |tracks|), rest, fileSize, dataSize);
      }
      position := 4;
      Put(Le32(fileSize));
      position := 12;
      PutHeaderList(sections);
      position := dataOffset + 4;
      Put(Le32(dataSize));
    }
  }

  lemma {:induction false} SumZeros(n: nat)
    ensures Sum(seq(n, _ => 0)) == 0
  {
    if n > 0 {
      assert seq(n, _ => 0)[..n - 1] == seq(n - 1, _ => 0);
      SumZeros(n - 1);
    }
  }

  lemma {:induction false} TempOne(notes: seq<Noted>, n: Noted)
    requires n.track < 256 && forall i :: 0 <= i < |notes| ==> notes[i].track < 256
    ensures TempBytes(notes + [n]) == TempBytes(notes) + NoteBytes(n)
  {
    hide NoteBytes;
    assert (notes + [n])[..|notes + [n]| - 1] == notes;
  }

  lemma OpenSplit(tracks: seq<Track>, o: Open, base: seq<Byte>)
    requires o.track < |tracks| <= 100
    ensures base + OpenBytes(tracks, Some(o)) == (base + ChunkId(tracks, o.track)) + Le32(o.sizeField) + o.data
  {
    hide ChunkId, Le32;
  }

  lemma PieceJoin(tracks: seq<Track>, p: Piece, base: seq<Byte>, position: nat)
    requires PieceOk(tracks, p) && position % 2 == |p.data| % 2
    ensures (base + ChunkId(tracks, p.track)) + Le32(p.sizeField) + p.data + Padding(position)
            == base + PieceBytes(tracks, p)
  {
    hide ChunkId, Le32;
  }

  lemma IndexStart(tracks: seq<Track>, notes: seq<Noted>)
    requires NotesOk(tracks, notes)
    ensures IndexBytes(tracks, notes, 0) == []
  {
  }

  lemma IndexStep(tracks: seq<Track>, notes: seq<Noted>, j: nat)
    requires NotesOk(tracks, notes) && j < |notes|
    ensures IndexBytes(tracks, notes, j + 1)
            == IndexBytes(tracks, notes, j) + EntryBytes(tracks, notes[j], IndexOffset(notes, j))
    ensures IndexOffset(notes, j + 1) == IndexOffset(notes, j) + (notes[j].size + 1) / 2 * 2 + 8
  {
    hide EntryBytes;
  }

  lemma NoOpenBytes(tracks: seq<Track>)
    ensures OpenBytes(tracks, None) == []
  {
  }

  function IndexChunk(tracks: seq<Track>, pieces: seq<Piece>): seq<Byte>
    requires NotesOk(tracks, Notes(pieces))
  {
    var notes := Notes(pieces);
    (IDX1 + Le32(16 * |notes|)) + IndexBytes(tracks, notes, |notes|)
  }

  /** The finished file: headers with the file size, the list of chunks with its size, and the legacy index. */
  function FinalFile(tracks: seq<Track>, head: seq<Byte>, pieces: seq<Piece>, standardIndex: seq<Byte>): seq<Byte>
    requires |head| >= 8 && PiecesOk(tracks, pieces) && NotesOk(tracks, Notes(pieces))
  {
    var layout, tail := Layout(tracks, pieces), IndexChunk(tracks, pieces);
    var fileSize := |head| + 12 + |layout| + |standardIndex| + |tail|;
    Splice(head, 4, Le32(fileSize)) + ListHeader(4 + |layout| + |standardIndex|) + layout + standardIndex + tail
  }

  /** The standard indexes of a file whose list of chunks starts at d; their base is the first chunk. */
  function Standard(tracks: seq<Track>, pieces: seq<Piece>, d: nat): seq<Byte>
    requires |tracks| <= 100
  {
    StandardIndexes(tracks, Notes(pieces), d + 12, |tracks|)
  }

  /** The header list of a finished file. */
  function FinalList(tracks: seq<Track>, sections: seq<seq<Byte>>, pieces: seq<Piece>): (s: seq<Byte>)
    requires |tracks| <= 100 && |sections| == |tracks| + 1 && PiecesOk(tracks, pieces)
    ensures |s| == HeaderLength(sections, |tracks|)
  {
    var d := 12 + HeaderLength(sections, |tracks|);
    var supers := Supers(tracks, Notes(pieces), d + 12, d + 12 + |Layout(tracks, pieces)|);
    HeaderListLength(tracks, sections, supers, |tracks|);
    HeaderList(tracks, sections, supers, |tracks|)
  }

  /** The headers of a finished file, but for the file size. */
  function FinalHead(tracks: seq<Track>, sections: seq<seq<Byte>>, pieces: seq<Piece>): (s: seq<Byte>)
    requires |tracks| <= 100 && |sections| == |tracks| + 1 && PiecesOk(tracks, pieces)
    ensures |s| == 12 + HeaderLength(sections, |tracks|)
  {
    RiffHeader(0) + FinalList(tracks, sections, pieces)
  }

  function Finished(tracks: seq<Track>, sections: seq<seq<Byte>>, pieces: seq<Piece>): seq<Byte>
    requires |sections| == |tracks| + 1 && PiecesOk(tracks, pieces) && NotesOk(tracks, Notes(pieces))
  {
    FinalFile(tracks, FinalHead(tracks, sections, pieces), pieces,
              Standard(tracks, pieces, 12 + HeaderLength(sections, |tracks|)))
  }

  /** The file that closing leaves if no packet was written: there is no list of chunks, and its size stands where the
      file size should be. */
  function FinishedEmpty(tracks: seq<Track>, sections: seq<seq<Byte>>): seq<Byte>
    requires |tracks| <= 100 && |sections| == |tracks| + 1
  {
    var d, standard := 12 + HeaderLength(sections, |tracks|), StandardIndexes(tracks, [], 12, |tracks|);
    var size := d + |standard| - 8;
    RiffHeader(size) + HeaderList(tracks, sections, Supers(tracks, [], 12, d), |tracks|) + standard + (IDX1 + Le32(0))
  }

  lemma EmptyIs(tracks: seq<Track>, sections: seq<seq<Byte>>)
    requires |tracks| <= 100 && |sections| == |tracks| + 1
    ensures NotesOk(tracks, Notes([])) && Layout(tracks, []) == []
    ensures var d, standard := 12 + HeaderLength(sections, |tracks|), StandardIndexes(tracks, Notes([]), 12, |tracks|);
            var list := HeaderList(tracks, sections, Supers(tracks, Notes([]), 12, d), |tracks|);
            var rest := Layout(tracks, []) + standard + IndexChunk(tracks, []);
            FinishedEmpty(tracks, sections) == (RiffHeader(d + |standard| - 8) + list) + rest
  {
    hide HeaderLength, HeaderList, StandardIndexes, Supers, RiffHeader, Le32;
    assert Notes([]) == [] && IndexChunk(tracks, []) == (IDX1 + Le32(0)) + [];
  }

  lemma FinishedFrom(tracks: seq<Track>, sections: seq<seq<Byte>>, pieces: seq<Piece>, dataSize: nat)
    requires |sections| == |tracks| + 1 && |tracks| <= 100 && PiecesOk(tracks, pieces) && NotesOk(tracks, Notes(pieces))
    requires var d := 12 + HeaderLength(sections, |tracks|);
             dataSize == 4 + |Layout(tracks, pieces)| + |StandardIndexes(tracks, Notes(pieces), d + 12, |tracks|)|
    ensures var d := 12 + HeaderLength(sections, |tracks|);
            var standard := StandardIndexes(tracks, Notes(pieces), d + 12, |tracks|);
            var rest := Layout(tracks, pieces) + standard + IndexChunk(tracks, pieces);
            var list := HeaderList(tracks, sections, Supers(tracks, Notes(pieces), d + 12,
                                                            d + 12 + |Layout(tracks, pieces)|), |tracks|);
            && standard == Standard(tracks, pieces, d)
            && Finished(tracks, sections, pieces)
               == (Splice(RiffHeader(0) + list, 4, Le32(d + 12 + |rest|)) + ListHeader(dataSize)) + rest
  {
    hide HeaderLength, HeaderList, StandardIndexes, Supers, RiffHeader, Le32, Layout, IndexChunk, ListHeader, Splice,
         Notes, PiecesOk, NotesOk;
    var head, standard := FinalHead(tracks, sections, pieces), Standard(tracks, pieces,
                                                                        12 + HeaderLength(sections, |tracks|));
    FinalJoin(Splice(head, 4, Le32(|head| + 12 + |Layout(tracks, pieces)| + |standard| + |IndexChunk(tracks, pieces)|)),
              ListHeader(dataSize), Layout(tracks, pieces), standard, IndexChunk(tracks, pieces));
  }

  lemma RestIs(front: seq<Byte>, layout: seq<Byte>, standard: seq<Byte>, tail: seq<Byte>)
    ensures front + layout + standard + tail == front + (layout + standard + tail)
  {
  }

  /** The same if there is no list of chunks: the size of the list is written over the file size. */
  lemma PatchEmpty(head: seq<Byte>, list: seq<Byte>, rest: seq<Byte>, fileSize: nat, dataSize: nat)
    requires |head| == 12 + |list| && head[..12] == RiffHeader(0)
    ensures Splice(Splice(Splice(head + rest, 4, Le32(fileSize)), 12, list), 4, Le32(dataSize))
            == (RiffHeader(dataSize) + list) + rest
  {
    PatchFileSize(head, rest, fileSize);
    hide Splice, RiffHeader, Le32;
    PatchSplice(RiffHeader(fileSize), head[12..], rest, list);
    SizeAgain(list, rest, fileSize, dataSize);
  }

  lemma SizeAgain(list: seq<Byte>, rest: seq<Byte>, a: nat, b: nat)
    ensures Splice(RiffHeader(a) + list + rest, 4, Le32(b)) == (RiffHeader(b) + list) + rest
  {
    hide Le32;
    assert RiffHeader(a) + list + rest == RIFF + Le32(a) + (AVI_TYPE + list + rest);
    PatchSplice(RIFF, Le32(a), AVI_TYPE + list + rest, Le32(b));
    hide Splice;
    assert RIFF + Le32(b) + (AVI_TYPE + list + rest) == (RiffHeader(b) + list) + rest;
  }

  function TrackSupers(tracks: seq<Track>, offset: seq<nat>, size: seq<nat>, index: seq<nat>, offs: seq<nat>):
      (s: seq<Super>)
    requires |tracks| == |offset| == |size| == |index| == |offs|
    ensures |s| == |tracks|
  {
    seq(|tracks|, t requires 0 <= t < |tracks| =>
      Super(offset[t], size[t], if tracks[t] == Audio(true) then offs[t] else index[t]))
  }

  function NoSupers(tracks: seq<Track>): (s: seq<Super>)
    ensures |s| == |tracks|
  {
    seq(|tracks|, _ => Super(0, 0, 0))
  }

  lemma NoneOwn(notes: seq<Noted>, t: nat)
    ensures Own(notes[..0], t) == [] && StandardEntries([]) == [] && OwnOffset([], 0) == 4
  {
  }

  lemma FinalJoin(a: seq<Byte>, b: seq<Byte>, c: seq<Byte>, d: seq<Byte>, e: seq<Byte>)
    ensures a + b + c + d + e == (a + b) + (c + d + e)
  {
  }

  /** The file size is written over the zero that held its place. */
  lemma PatchFileSize(head: seq<Byte>, rest: seq<Byte>, fileSize: nat)
    requires |head| >= 12 && head[..12] == RiffHeader(0)
    ensures Splice(head + rest, 4, Le32(fileSize)) == (RiffHeader(fileSize) + head[12..]) + rest
  {
    hide Le32;
    assert head + rest == RIFF + Le32(0) + (AVI_TYPE + head[12..] + rest);
    PatchSplice(RIFF, Le32(0), AVI_TYPE + head[12..] + rest, Le32(fileSize));
    hide Splice;
    assert RIFF + Le32(fileSize) + (AVI_TYPE + head[12..] + rest) == (RiffHeader(fileSize) + head[12..]) + rest;
  }

  /** The size of the list of chunks, likewise. */
  lemma PatchListSize(head: seq<Byte>, rest: seq<Byte>, dataSize: nat)
    ensures Splice((head + ListHeader(0)) + rest, |head| + 4, Le32(dataSize)) == (head + ListHeader(dataSize)) + rest
  {
    hide Le32;
    assert (head + ListHeader(0)) + rest == (head + LIST) + Le32(0) + (MOVI + rest);
    PatchSplice(head + LIST, Le32(0), MOVI + rest, Le32(dataSize));
    hide Splice;
    assert (head + LIST) + Le32(dataSize) + (MOVI + rest) == (head + ListHeader(dataSize)) + rest;
  }

  /** All that closing writes over. */
  lemma PatchAll(head: seq<Byte>, list: seq<Byte>, rest: seq<Byte>, fileSize: nat, dataSize: nat)
    requires |head| == 12 + |list| && head[..12] == RiffHeader(0)
    ensures var f := Splice((head + ListHeader(0)) + rest, 4, Le32(fileSize));
            Splice(Splice(f, 12, list), |head| + 4, Le32(dataSize))
            == (Splice(RiffHeader(0) + list, 4, Le32(fileSize)) + ListHeader(dataSize)) + rest
  {
    hide *;
    var r := RiffHeader(fileSize);
    assert (head + ListHeader(0)) + rest == head + (ListHeader(0) + rest);
    PatchFileSize(head, ListHeader(0) + rest, fileSize);
    PatchSplice(r, head[12..], ListHeader(0) + rest, list);
    ConcatAssoc(r + list, ListHeader(0), rest);
    PatchListSize(r + list, rest, dataSize);
    var h := RiffHeader(0) + list;
    assert h[..12] == RiffHeader(0) && h[12..] == list && h + [] == h && (r + list) + [] == r + list;
    PatchFileSize(h, [], fileSize);
  }

  /** A whole file: headers, every packet, and closing it with the header list as it is then. */
  method WriteFile(tracks: seq<Track>, sections: seq<seq<Byte>>, packets: seq<Packet>, closing: seq<seq<Byte>>)
      returns (w: Writer, indexOffset: nat)
    requires |tracks| <= 3 && SectionsOk(tracks, sections) && SameLengths(sections, closing)
    requires ForTracks(tracks, packets) && ChunksFit(tracks, packets)
    ensures packets == [] ==> w.file == FinishedEmpty(tracks, closing)
    ensures packets != [] ==>
            var (pieces, d) := (Chunks(tracks, packets), 12 + HeaderLength(closing, |tracks|));
            && PiecesOk(tracks, pieces) && NotesOk(tracks, Notes(pieces))
            && w.file == Finished(tracks, closing, pieces) && w.dataOffset == d
            && indexOffset == d + 12 + |Layout(tracks, pieces)| + |Standard(tracks, pieces, d)|
  {
    hide Layout, Notes, Step, FinalFile, Fits, Writer.IndexOk, Writer.FileOk, HeaderLength, HeaderList, Finished,
         Standard, FinalHead, FinishedEmpty, Chunks, ChunksFit;
    SameHeaderLength(sections, closing, |tracks|);
    w := new Writer(tracks, sections);
    var i := 0;
    while i < |packets|
      invariant i <= |packets| && w.Valid() && fresh(w) && w.tracks == tracks
      invariant |w.head| == 12 + HeaderLength(closing, |tracks|)
      invariant w.progress == Run(tracks, packets[..i])
      invariant i > 0 <==> w.dataOffset != 0
    {
      RunStep(tracks, packets, i);
      ChunkFits(tracks, packets, i);
      w.Write(packets[i]);
      i := i + 1;
    }
    assert packets[..i] == packets;
    RunChunks(tracks, packets);
    indexOffset := w.Close(closing);
  }

  lemma RunStep(tracks: seq<Track>, packets: seq<Packet>, i: nat)
    requires i < |packets| && ForTracks(tracks, packets)
    ensures Run(tracks, packets[..i + 1]) == Step(tracks, Run(tracks, packets[..i]), packets[i])
  {
    hide Step;
    assert packets[..i + 1][..i] == packets[..i];
  }
}
