/** Going through a finished AVI file from chunk to chunk by the sizes in their headers, as the AVI reader does when it
    reads without seeking, in containers/avi/avi_reader.c. */
module AviWalk {
  import opened Common
  import opened AviFormat
  import opened AviChunks
  import opened AviOpenDml
  import opened AviWriter
  import opened AviIndex
  import opened AviSuperIndex
  import opened AviSeek

  datatype Chunk = Chunk(id: seq<Byte>, data: seq<Byte>)

  /** The chunks in s, each found behind the one before it, by their sizes alone. */
  function Walk(s: seq<Byte>): seq<Chunk>
    decreases |s|
  {
    if |s| < 8 then []
    else
      var size := Field32(s, 4);
      if 8 + size > |s| then []
      else [Chunk(s[..4], s[8..8 + size])] + Walk(s[Min(8 + size + size % 2, |s|)..])
  }

  /** A chunk as it was written, with whatever size its header gives. */
  datatype Raw = Raw(id: seq<Byte>, size: nat, data: seq<Byte>)

  ghost predicate RawOk(r: Raw)
  {
    |r.id| == 4 && r.size < 0x1_0000_0000
  }

  function RawBytes(r: Raw): seq<Byte>
  {
    r.id + Le32(r.size) + r.data + Padding(|r.data|)
  }

  function Joined(rs: seq<Raw>): seq<Byte>
  {
    if rs == [] then [] else RawBytes(rs[0]) + Joined(rs[1..])
  }

  function Told(rs: seq<Raw>): (cs: seq<Chunk>)
    ensures |cs| == |rs|
  {
    seq(|rs|, i requires 0 <= i < |rs| => Chunk(rs[i].id, rs[i].data))
  }

  ghost predicate Honest(rs: seq<Raw>)
  {
    forall i :: 0 <= i < |rs| ==> rs[i].size == |rs[i].data|
  }

  /** The header of a raw chunk and what follows it. */
  lemma RawHead(r: Raw, rest: seq<Byte>)
    requires RawOk(r)
    ensures var s := RawBytes(r) + rest;
            && |s| >= 8 + |r.data| + |r.data| % 2 && s[..4] == r.id && Field32(s, 4) == r.size
            && s[8..8 + |r.data|] == r.data && s[8 + |r.data| + |r.data| % 2..] == rest
  {
    Le32RoundTrip(r.size);
    hide Le32, FromLe32, Padding;
    var s := RawBytes(r) + rest;
    assert s[4..8] == Le32(r.size);
  }

  /** The walk takes off the first chunk if its size is right, and something else if not. */
  lemma WalkFirst(r: Raw, rest: seq<Byte>)
    requires RawOk(r)
    ensures var w := Walk(RawBytes(r) + rest);
            if r.size == |r.data| then w == [Chunk(r.id, r.data)] + Walk(rest)
            else w != [] ==> |w[0].data| != |r.data|
  {
    hide RawBytes, Field32;
    RawHead(r, rest);
    FirstData(RawBytes(r) + rest);
  }

  /** The walk gives back the chunks exactly if every size is right. */
  lemma {:induction false} WalkJoined(rs: seq<Raw>)
    requires forall i :: 0 <= i < |rs| ==> RawOk(rs[i])
    ensures Walk(Joined(rs)) == Told(rs) <==> Honest(rs)
    decreases |rs|
  {
    hide RawBytes, RawOk, Honest, Told, Walk;
    if rs == [] {
      NothingWalked();
    } else {
      var r, more := rs[0], rs[1..];
      WalkFirst(r, Joined(more));
      WalkJoined(more);
      ToldOne(rs);
      SameTails(Chunk(r.id, r.data), Walk(Joined(more)), Told(more));
    }
  }

  lemma NothingWalked()
    ensures Walk([]) == Told([]) == [] && Honest([])
  {
  }

  lemma FirstData(s: seq<Byte>)
    ensures Walk(s) != [] ==> |s| >= 8 && |Walk(s)[0].data| == Field32(s, 4)
  {
  }

  lemma ToldOne(rs: seq<Raw>)
    requires rs != []
    ensures Told(rs) == [Chunk(rs[0].id, rs[0].data)] + Told(rs[1..])
    ensures Honest(rs) <==> rs[0].size == |rs[0].data| && Honest(rs[1..])
  {
    if rs[0].size == |rs[0].data| && Honest(rs[1..]) {
      forall i | 0 <= i < |rs| ensures rs[i].size == |rs[i].data| {
        assert i > 0 ==> rs[i] == rs[1..][i - 1];
      }
    }
  }

  lemma SameTails(c: Chunk, a: seq<Chunk>, b: seq<Chunk>)
    ensures [c] + a == [c] + b <==> a == b
  {
    if [c] + a == [c] + b {
      assert a == ([c] + a)[1..] && b == ([c] + b)[1..];
    }
  }

  lemma {:induction false} JoinedMore(a: seq<Raw>, b: seq<Raw>)
    ensures Joined(a + b) == Joined(a) + Joined(b)
  {
    hide RawBytes;
    if a == [] {
      assert a + b == b;
    } else {
      JoinedMore(a[1..], b);
      assert (a + b)[1..] == a[1..] + b;
    }
  }

  // ---------- the chunks of a finished file ----------

  function PieceRaw(tracks: seq<Track>, p: Piece): Raw
    requires PieceOk(tracks, p)
  {
    Raw(ChunkId(tracks, p.track), p.sizeField, p.data)
  }

  function PieceRaws(tracks: seq<Track>, pieces: seq<Piece>): (rs: seq<Raw>)
    requires PiecesOk(tracks, pieces)
    ensures |rs| == |pieces|
  {
    seq(|pieces|, k requires 0 <= k < |pieces| => PieceRaw(tracks, pieces[k]))
  }

  lemma {:induction false} LayoutJoined(tracks: seq<Track>, pieces: seq<Piece>)
    requires PiecesOk(tracks, pieces)
    ensures Layout(tracks, pieces) == Joined(PieceRaws(tracks, pieces))
  {
    if pieces != [] {
      var init, p := pieces[..|pieces| - 1], pieces[|pieces| - 1];
      LayoutJoined(tracks, init);
      assert PieceRaws(tracks, pieces) == PieceRaws(tracks, init) + [PieceRaw(tracks, p)];
      JoinedMore(PieceRaws(tracks, init), [PieceRaw(tracks, p)]);
      JoinedSingle(PieceRaw(tracks, p));
      PieceIsRaw(tracks, p);
      hide Joined, PieceBytes, RawBytes, PieceRaws;
    }
  }

  lemma JoinedSingle(r: Raw)
    ensures Joined([r]) == RawBytes(r)
  {
    hide RawBytes;
    assert Joined([r][1..]) == [] && RawBytes(r) + [] == RawBytes(r);
  }

  lemma PieceIsRaw(tracks: seq<Track>, p: Piece)
    requires PieceOk(tracks, p)
    ensures PieceBytes(tracks, p) == RawBytes(PieceRaw(tracks, p))
  {
    hide Le32, ChunkId, Padding;
  }

  /** What a standard index has behind its id and size. */
  function IndexData(tracks: seq<Track>, notes: seq<Noted>, t: nat, base: nat): (s: seq<Byte>)
    requires t < |tracks| <= 100
    ensures |s| == 24 + 8 * |Own(notes, t)|
  {
    var own := Own(notes, t);
    (Le16(2) + [0, 1] + Le32(|own|)) + (ChunkId(tracks, t) + Le64(base) + Le32(0)) + StandardEntries(own)
  }

  function IndexRaws(tracks: seq<Track>, notes: seq<Noted>, base: nat, n: nat): (rs: seq<Raw>)
    requires n <= |tracks| <= 100
    ensures |rs| == n
  {
    seq(n, t requires 0 <= t < n =>
      Raw(IndexId(t), 24 + 8 * |Own(notes, t)|, IndexData(tracks, notes, t, base)))
  }

  lemma IndexIsRaw(tracks: seq<Track>, notes: seq<Noted>, t: nat, base: nat)
    requires t < |tracks| <= 100
    ensures StandardChunk(tracks, notes, t, base)
            == RawBytes(Raw(IndexId(t), 24 + 8 * |Own(notes, t)|, IndexData(tracks, notes, t, base)))
  {
    hide *;
    var own := Own(notes, t);
    var r := Raw(IndexId(t), 24 + 8 * |own|, IndexData(tracks, notes, t, base));
    var (b, c) := (Le16(2) + [0, 1] + Le32(|own|), ChunkId(tracks, t) + Le64(base) + Le32(0));
    EvenLength(|own|);
    EvenRaw(r);
    IndexParts(tracks, notes, t, base);
    Regroup(r.id + Le32(r.size), b, c, StandardEntries(own));
  }

  /** A chunk of even length has no padding. */
  lemma EvenRaw(r: Raw)
    requires |r.data| % 2 == 0
    ensures RawBytes(r) == (r.id + Le32(r.size)) + r.data
  {
    hide Le32;
  }

  lemma IndexParts(tracks: seq<Track>, notes: seq<Noted>, t: nat, base: nat)
    requires t < |tracks| <= 100
    ensures var own := Own(notes, t);
            var (b, c) := (Le16(2) + [0, 1] + Le32(|own|), ChunkId(tracks, t) + Le64(base) + Le32(0));
            && IndexData(tracks, notes, t, base) == b + c + StandardEntries(own)
            && StandardChunk(tracks, notes, t, base)
               == ((IndexId(t) + Le32(24 + 8 * |own|)) + b + c) + StandardEntries(own)
  {
    hide Le16, Le32, Le64, ChunkId, IndexId, StandardEntries, Own;
  }

  lemma Regroup(a: seq<Byte>, b: seq<Byte>, c: seq<Byte>, d: seq<Byte>)
    ensures (a + b + c) + d == a + (b + c + d)
  {
  }

  lemma {:induction false} IndexesJoined(tracks: seq<Track>, notes: seq<Noted>, base: nat, n: nat)
    requires n <= |tracks| <= 100
    ensures StandardIndexes(tracks, notes, base, n) == Joined(IndexRaws(tracks, notes, base, n))
  {
    hide *;
    IndexesOne(tracks, notes, base, n);
    if n > 0 {
      IndexesJoined(tracks, notes, base, n - 1);
      IndexIsRaw(tracks, notes, n - 1, base);
      var r := Raw(IndexId(n - 1), 24 + 8 * |Own(notes, n - 1)|, IndexData(tracks, notes, n - 1, base));
      IndexRawsOne(tracks, notes, base, n);
      JoinedMore(IndexRaws(tracks, notes, base, n - 1), [r]);
      JoinedSingle(r);
    } else {
      NothingJoined();
    }
  }

  lemma NothingJoined()
    ensures Joined([]) == []
  {
  }

  lemma IndexRawsOne(tracks: seq<Track>, notes: seq<Noted>, base: nat, n: nat)
    requires 0 < n <= |tracks| <= 100
    ensures IndexRaws(tracks, notes, base, n)
            == IndexRaws(tracks, notes, base, n - 1)
               + [Raw(IndexId(n - 1), 24 + 8 * |Own(notes, n - 1)|, IndexData(tracks, notes, n - 1, base))]
  {
    hide Own, IndexData, IndexId;
  }

  /** Every header gives the size of its data, headers left behind included. */
  ghost predicate SizesHonest(pieces: seq<Piece>)
  {
    forall k {:trigger pieces[k]} :: 0 <= k < |pieces| ==> pieces[k].sizeField == |pieces[k].data|
  }

  /** The parts of a finished file behind its headers. */
  lemma FileParts(tracks: seq<Track>, sections: seq<seq<Byte>>, pieces: seq<Piece>) returns (a: seq<Byte>)
    requires Complete(tracks, sections, pieces)
    ensures |a| == 12 + HeaderLength(sections, |tracks|)
    ensures a[..12] == RiffHeader(|Finished(tracks, sections, pieces)|)
    ensures var (l, s) := (Layout(tracks, pieces), Standard(tracks, pieces, |a|));
            Finished(tracks, sections, pieces)
            == a + ListHeader(4 + |l| + |s|) + l + s + IndexChunk(tracks, pieces)
  {
    hide Splice, RiffHeader, HeaderList, HeaderLength, Layout, Standard, IndexChunk, ListHeader, Supers, Notes, Le32,
         PiecesOk, NotesOk, FinalList;
    var head := FinalHead(tracks, sections, pieces);
    var (l, s) := (Layout(tracks, pieces), Standard(tracks, pieces, |head|));
    a := Splice(head, 4, Le32(|head| + 12 + |l| + |s| + |IndexChunk(tracks, pieces)|));
    HeadLength(RiffHeader(0), FinalList(tracks, sections, pieces),
               |head| + 12 + |l| + |s| + |IndexChunk(tracks, pieces)|);
  }

  lemma HeadLength(riff: seq<Byte>, list: seq<Byte>, v: nat)
    requires riff == RiffHeader(0)
    ensures var head := Splice(riff + list, 4, Le32(v)); |head| == 12 + |list| && head[..12] == RiffHeader(v)
  {
    hide Le32;
  }

  lemma CutParts(a: seq<Byte>, b: seq<Byte>, c: seq<Byte>, d: seq<Byte>, e: seq<Byte>)
    ensures var f := a + b + c + d + e;
            && |f| == |a| + |b| + |c| + |d| + |e| && f[|a|..|a| + |b|] == b
            && f[|a| + |b|..|a| + |b| + |c| + |d|] == c + d && f[|a| + |b| + |c| + |d|..] == e
  {
  }

  /** A header of an id and a size at the start of something found in the file. */
  lemma HeaderFound(f: seq<Byte>, at: nat, id: seq<Byte>, size: nat, rest: seq<Byte>)
    requires |id| == 4 && size < 0x1_0000_0000 && at + 8 + |rest| <= |f|
    requires f[at..at + 8 + |rest|] == id + Le32(size) + rest
    ensures f[at..at + 4] == id && Field32(f, at + 4) == size && f[at + 8..at + 8 + |rest|] == rest
  {
    Le32RoundTrip(size);
    hide Le32, FromLe32;
    PartsFound(f, at, id, Le32(size), rest);
  }

  /** The sizes of the list and of the legacy index lead through the file to its end. */
  lemma ListFound(tracks: seq<Track>, sections: seq<seq<Byte>>, pieces: seq<Piece>)
    requires Complete(tracks, sections, pieces) && |Finished(tracks, sections, pieces)| < 0x1_0000_0000
    ensures var (f, d) := (Finished(tracks, sections, pieces), 12 + HeaderLength(sections, |tracks|));
            && d + 12 <= |f| && f[d..d + 4] == LIST && f[d + 8..d + 12] == MOVI
            && var e := d + 8 + Field32(f, d + 4);
            && d + 12 <= e && e + 8 <= |f| && f[e..e + 4] == IDX1 && e + 8 + Field32(f, e + 4) == |f|
            && f[d + 12..e] == Layout(tracks, pieces) + Standard(tracks, pieces, d)
  {
    hide Finished, Layout, Standard, Notes, HeaderLength, PiecesOk, NotesOk, IndexBytes, Le32, FromLe32;
    var f := Finished(tracks, sections, pieces);
    var a := FileParts(tracks, sections, pieces);
    var (d, l, s, tail) := (|a|, Layout(tracks, pieces), Standard(tracks, pieces, |a|), IndexChunk(tracks, pieces));
    CutParts(a, ListHeader(4 + |l| + |s|), l, s, tail);
    HeaderFound(f, d, LIST, 4 + |l| + |s|, MOVI);
    var notes := Notes(pieces);
    var entries := IndexBytes(tracks, notes, |notes|);
    var e := d + 12 + |l| + |s|;
    assert f[e..] == f[e..e + 8 + |entries|];
    HeaderFound(f, e, IDX1, 16 * |notes|, entries);
  }

  /** The file starts as RIFF of type AVI, and the size it gives is that of the whole file, eight more than follows. */
  lemma RiffFound(tracks: seq<Track>, sections: seq<seq<Byte>>, pieces: seq<Piece>)
    requires Complete(tracks, sections, pieces) && |Finished(tracks, sections, pieces)| < 0x1_0000_0000
    ensures var f := Finished(tracks, sections, pieces);
            |f| >= 12 && f[..4] == RIFF && Field32(f, 4) == |f| && f[8..12] == AVI_TYPE
  {
    hide Finished, Layout, Standard, HeaderLength, PiecesOk, NotesOk, IndexChunk, ListHeader, Le32, FromLe32;
    var f := Finished(tracks, sections, pieces);
    var a := FileParts(tracks, sections, pieces);
    CutParts(a, ListHeader(4 + |Layout(tracks, pieces)| + |Standard(tracks, pieces, |a|)|), Layout(tracks, pieces),
             Standard(tracks, pieces, |a|), IndexChunk(tracks, pieces));
    assert f[..12] == a[..12];
    Le32RoundTrip(|f|);
    assert f[4..8] == f[..12][4..8] == Le32(|f|) && f[8..12] == f[..12][8..12];
  }

  // ---------- what the super index says of the standard index ----------

  /** The entries of a track count its data. */
  lemma {:induction false} OwnTotal(pieces: seq<Piece>, t: nat)
    requires forall i {:trigger pieces[i]} :: 0 <= i < |pieces| ==> !pieces[i].indexed ==> pieces[i].data == []
    ensures TotalSize(Own(Notes(pieces), t)) == |TrackData(pieces, t)|
  {
    if pieces != [] {
      var init, p := pieces[..|pieces| - 1], pieces[|pieces| - 1];
      OwnTotal(init, t);
      if p.indexed {
        OwnOne(Notes(init), Noted(p.track, |p.data|, p.key), t);
        TotalOne(Own(Notes(init), t), Noted(p.track, |p.data|, p.key));
      } else {
        assert Notes(init) + [] == Notes(init);
      }
    }
  }

  lemma {:induction false} DataWithin(tracks: seq<Track>, pieces: seq<Piece>, t: nat)
    requires PiecesOk(tracks, pieces)
    ensures |TrackData(pieces, t)| <= |Layout(tracks, pieces)|
  {
    if pieces != [] {
      OnePieceOk(tracks, pieces, |pieces| - 1);
      hide PieceBytes, PieceOk;
      DataWithin(tracks, pieces[..|pieces| - 1], t);
    }
  }

  lemma PiecesData(tracks: seq<Track>, pieces: seq<Piece>)
    requires PiecesOk(tracks, pieces)
    ensures forall i {:trigger pieces[i]} :: 0 <= i < |pieces| ==> !pieces[i].indexed ==> pieces[i].data == []
  {
    forall i | 0 <= i < |pieces| ensures !pieces[i].indexed ==> pieces[i].data == [] {
      OnePieceOk(tracks, pieces, i);
    }
  }

  /** The super index of a track points at its standard index, gives 16 bytes less than that has, and a duration of as
      many chunks as the track has, or bytes if it is audio with a block alignment. */
  lemma SuperTells(tracks: seq<Track>, sections: seq<seq<Byte>>, pieces: seq<Piece>, t: nat)
    requires Complete(tracks, sections, pieces) && t < |tracks|
    requires |Finished(tracks, sections, pieces)| < 0x1_0000_0000
    ensures var (f, at) := (Finished(tracks, sections, pieces), SuperPlace(sections, t));
            var own := Own(Notes(pieces), t);
            var c := StandardChunk(tracks, Notes(pieces), t, 24 + HeaderLength(sections, |tracks|));
            && at + 48 <= |f| && StandsAt(f, Field64(f, at + 32), c) && Field32(f, at + 40) == |c| - 16
            && Field32(f, at + 44) == if tracks[t] == Audio(true) then |TrackData(pieces, t)| else |own|
  {
    hide Finished, Layout, Notes, Own, Duration, TrackData, PiecesOk, NotesOk, Standard, FinalList, HeaderLength,
         StandardIndexes, TotalSize, FromLe16, FromLe32, FromLe64, StandardPlace, IdFits;
    var own := Own(Notes(pieces), t);
    var (f, at) := (Finished(tracks, sections, pieces), SuperPlace(sections, t));
    SuperFound(tracks, sections, pieces, t);
    SuperLies(tracks, sections, pieces, t);
    StandardWithin(tracks, sections, pieces, t);
    SuperFits(tracks, sections, pieces, t);
    FieldIs(f, at + 40, 16 + 8 * |own|);
    FieldIs(f, at + 44, Duration(tracks[t], own));
    DurationIs(tracks, pieces, t);
  }

  lemma DurationIs(tracks: seq<Track>, pieces: seq<Piece>, t: nat)
    requires PiecesOk(tracks, pieces) && t < |tracks|
    ensures Duration(tracks[t], Own(Notes(pieces), t))
            == if tracks[t] == Audio(true) then |TrackData(pieces, t)| else |Own(Notes(pieces), t)|
  {
    hide TrackData, Own, Notes, TotalSize, PiecesOk;
    PiecesData(tracks, pieces);
    OwnTotal(pieces, t);
  }

  lemma SuperFits(tracks: seq<Track>, sections: seq<seq<Byte>>, pieces: seq<Piece>, t: nat)
    requires Complete(tracks, sections, pieces) && t < |tracks|
    requires |Finished(tracks, sections, pieces)| < 0x1_0000_0000
    ensures 16 + 8 * |Own(Notes(pieces), t)| < 0x1_0000_0000
    ensures Duration(tracks[t], Own(Notes(pieces), t)) < 0x1_0000_0000
  {
    hide Finished, Layout, Notes, Own, Duration, TrackData, PiecesOk, NotesOk, Standard, FinalList, HeaderLength,
         StandardIndexes, TotalSize;
    DurationIs(tracks, pieces, t);
    DataWithin(tracks, pieces, t);
    FinalParts(tracks, sections, pieces);
    StandardWithin(tracks, sections, pieces, t);
  }

  lemma FieldIs(f: seq<Byte>, at: nat, v: nat)
    requires v < 0x1_0000_0000 && at + 4 <= |f| && f[at..at + 4] == Le32(v)
    ensures Field32(f, at) == v
  {
    Le32RoundTrip(v);
    hide Le32, FromLe32;
  }

  /** The size and duration fields as they were written. */
  lemma SuperLies(tracks: seq<Track>, sections: seq<seq<Byte>>, pieces: seq<Piece>, t: nat)
    requires Complete(tracks, sections, pieces) && t < |tracks|
    requires |Finished(tracks, sections, pieces)| < 0x1_0000_0000
    ensures var (f, at) := (Finished(tracks, sections, pieces), SuperPlace(sections, t));
            var own := Own(Notes(pieces), t);
            && at + 48 <= |f| && f[at + 40..at + 44] == Le32(16 + 8 * |own|)
            && f[at + 44..at + 48] == Le32(Duration(tracks[t], own))
  {
    hide Finished, FinalList, Layout, Notes, HeaderList, HeaderLength, StandardIndexes, SuperChunk, Standard, Own,
         Duration, FromLe16, FromLe32, FromLe64, PiecesOk, NotesOk, IdFits, ChunkId;
    FinalParts(tracks, sections, pieces);
    StandardWithin(tracks, sections, pieces, t);
    var s := SuperBytes(tracks, sections, pieces, t);
    var f, at := Finished(tracks, sections, pieces), SuperPlace(sections, t);
    Stretch(f, 12, FinalList(tracks, sections, pieces), at - 12, 48);
    SuperFields(f, at, tracks, t, s);
  }

  /** What the walk should find. */
  function AllRaws(tracks: seq<Track>, sections: seq<seq<Byte>>, pieces: seq<Piece>): seq<Raw>
    requires |tracks| <= 100 && |sections| == |tracks| + 1 && PiecesOk(tracks, pieces)
  {
    PieceRaws(tracks, pieces)
    + IndexRaws(tracks, Notes(pieces), 12 + HeaderLength(sections, |tracks|) + 12, |tracks|)
  }

  /** The walk through the list of chunks at d finds these. */
  ghost predicate Walks(f: seq<Byte>, d: nat, found: seq<Chunk>)
  {
    && d + 12 <= |f|
    && var e := d + 8 + Field32(f, d + 4);
    d + 12 <= e <= |f| && Walk(f[d + 12..e]) == found
  }

  lemma WalksIs(f: seq<Byte>, d: nat, found: seq<Chunk>, list: seq<Byte>)
    requires d + 12 <= |f| && d + 12 <= d + 8 + Field32(f, d + 4) <= |f|
    requires f[d + 12..d + 8 + Field32(f, d + 4)] == list
    ensures Walks(f, d, found) <==> Walk(list) == found
  {
    hide Walk;
  }

  /** A finished file is walked through exactly if the header of every chunk gives the size of its data: then the walk
      finds all chunks with their data in order, and behind them the standard indexes. */
  lemma FileWalks(tracks: seq<Track>, sections: seq<seq<Byte>>, pieces: seq<Piece>)
    requires Complete(tracks, sections, pieces) && |Finished(tracks, sections, pieces)| < 0x1_0000_0000
    requires forall k {:trigger pieces[k]} :: 0 <= k < |pieces| ==> pieces[k].sizeField < 0x1_0000_0000
    ensures SizesHonest(pieces) <==> Walks(Finished(tracks, sections, pieces), 12 + HeaderLength(sections, |tracks|),
                                           Told(AllRaws(tracks, sections, pieces)))
  {
    hide *;
    CompleteParts(tracks, sections, pieces);
    var d := 12 + HeaderLength(sections, |tracks|);
    ListFound(tracks, sections, pieces);
    LayoutJoined(tracks, pieces);
    StandardJoined(tracks, pieces, d);
    var (p, x) := (PieceRaws(tracks, pieces), IndexRaws(tracks, Notes(pieces), d + 12, |tracks|));
    JoinedMore(p, x);
    AllRawsOk(tracks, sections, pieces);
    WalkJoined(AllRaws(tracks, sections, pieces));
    WalksIs(Finished(tracks, sections, pieces), d, Told(AllRaws(tracks, sections, pieces)),
            Layout(tracks, pieces) + Standard(tracks, pieces, d));
  }

  lemma StandardJoined(tracks: seq<Track>, pieces: seq<Piece>, d: nat)
    requires |tracks| <= 100
    ensures Standard(tracks, pieces, d) == Joined(IndexRaws(tracks, Notes(pieces), d + 12, |tracks|))
  {
    hide StandardIndexes, Joined, IndexRaws, Notes;
    IndexesJoined(tracks, Notes(pieces), d + 12, |tracks|);
  }

  lemma AllRawsOk(tracks: seq<Track>, sections: seq<seq<Byte>>, pieces: seq<Piece>)
    requires Complete(tracks, sections, pieces) && |Finished(tracks, sections, pieces)| < 0x1_0000_0000
    requires forall k {:trigger pieces[k]} :: 0 <= k < |pieces| ==> pieces[k].sizeField < 0x1_0000_0000
    ensures var rs := AllRaws(tracks, sections, pieces);
            && rs == PieceRaws(tracks, pieces)
                     + IndexRaws(tracks, Notes(pieces), 12 + HeaderLength(sections, |tracks|) + 12, |tracks|)
            && (forall i :: 0 <= i < |rs| ==> RawOk(rs[i])) && (Honest(rs) <==> SizesHonest(pieces))
  {
    hide Finished, Notes, HeaderLength, Own, IndexData, PiecesOk, NotesOk, ChunkId, IndexId;
    var rs := AllRaws(tracks, sections, pieces);
    forall t: nat | t < |tracks| ensures 24 + 8 * |Own(Notes(pieces), t)| < 0x1_0000_0000 {
      OffsetsFit(tracks, sections, pieces, t);
    }
    forall k: nat | k < |pieces| ensures PieceOk(tracks, pieces[k]) {
      OnePieceOk(tracks, pieces, k);
    }
    assert forall k {:trigger pieces[k]} :: 0 <= k < |pieces| ==> rs[k] == PieceRaw(tracks, pieces[k]);
  }

  // ---------- told from the packets ----------

  /** The packet makes no header wrong: a chunk that it ends has the size that its first packet announced, if any, and
      a header that it leaves behind announces none. */
  predicate HonestAt(tracks: seq<Track>, packets: seq<Packet>, i: nat)
    requires ForTracks(tracks, packets) && i < |packets|
  {
    RightAt(tracks, packets, i) && (BeginsEmpty(tracks, packets, i) ==> packets[i].frameSize == 0)
  }

  lemma HonestChunk(tracks: seq<Track>, packets: seq<Packet>, i: nat)
    requires ForTracks(tracks, packets) && i < |packets|
    ensures SizesHonest(ChunkOf(tracks, packets, i)) <==> HonestAt(tracks, packets, i)
  {
    EmptyBegun(tracks, packets, i);
    hide Start, DataSize, Bytes, EndsAt;
    var c := ChunkOf(tracks, packets, i);
    if c != [] {
      assert SizesHonest(c) <==> c[0].sizeField == |c[0].data|;
    }
  }

  /** A packet leaves a chunk without data exactly if it begins it empty. */
  lemma EmptyBegun(tracks: seq<Track>, packets: seq<Packet>, i: nat)
    requires ForTracks(tracks, packets) && i < |packets|
    ensures var s := Start(tracks, packets, i);
            !EndsAt(tracks, packets, i) ==>
              && (Bytes(packets, s, i + 1) == [] <==> BeginsEmpty(tracks, packets, i))
              && (Bytes(packets, s, i + 1) == [] ==> s == i)
  {
    var s := Start(tracks, packets, i);
    assert Bytes(packets, s, i + 1) == Bytes(packets, s, i) + packets[i].data;
    assert DataSize(packets, i, i) == 0;
  }

  lemma {:induction false} HonestUpTo(tracks: seq<Track>, packets: seq<Packet>, n: nat)
    requires ForTracks(tracks, packets) && n <= |packets|
    ensures SizesHonest(ChunksUpTo(tracks, packets, n)) <==> forall i :: 0 <= i < n ==> HonestAt(tracks, packets, i)
  {
    if n > 0 {
      hide ChunkOf, HonestAt;
      HonestUpTo(tracks, packets, n - 1);
      HonestChunk(tracks, packets, n - 1);
      HonestJoin(ChunksUpTo(tracks, packets, n - 1), ChunkOf(tracks, packets, n - 1));
    }
  }

  lemma HonestJoin(a: seq<Piece>, b: seq<Piece>)
    ensures SizesHonest(a + b) <==> SizesHonest(a) && SizesHonest(b)
  {
    var c := a + b;
    assert forall k {:trigger a[k]} :: 0 <= k < |a| ==> c[k] == a[k];
    assert forall k {:trigger b[k]} :: 0 <= k < |b| ==> c[|a| + k] == b[k];
  }

  /** Over every run: the chunks give their sizes exactly if every packet keeps to what was announced. */
  lemma ChunksHonest(tracks: seq<Track>, packets: seq<Packet>)
    requires ForTracks(tracks, packets)
    ensures SizesHonest(Chunks(tracks, packets)) <==>
            forall i :: 0 <= i < |packets| ==> HonestAt(tracks, packets, i)
  {
    HonestUpTo(tracks, packets, |packets|);
    hide ChunksUpTo, HonestAt;
  }

  ghost predicate SizesFit32(packets: seq<Packet>)
  {
    forall i :: 0 <= i < |packets| ==> packets[i].frameSize < 0x1_0000_0000
  }

  lemma SizeFieldFits(tracks: seq<Track>, packets: seq<Packet>, k: nat)
    requires ForTracks(tracks, packets) && ChunksFit(tracks, packets) && SizesFit32(packets)
    requires k < |Chunks(tracks, packets)|
    ensures Chunks(tracks, packets)[k].sizeField < 0x1_0000_0000
  {
    hide Start, EndsAt, DataSize, ChunksUpTo;
    var i := LastPacket(tracks, packets, |packets|, k);
    assert [Chunks(tracks, packets)[k]][0] == ChunkOf(tracks, packets, i)[0];
  }

  /** Writes a file and goes through it: all its chunks are found, with the data of the packets that they were made of,
      exactly if every packet keeps to what was announced. */
  method WriteThenWalk(tracks: seq<Track>, sections: seq<seq<Byte>>, packets: seq<Packet>, closing: seq<seq<Byte>>)
      returns (w: Writer)
    requires |tracks| <= 3 && SectionsOk(tracks, sections) && SameLengths(sections, closing)
    requires packets != [] && ForTracks(tracks, packets) && ChunksFit(tracks, packets) && SizesFit32(packets)
    ensures |w.file| < 0x1_0000_0000 ==>
              var pieces := Chunks(tracks, packets);
              && Complete(tracks, closing, pieces)
              && (Walks(w.file, w.dataOffset, Told(AllRaws(tracks, closing, pieces))) <==>
                  forall i :: 0 <= i < |packets| ==> HonestAt(tracks, packets, i))
  {
    hide *;
    SectionCount(tracks, sections, closing);
    var indexOffset;
    w, indexOffset := WriteFile(tracks, sections, packets, closing);
    ghost var pieces := Chunks(tracks, packets);
    IsComplete(tracks, closing, pieces);
    if |w.file| < 0x1_0000_0000 {
      forall k: nat | k < |pieces| ensures pieces[k].sizeField < 0x1_0000_0000 {
        SizeFieldFits(tracks, packets, k);
      }
      FileWalks(tracks, closing, pieces);
      ChunksHonest(tracks, packets);
    }
  }
}
