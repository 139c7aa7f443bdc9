/** Seeking in a file that the AVI writer finished: the super index of each track leads the AVI reader to the standard
    index, whose entries are wrong for most chunks. */
module AviSeek {
  import opened Common
  import opened AviFormat
  import opened AviChunks
  import opened AviOpenDml
  import opened AviWriter
  import opened AviReader
  import opened AviIndex
  import opened AviSuperIndex
  import opened AviReaderSeek

  // ---------- where the entries point ----------

  /** The bytes that are not chunks of the track: those of other tracks and the headers left behind. */
  function Foreign(pieces: seq<Piece>, t: nat): nat
  {
    if pieces == [] then 0
    else
      var p := pieces[|pieces| - 1];
      Foreign(pieces[..|pieces| - 1], t) + if p.indexed && p.track == t then 0 else Extent(|p.data|)
  }

  /** How many of the chunks are as long as a chunk can be; the writer takes their size for zero. */
  function Longest(own: seq<Noted>): nat
  {
    if own == [] then 0
    else Longest(own[..|own| - 1]) + if own[|own| - 1].size == DELTAFRAME - 1 then 1 else 0
  }

  lemma LongestOne(own: seq<Noted>, n: Noted)
    ensures Longest(own + [n]) == Longest(own) + if n.size == DELTAFRAME - 1 then 1 else 0
  {
    assert (own + [n])[..|own|] == own;
  }

  /** A chunk moves the offset on by four bytes more than it takes up. */
  lemma StepIs(n: Noted)
    requires n.size < DELTAFRAME
    ensures StandardStep(Word(n)) == Extent(n.size) + 4 - if n.size == DELTAFRAME - 1 then DELTAFRAME else 0
  {
    var even := (n.size + 1) / 2 * 2;
    assert (Word(n) + 1) / 2 * 2 == even + if n.key then 0 else DELTAFRAME;
  }

  ghost predicate SizesFit(pieces: seq<Piece>)
  {
    forall i :: 0 <= i < |pieces| ==> |pieces[i].data| < DELTAFRAME
  }

  /** The offset behind all pieces. */
  lemma {:induction false} OffsetBehind(pieces: seq<Piece>, t: nat)
    requires SizesFit(pieces)
    ensures var own := Own(Notes(pieces), t);
            OwnOffset(own, |own|) + Foreign(pieces, t) + DELTAFRAME * Longest(own)
            == 4 + HeaderOffset(pieces, |pieces|) + 4 * |own|
  {
    if pieces != [] {
      var init, p := pieces[..|pieces| - 1], pieces[|pieces| - 1];
      OffsetBehind(init, t);
      HeaderOffsetPrefix(pieces, |pieces| - 1);
      hide Extent, StandardStep, HeaderOffset;
      HeaderOffsetLast(pieces);
      if p.indexed {
        var n := Noted(p.track, |p.data|, p.key);
        OwnOne(Notes(init), n, t);
        StepIs(n);
        LongestOne(Own(Notes(init), t), n);
        OwnOffsetLast(Own(Notes(init), t), n);
        hide Own, Longest, OwnOffset, Word;
      } else {
        assert Notes(pieces) == Notes(init);
      }
    }
  }

  lemma HeaderOffsetLast(pieces: seq<Piece>)
    requires pieces != []
    ensures HeaderOffset(pieces, |pieces|)
            == HeaderOffset(pieces, |pieces| - 1) + Extent(|pieces[|pieces| - 1].data|)
  {
  }

  lemma OwnOffsetLast(own: seq<Noted>, n: Noted)
    ensures OwnOffset(own + [n], |own| + 1) == OwnOffset(own, |own|) + StandardStep(Word(n))
  {
    OwnOffsetPrefix(own, [n], |own|);
    hide StandardStep, Word;
  }

  /** What the last piece adds to the entries of a track. */
  lemma OwnLast(pieces: seq<Piece>, t: nat)
    requires pieces != []
    ensures var (own, p) := (Own(Notes(pieces[..|pieces| - 1]), t), pieces[|pieces| - 1]);
            Own(Notes(pieces), t)
            == if p.indexed && p.track == t then own + [Noted(t, |p.data|, p.key)] else own
  {
    var init, p := pieces[..|pieces| - 1], pieces[|pieces| - 1];
    assert Notes(pieces) == if p.indexed then Notes(init) + [Noted(p.track, |p.data|, p.key)] else Notes(init);
    hide Notes, Own;
    OwnOne(Notes(init), Noted(p.track, |p.data|, p.key), t);
  }

  /** The piece that entry j of a track stands for. */
  function OwnPiece(pieces: seq<Piece>, t: nat, j: nat): (k: nat)
    requires j < |Own(Notes(pieces), t)|
    ensures k < |pieces| && pieces[k].indexed && pieces[k].track == t && |Own(Notes(pieces[..k]), t)| == j
    decreases |pieces|
  {
    var init := pieces[..|pieces| - 1];
    OwnLast(pieces, t);
    if j < |Own(Notes(init), t)| then
      var k := OwnPiece(init, t, j);
      assert init[..k] == pieces[..k];
      k
    else |init|
  }

  /** The entries before that of piece k, and its own. */
  lemma {:induction false} OwnNote(pieces: seq<Piece>, t: nat, k: nat)
    requires k < |pieces| && pieces[k].indexed && pieces[k].track == t
    ensures var (own, j) := (Own(Notes(pieces), t), |Own(Notes(pieces[..k]), t)|);
            && j < |own| && own[..j] == Own(Notes(pieces[..k]), t)
            && own[j] == Noted(t, |pieces[k].data|, pieces[k].key)
    decreases |pieces|
  {
    hide *;
    var init := pieces[..|pieces| - 1];
    OwnLast(pieces, t);
    if k < |init| {
      assert init[..k] == pieces[..k];
      OwnNote(init, t, k);
    } else {
      assert init == pieces[..k];
    }
  }

  /** The entry of a chunk is off by four bytes for each chunk of the track before it, and by all other bytes before it;
      it points at the header exactly if these cancel out. */
  lemma OwnOffsetIs(pieces: seq<Piece>, t: nat, j: nat)
    requires SizesFit(pieces) && j < |Own(Notes(pieces), t)|
    ensures var (own, k) := (Own(Notes(pieces), t), OwnPiece(pieces, t, j));
            && own[j] == Noted(t, |pieces[k].data|, pieces[k].key)
            && OwnOffset(own, j) + Foreign(pieces[..k], t) + DELTAFRAME * Longest(own[..j])
               == 4 + HeaderOffset(pieces, k) + 4 * j
  {
    var own, k := Own(Notes(pieces), t), OwnPiece(pieces, t, j);
    assert SizesFit(pieces[..k]);
    hide *;
    OwnNote(pieces, t, k);
    OffsetBehind(pieces[..k], t);
    HeaderOffsetPrefix(pieces, k);
    assert own == own[..j] + own[j..];
    OwnOffsetPrefix(own[..j], own[j..], j);
  }

  // ---------- what the reader reads ----------

  ghost predicate StandsAt(file: seq<Byte>, at: nat, s: seq<Byte>)
  {
    at + |s| <= |file| && file[at..at + |s|] == s
  }

  /** A stretch of something found in the file. */
  lemma Stretch(file: seq<Byte>, at: nat, s: seq<Byte>, k: nat, n: nat)
    requires at + |s| <= |file| && file[at..at + |s|] == s && k + n <= |s|
    ensures file[at + k..at + k + n] == s[k..k + n]
  {
    SliceOfSlice(file, at, at + |s|, k, k + n);
  }

  lemma ThreeParts(a: seq<Byte>, b: seq<Byte>, c: seq<Byte>)
    ensures var s := a + b + c;
            && s[0..|a|] == a && s[|a|..|a| + |b|] == b && s[|a| + |b|..|a| + |b| + |c|] == c
  {
  }

  /** Something in the file that consists of three parts. */
  lemma PartsFound(file: seq<Byte>, at: nat, a: seq<Byte>, b: seq<Byte>, c: seq<Byte>)
    requires at + |a| + |b| + |c| <= |file| && file[at..at + |a| + |b| + |c|] == a + b + c
    ensures file[at..at + |a|] == a && file[at + |a|..at + |a| + |b|] == b
    ensures file[at + |a| + |b|..at + |a| + |b| + |c|] == c
  {
    ThreeParts(a, b, c);
    Stretch(file, at, a + b + c, 0, |a|);
    Stretch(file, at, a + b + c, |a|, |b|);
    Stretch(file, at, a + b + c, |a| + |b|, |c|);
  }

  /** The fields of a standard index are read as they were written. */
  lemma StandardFields(file: seq<Byte>, at: nat, tracks: seq<Track>, t: nat, size: nat, n: nat, base: nat)
    requires t < |tracks| <= 100 && at + 32 <= |file| && file[at..at + 32] == StandardHead(tracks, t, size, n, base)
    requires size < 0x1_0000_0000 && n < 0x1_0000_0000 && base < 0x1_0000_0000_0000_0000
    ensures Field32(file, at + 4) == size && Field16(file, at + 8) == 2 && file[at + 10] == 0 && file[at + 11] == 1
    ensures Field32(file, at + 12) == n && file[at + 16..at + 20] == ChunkId(tracks, t)
            && Field64(file, at + 20) == base
  {
    Le32RoundTrip(size);
    Le32RoundTrip(n);
    Le64RoundTrip(base);
    Le16RoundTrip(2);
    hide Le16, Le32, Le64, FromLe16, FromLe32, FromLe64, ChunkId, IndexId;
    var a, b, c := IndexId(t) + Le32(size), Le16(2) + [0, 1] + Le32(n), ChunkId(tracks, t) + Le64(base) + Le32(0);
    PartsFound(file, at, a, b, c);
    PartsFound(file, at, IndexId(t), Le32(size), []);
    PartsFound(file, at + 8, Le16(2), [0, 1], Le32(n));
    PartsFound(file, at + 16, ChunkId(tracks, t), Le64(base), Le32(0));
    assert file[at + 10..at + 12][0] == file[at + 10] && file[at + 10..at + 12][1] == file[at + 11];
  }

  /** The fields of a super index whose track has a standard index, likewise. */
  lemma SuperFields(file: seq<Byte>, at: nat, tracks: seq<Track>, t: nat, s: Super)
    requires t < |tracks| <= 100 && at + 48 <= |file| && file[at..at + 48] == SuperChunk(tracks, t, s)
    requires 0 < s.offset < 0x1_0000_0000_0000_0000
    ensures file[at..at + 4] == INDX && Field32(file, at + 4) == 40
    ensures Field16(file, at + 8) == 4 && file[at + 10] == 0 && file[at + 11] == 0 && Field32(file, at + 12) == 1
    ensures file[at + 16..at + 20] == ChunkId(tracks, t) && Field64(file, at + 32) == s.offset
    ensures file[at + 40..at + 44] == Le32(s.size) && file[at + 44..at + 48] == Le32(s.duration)
  {
    Le32RoundTrip(40);
    Le32RoundTrip(1);
    Le64RoundTrip(s.offset);
    Le16RoundTrip(4);
    hide Le16, Le32, Le64, FromLe16, FromLe32, FromLe64, ChunkId, INDX;
    var a, c := INDX + Le32(40), Le64(s.offset) + Le32(s.size) + Le32(s.duration);
    var b := Le16(4) + [0, 0] + Le32(1) + ChunkId(tracks, t) + Le32(0) + Le32(0) + Le32(0);
    PartsFound(file, at, a, b, c);
    PartsFound(file, at, INDX, Le32(40), []);
    assert b == (Le16(4) + [0, 0]) + Le32(1) + (ChunkId(tracks, t) + (Le32(0) + Le32(0) + Le32(0)));
    PartsFound(file, at + 8, Le16(4) + [0, 0], Le32(1), ChunkId(tracks, t) + (Le32(0) + Le32(0) + Le32(0)));
    PartsFound(file, at + 8, Le16(4), [0, 0], []);
    PartsFound(file, at + 16, ChunkId(tracks, t), Le32(0) + Le32(0) + Le32(0), []);
    PartsFound(file, at + 32, Le64(s.offset), Le32(s.size), Le32(s.duration));
    assert file[at + 10..at + 12][0] == file[at + 10] && file[at + 10..at + 12][1] == file[at + 11];
  }

  /** The id of a chunk of the track is for the track. */
  lemma OwnIdFits(tracks: seq<Track>, t: nat)
    requires t < |tracks| <= 100
    ensures IdFits(tracks, ChunkId(tracks, t), t)
  {
    var id := ChunkId(tracks, t);
    assert id[2..4] == if tracks[t].Video? then [0x64, 0x63] else [0x77, 0x62];
  }

  /** The entries of a track as the reader finds them. */
  function EntriesOf(own: seq<Noted>): (es: seq<IndexEntry>)
    ensures |es| == |own|
  {
    seq(|own|, j requires 0 <= j < |own| => IndexEntry(OwnOffset(own, j), own[j].size, own[j].key))
  }

  lemma EntryFields(file: seq<Byte>, at: nat, n: Noted, offset: nat)
    requires at + 8 <= |file| && file[at..at + 8] == StandardEntry(n, offset)
    requires n.size < DELTAFRAME && offset < 0x1_0000_0000
    ensures Field32(file, at) == offset && Field32(file, at + 4) == Word(n)
  {
    Le32RoundTrip(offset);
    Le32RoundTrip(Word(n));
    hide Le32, FromLe32, Word;
    PartsFound(file, at, Le32(offset), Le32(Word(n)), []);
  }

  lemma EntryListed(file: seq<Byte>, at: nat, own: seq<Noted>, j: nat)
    requires at + 8 * |own| <= |file| && file[at..at + 8 * |own|] == StandardEntries(own) && j < |own|
    requires own[j].size < DELTAFRAME && OwnOffset(own, j) < 0x1_0000_0000
    ensures Field32(file, at + 8 * j) == OwnOffset(own, j) && Field32(file, at + 8 * j + 4) == Word(own[j])
  {
    hide *;
    EntriesSlice(own, j);
    Stretch(file, at, StandardEntries(own), 8 * j, 8);
    EntryFields(file, at + 8 * j, own[j], OwnOffset(own, j));
  }

  lemma EntriesListed(file: seq<Byte>, at: nat, own: seq<Noted>)
    requires at + 8 * |own| <= |file| && file[at..at + 8 * |own|] == StandardEntries(own)
    requires forall j :: 0 <= j < |own| ==> own[j].size < DELTAFRAME && OwnOffset(own, j) < 0x1_0000_0000
    ensures Lists(file, at, EntriesOf(own))
  {
    hide StandardEntries, OwnOffset, FromLe32;
    forall j | 0 <= j < |own|
      ensures Field32(file, at + 8 * j) == OwnOffset(own, j) && Field32(file, at + 8 * j + 4) == Word(own[j])
    {
      EntryListed(file, at, own, j);
    }
  }

  // ---------- a finished file ----------

  /** Where the super index chunk of a track stands. */
  function SuperPlace(sections: seq<seq<Byte>>, t: nat): nat
    requires t + 1 < |sections|
  {
    12 + HeaderLength(sections, t + 1) - 48
  }

  /** Where its standard index stands. */
  function StandardPlace(tracks: seq<Track>, sections: seq<seq<Byte>>, pieces: seq<Piece>, t: nat): nat
    requires t < |tracks| <= 100 && |sections| == |tracks| + 1 && PiecesOk(tracks, pieces)
  {
    var start := 12 + HeaderLength(sections, |tracks|) + 12;
    start + |Layout(tracks, pieces)| + |StandardIndexes(tracks, Notes(pieces), start, t)|
  }

  ghost predicate Complete(tracks: seq<Track>, sections: seq<seq<Byte>>, pieces: seq<Piece>)
  {
    |tracks| <= 100 && |sections| == |tracks| + 1 && PiecesOk(tracks, pieces) && NotesOk(tracks, Notes(pieces))
  }

  lemma CompleteSizes(tracks: seq<Track>, sections: seq<seq<Byte>>, pieces: seq<Piece>)
    requires Complete(tracks, sections, pieces)
    ensures SizesFit(pieces)
  {
    hide Notes;
    forall i | 0 <= i < |pieces| ensures |pieces[i].data| < DELTAFRAME {
      NotesPrefix(pieces, i);
      assert PieceOk(tracks, pieces[i]);
    }
  }

  lemma FiveParts(a: seq<Byte>, b: seq<Byte>, c: seq<Byte>, d: seq<Byte>, e: seq<Byte>)
    ensures var f := a + b + c + d + e;
            && f[..|a|] == a && f[|a|..|a| + |b|] == b
            && f[|a| + |b| + |c|..|a| + |b| + |c| + |d|] == d && |f| == |a| + |b| + |c| + |d| + |e|
  {
  }

  lemma HeadKept(list: seq<Byte>, fileSize: nat)
    ensures var a := Splice(RiffHeader(0) + list, 4, Le32(fileSize));
            |a| == 12 + |list| && a[12..] == list
  {
    hide Le32, RiffHeader;
  }

  lemma PlacesOf(list: seq<Byte>, fileSize: nat, dataSize: nat, layout: seq<Byte>, s: seq<Byte>, tail: seq<Byte>)
    ensures var d := 12 + |list|;
            var f := Splice(RiffHeader(0) + list, 4, Le32(fileSize)) + ListHeader(dataSize) + layout + s + tail;
            && |f| >= d + 12 + |layout| + |s| && f[12..d] == list && f[d + 8..d + 12] == MOVI
            && f[d + 12 + |layout|..d + 12 + |layout| + |s|] == s
  {
    assert ListHeader(dataSize)[8..12] == MOVI;
    hide *;
    var (a, b, d) := (Splice(RiffHeader(0) + list, 4, Le32(fileSize)), ListHeader(dataSize), 12 + |list|);
    var f := a + b + layout + s + tail;
    HeadKept(list, fileSize);
    FiveParts(a, b, layout, s, tail);
    SliceOfSlice(f, 0, d, 12, d);
    SliceOfSlice(f, d, d + 12, 8, 12);
  }

  lemma FinishedParts(tracks: seq<Track>, sections: seq<seq<Byte>>, pieces: seq<Piece>)
      returns (fileSize: nat, dataSize: nat)
    requires Complete(tracks, sections, pieces)
    ensures var s := Standard(tracks, pieces, 12 + HeaderLength(sections, |tracks|));
            Finished(tracks, sections, pieces) ==
            Splice(RiffHeader(0) + FinalList(tracks, sections, pieces), 4, Le32(fileSize)) + ListHeader(dataSize)
            + Layout(tracks, pieces) + s + IndexChunk(tracks, pieces)
  {
    hide Splice, RiffHeader, HeaderList, HeaderLength, Layout, Standard, IndexChunk, ListHeader, Supers, Notes, Le32;
    var (l, s) := (|Layout(tracks, pieces)|, |Standard(tracks, pieces, 12 + HeaderLength(sections, |tracks|))|);
    fileSize := 12 + HeaderLength(sections, |tracks|) + 12 + l + s + |IndexChunk(tracks, pieces)|;
    dataSize := 4 + l + s;
  }

  /** The parts of a finished file that the reader uses. */
  lemma FinalParts(tracks: seq<Track>, sections: seq<seq<Byte>>, pieces: seq<Piece>)
    requires Complete(tracks, sections, pieces)
    ensures var (f, l, d) := (Finished(tracks, sections, pieces), |Layout(tracks, pieces)|,
            12 + HeaderLength(sections, |tracks|));
            var s := Standard(tracks, pieces, d);
            && |f| >= d + 12 + l + |s| && f[12..d] == FinalList(tracks, sections, pieces)
            && f[d + 8..d + 12] == MOVI && f[d + 12 + l..d + 12 + l + |s|] == s
  {
    hide Splice, RiffHeader, HeaderList, HeaderLength, Layout, Standard, IndexChunk, ListHeader, Supers, Notes, Le32,
         Finished, FinalList, PiecesOk, NotesOk;
    var fileSize, dataSize := FinishedParts(tracks, sections, pieces);
    var s := Standard(tracks, pieces, 12 + HeaderLength(sections, |tracks|));
    PlacesOf(FinalList(tracks, sections, pieces), fileSize, dataSize, Layout(tracks, pieces), s,
             IndexChunk(tracks, pieces));
  }

  /** A reader that has opened a finished file. */
  ghost predicate Opened(r: Reader, sections: seq<seq<Byte>>, pieces: seq<Piece>)
  {
    && r.Valid() && Complete(r.tracks, sections, pieces)
    && r.file == Finished(r.tracks, sections, pieces) && |r.file| < 0x1_0000_0000
    && forall t :: 0 <= t < |r.tracks| ==>
         r.superOffset[t] == SuperPlace(sections, t) + 8 && r.superSize[t] == 40
  }

  lemma OpenedParts(r: Reader, sections: seq<seq<Byte>>, pieces: seq<Piece>)
    requires Opened(r, sections, pieces)
    ensures Complete(r.tracks, sections, pieces) && |r.tracks| == |r.superOffset| == |r.superSize| <= 100
    ensures |sections| == |r.tracks| + 1 && PiecesOk(r.tracks, pieces)
    ensures r.file == Finished(r.tracks, sections, pieces) && |r.file| < 0x1_0000_0000
    ensures forall t :: 0 <= t < |r.tracks| ==>
              r.superOffset[t] == SuperPlace(sections, t) + 8 && r.superSize[t] == 40
  {
    hide Finished, PiecesOk, NotesOk;
  }

  /** What the reader finds at the super index of a track. */
  lemma SuperFound(tracks: seq<Track>, sections: seq<seq<Byte>>, pieces: seq<Piece>, t: nat)
    requires Complete(tracks, sections, pieces) && t < |tracks|
    requires |Finished(tracks, sections, pieces)| < 0x1_0000_0000
    ensures var (f, at) := (Finished(tracks, sections, pieces), SuperPlace(sections, t));
            && at + 48 <= |f| && f[at..at + 4] == INDX && Field32(f, at + 4) == 40
            && Field16(f, at + 8) == 4 && f[at + 10] == 0 && f[at + 11] == 0
            && Field32(f, at + 12) == 1 && IdFits(tracks, f[at + 16..at + 20], t)
            && Field64(f, at + 32) == StandardPlace(tracks, sections, pieces, t)
  {
    hide Finished, FinalList, Layout, Notes, HeaderList, HeaderLength, StandardIndexes, SuperChunk, Standard, Own,
         Duration, FromLe16, FromLe32, FromLe64, PiecesOk, NotesOk, IdFits, ChunkId;
    FinalParts(tracks, sections, pieces);
    StandardWithin(tracks, sections, pieces, t);
    var s := SuperBytes(tracks, sections, pieces, t);
    var f, at := Finished(tracks, sections, pieces), SuperPlace(sections, t);
    Stretch(f, 12, FinalList(tracks, sections, pieces), at - 12, 48);
    SuperFields(f, at, tracks, t, s);
    OwnIdFits(tracks, t);
  }

  /** The super index chunk of a track within the header list. */
  lemma SuperBytes(tracks: seq<Track>, sections: seq<seq<Byte>>, pieces: seq<Piece>, t: nat) returns (s: Super)
    requires Complete(tracks, sections, pieces) && t < |tracks|
    ensures var (list, at) := (FinalList(tracks, sections, pieces), SuperPlace(sections, t) - 12);
            && 0 <= at && at + 48 <= |list| && list[at..at + 48] == SuperChunk(tracks, t, s)
            && s == Super(StandardPlace(tracks, sections, pieces, t), 16 + 8 * |Own(Notes(pieces), t)|,
                          Duration(tracks[t], Own(Notes(pieces), t)))
  {
    hide Layout, Notes, HeaderList, HeaderLength, StandardIndexes, SuperChunk, Own, Duration, PiecesOk, NotesOk;
    var d := 12 + HeaderLength(sections, |tracks|);
    var supers := Supers(tracks, Notes(pieces), d + 12, d + 12 + |Layout(tracks, pieces)|);
    s := supers[t];
    SuperSlice(tracks, sections, supers, t, |tracks|);
  }

  /** The standard index of a track lies within the file. */
  lemma StandardWithin(tracks: seq<Track>, sections: seq<seq<Byte>>, pieces: seq<Piece>, t: nat)
    requires Complete(tracks, sections, pieces) && t < |tracks|
    ensures var d := 12 + HeaderLength(sections, |tracks|);
            StandsAt(Finished(tracks, sections, pieces), StandardPlace(tracks, sections, pieces, t),
                     StandardChunk(tracks, Notes(pieces), t, d + 12))
  {
    hide Finished, FinalList, Layout, Notes, HeaderLength, StandardIndexes, StandardChunk, PiecesOk, NotesOk;
    var d := 12 + HeaderLength(sections, |tracks|);
    FinalParts(tracks, sections, pieces);
    var (f, all, at) := (Finished(tracks, sections, pieces), Standard(tracks, pieces, d),
      StandardPlace(tracks, sections, pieces, t));
    IndexesSlice(tracks, Notes(pieces), d + 12, t, |tracks|);
    Stretch(f, d + 12 + |Layout(tracks, pieces)|, all, |StandardIndexes(tracks, Notes(pieces), d + 12, t)|,
            |StandardChunk(tracks, Notes(pieces), t, d + 12)|);
  }

  lemma {:induction false} OffsetGrows(own: seq<Noted>, j: nat)
    requires j <= |own|
    ensures 4 <= OwnOffset(own, j) <= OwnOffset(own, |own|)
    decreases |own| - j
  {
    if j < |own| {
      OffsetGrows(own, j + 1);
    }
  }

  /** In a file of less than 2^32 bytes the offsets fit their fields. */
  lemma OffsetsFit(tracks: seq<Track>, sections: seq<seq<Byte>>, pieces: seq<Piece>, t: nat)
    requires Complete(tracks, sections, pieces) && t < |tracks|
    requires |Finished(tracks, sections, pieces)| < 0x1_0000_0000
    ensures var own := Own(Notes(pieces), t);
            && 24 + HeaderLength(sections, |tracks|) < 0x1_0000_0000 && 24 + 8 * |own| < 0x1_0000_0000
            && forall j :: 0 <= j < |own| ==>
                 own[j].size < DELTAFRAME && 4 <= OwnOffset(own, j) < 0x1_0000_0000
  {
    hide Finished, FinalList, Layout, Notes, HeaderLength, HeaderOffset, StandardIndexes, StandardChunk, Own, OwnOffset,
         Foreign, Longest;
    var own := Own(Notes(pieces), t);
    CompleteSizes(tracks, sections, pieces);
    StandardWithin(tracks, sections, pieces, t);
    LayoutLength(tracks, pieces);
    OffsetBehind(pieces, t);
    ChunkLength(tracks, Notes(pieces), t, 12 + HeaderLength(sections, |tracks|) + 12);
    forall j | 0 <= j < |own|
      ensures own[j].size < DELTAFRAME && 4 <= OwnOffset(own, j) < 0x1_0000_0000
    {
      OffsetGrows(own, j);
      OwnOffsetIs(pieces, t, j);
    }
  }

  /** What the reader finds at the standard index of a track. */
  lemma StandardFound(r: Reader, sections: seq<seq<Byte>>, pieces: seq<Piece>, t: nat)
    requires Opened(r, sections, pieces) && t < |r.tracks|
    ensures var (at, own) := (StandardPlace(r.tracks, sections, pieces, t), Own(Notes(pieces), t));
            && 0 < at && at + 32 + 8 * |own| <= |r.file| && Field32(r.file, at + 4) == 24 + 8 * |own|
            && Field16(r.file, at + 8) == 2 && r.file[at + 10] == 0 && r.file[at + 11] == 1
            && Field32(r.file, at + 12) == |own| && IdFits(r.tracks, r.file[at + 16..at + 20], t)
            && Field64(r.file, at + 20) == 12 + HeaderLength(sections, |r.tracks|) + 12
            && Lists(r.file, at + 32, EntriesOf(own))
  {
    hide Finished, FinalList, Layout, Notes, HeaderLength, StandardIndexes, StandardHead, StandardEntries, Own,
         OwnOffset, FromLe16, FromLe32, FromLe64, PiecesOk, NotesOk, EntriesOf, Lists, IdFits, ChunkId;
    var (d, own, at) := (12 + HeaderLength(sections, |r.tracks|), Own(Notes(pieces), t),
      StandardPlace(r.tracks, sections, pieces, t));
    StandardWithin(r.tracks, sections, pieces, t);
    OffsetsFit(r.tracks, sections, pieces, t);
    var n := |own|;
    PartsFound(r.file, at, StandardHead(r.tracks, t, 24 + 8 * n, n, d + 12), StandardEntries(own), []);
    StandardFields(r.file, at, r.tracks, t, 24 + 8 * n, n, d + 12);
    EntriesListed(r.file, at + 32, own);
    OwnIdFits(r.tracks, t);
  }

  /** A standard index with n entries for the track. */
  lemma StandardScanned(file: seq<Byte>, tracks: seq<Track>, at: nat, track: nat, q: Query, pos: nat, c: ChunkState,
                        n: nat)
    requires q.base.den > 0 && at + 32 + 8 * n <= |file| && Field32(file, at + 4) == 24 + 8 * n
    requires Field16(file, at + 8) == 2 && file[at + 10] == 0 && file[at + 11] == 1 && Field32(file, at + 12) == n
    requires IdFits(tracks, file[at + 16..at + 20], track)
    ensures StandardScan(file, tracks, at, track, q, pos, c) ==
            if n == 0 then Scan(Success, pos, q.time, c)
            else ScanEntries(file, at + 32, n, Field64(file, at + 20), q, pos, c, 0, CLEARED)
  {
    hide ScanEntries, IdFits, FromLe16, FromLe32, FromLe64;
  }

  /** A super index with one entry for the track. */
  lemma SuperScanned(file: seq<Byte>, tracks: seq<Track>, at: nat, track: nat, q: Query, pos: nat, c: ChunkState)
    requires q.base.den > 0 && at + 40 <= |file| && IdFits(tracks, file[at + 8..at + 12], track)
    requires Field16(file, at) == 4 && file[at + 2] == 0 && file[at + 3] == 0 && Field32(file, at + 4) == 1
    requires Field64(file, at + 24) != 0
    ensures SuperScan(file, tracks, at, 40, track, q, pos, c) ==
            var s := StandardScan(file, tracks, Field64(file, at + 24), track, q, pos, c);
            if s.status == NotFound then Scan(NotFound, pos, q.time, s.chunk) else s
  {
    hide StandardScan, IdFits, FromLe16, FromLe32, FromLe64;
  }

  /** A seek by the super index of a track leads to its standard index. */
  lemma SuperLeads(r: Reader, sections: seq<seq<Byte>>, pieces: seq<Piece>, t: nat, q: Query, pos: nat, c: ChunkState)
    requires Opened(r, sections, pieces) && t < |r.tracks| && q.base.den > 0
    ensures var s := StandardScan(r.file, r.tracks, StandardPlace(r.tracks, sections, pieces, t), t, q, pos, c);
            SuperScan(r.file, r.tracks, r.superOffset[t], r.superSize[t], t, q, pos, c)
            == if s.status == NotFound then Scan(NotFound, pos, q.time, s.chunk) else s
  {
    hide *;
    OpenedParts(r, sections, pieces);
    SuperFound(r.tracks, sections, pieces, t);
    StandardFound(r, sections, pieces, t);
    SuperScanned(r.file, r.tracks, r.superOffset[t], t, q, pos, c);
  }

  /** There all entries of the track are scanned. */
  lemma StandardScanIs(r: Reader, sections: seq<seq<Byte>>, pieces: seq<Piece>, t: nat, q: Query, pos: nat,
                       c: ChunkState)
    requires Opened(r, sections, pieces) && t < |r.tracks| && q.base.den > 0
    ensures var (at, n) := (StandardPlace(r.tracks, sections, pieces, t), |Own(Notes(pieces), t)|);
            StandardScan(r.file, r.tracks, at, t, q, pos, c) ==
            if n == 0 then Scan(Success, pos, q.time, c)
            else ScanEntries(r.file, at + 32, n, 24 + HeaderLength(sections, |r.tracks|), q, pos, c, 0, CLEARED)
  {
    hide *;
    OpenedParts(r, sections, pieces);
    StandardFound(r, sections, pieces, t);
    var (at, n) := (StandardPlace(r.tracks, sections, pieces, t), |Own(Notes(pieces), t)|);
    StandardScanned(r.file, r.tracks, at, t, q, pos, c, n);
  }

  /** The reader goes from the entry of a chunk to its header exactly if the four bytes too many for each chunk of the
      track before it, but one, make up for all other bytes before it. */
  lemma EntryPointsAtHeader(r: Reader, sections: seq<seq<Byte>>, pieces: seq<Piece>, t: nat, j: nat)
    requires Opened(r, sections, pieces) && t < |r.tracks| && j < |Own(Notes(pieces), t)|
    ensures var (own, k) := (Own(Notes(pieces), t), OwnPiece(pieces, t, j));
            var (base, other) := (24 + HeaderLength(sections, |r.tracks|),
            Foreign(pieces[..k], t) + DELTAFRAME * Longest(own[..j]));
            var (h, n) := (base + HeaderOffset(pieces, k), Extent(|pieces[k].data|));
            && h + n <= |r.file| && PieceOk(r.tracks, pieces[k])
            && r.file[h..h + n] == PieceBytes(r.tracks, pieces[k])
            && Place(base, EntriesOf(own)[j]) == h + 4 * j - 4 - other > 0
            && (Place(base, EntriesOf(own)[j]) == h <==> 4 * j == 4 + other)
            && EntriesOf(own)[j].key == pieces[k].key
  {
    hide *;
    OpenedParts(r, sections, pieces);
    CompleteSizes(r.tracks, sections, pieces);
    var k := OwnPiece(pieces, t, j);
    ChunkAt(r.tracks, sections, pieces, k);
    OffsetsFit(r.tracks, sections, pieces, t);
    OwnOffsetIs(pieces, t, j);
    EntryIs(Own(Notes(pieces), t), j);
    PlaceIs(24 + HeaderLength(sections, |r.tracks|), EntriesOf(Own(Notes(pieces), t))[j]);
  }

  lemma EntryIs(own: seq<Noted>, j: nat)
    requires j < |own|
    ensures EntriesOf(own)[j] == IndexEntry(OwnOffset(own, j), own[j].size, own[j].key)
  {
  }

  lemma PlaceIs(base: nat, e: IndexEntry)
    requires 24 <= base < 0x1_0000_0000 && e.offset < 0x1_0000_0000
    ensures Place(base, e) == base + e.offset - 8
  {
  }

  lemma ChunkAt(tracks: seq<Track>, sections: seq<seq<Byte>>, pieces: seq<Piece>, k: nat)
    requires Complete(tracks, sections, pieces) && k < |pieces|
    ensures var (f, h, n) := (Finished(tracks, sections, pieces),
            24 + HeaderLength(sections, |tracks|) + HeaderOffset(pieces, k), Extent(|pieces[k].data|));
            && h + n <= |f| && PieceOk(tracks, pieces[k]) && f[h..h + n] == PieceBytes(tracks, pieces[k])
  {
    hide *;
    CompleteParts(tracks, sections, pieces);
    OnePieceOk(tracks, pieces, k);
    FinishedIs(tracks, sections, pieces);
    var head := FinalHead(tracks, sections, pieces);
    FinalSections(tracks, head, pieces, Standard(tracks, pieces, |head|));
    LayoutAt(tracks, pieces, k);
    Stretch(Finished(tracks, sections, pieces), |head| + 12, Layout(tracks, pieces), HeaderOffset(pieces, k),
            Extent(|pieces[k].data|));
  }

  lemma CompleteParts(tracks: seq<Track>, sections: seq<seq<Byte>>, pieces: seq<Piece>)
    requires Complete(tracks, sections, pieces)
    ensures |tracks| <= 100 && |sections| == |tracks| + 1 && PiecesOk(tracks, pieces) && NotesOk(tracks, Notes(pieces))
  {
    hide PiecesOk, NotesOk;
  }

  /** The entry of the first chunk of a track is always wrong; that of the first chunk of all leads to the type of the
      list instead. */
  lemma FirstChunkMissed(r: Reader, sections: seq<seq<Byte>>, pieces: seq<Piece>, t: nat)
    requires Opened(r, sections, pieces) && t < |r.tracks| && Own(Notes(pieces), t) != []
    ensures var (k, base) := (OwnPiece(pieces, t, 0), 24 + HeaderLength(sections, |r.tracks|));
            var place := Place(base, EntriesOf(Own(Notes(pieces), t))[0]);
            && place <= base + HeaderOffset(pieces, k) - 4
            && (k == 0 ==> place == base - 4 && base <= |r.file| && r.file[place..base] == MOVI)
  {
    hide *;
    OpenedParts(r, sections, pieces);
    FinalParts(r.tracks, sections, pieces);
    EntryPointsAtHeader(r, sections, pieces, t, 0);
    NothingBefore(pieces, Own(Notes(pieces), t));
  }

  lemma NothingBefore(pieces: seq<Piece>, own: seq<Noted>)
    ensures HeaderOffset(pieces, 0) == 0 && Longest(own[..0]) == 0
    ensures forall t :: Foreign(pieces[..0], t) == 0
  {
  }

  /** In a file of one track in which no header was left behind, only the entry of the second chunk is right. */
  lemma OnlySecondRight(r: Reader, sections: seq<seq<Byte>>, pieces: seq<Piece>, t: nat, j: nat)
    requires Opened(r, sections, pieces) && t < |r.tracks| && j < |Own(Notes(pieces), t)|
    requires forall i :: 0 <= i < |pieces| ==>
               pieces[i].indexed && pieces[i].track == t && |pieces[i].data| < DELTAFRAME - 1
    ensures var (k, base) := (OwnPiece(pieces, t, j), 24 + HeaderLength(sections, |r.tracks|));
            Place(base, EntriesOf(Own(Notes(pieces), t))[j]) == base + HeaderOffset(pieces, k) <==> j == 1
  {
    hide *;
    var k := OwnPiece(pieces, t, j);
    EntryPointsAtHeader(r, sections, pieces, t, j);
    NoneForeign(pieces[..k], t);
    OwnNote(pieces, t, k);
  }

  lemma {:induction false} NoneForeign(pieces: seq<Piece>, t: nat)
    requires forall i :: 0 <= i < |pieces| ==>
               pieces[i].indexed && pieces[i].track == t && |pieces[i].data| < DELTAFRAME - 1
    ensures Foreign(pieces, t) == 0 && Longest(Own(Notes(pieces), t)) == 0
  {
    if pieces != [] {
      var init, p := pieces[..|pieces| - 1], pieces[|pieces| - 1];
      NoneForeign(init, t);
      var n := Noted(p.track, |p.data|, p.key);
      OwnOne(Notes(init), n, t);
      LongestOne(Own(Notes(init), t), n);
      hide Own, Longest;
    }
  }

  /** The only chunk of a file with a single keyframe of one byte. */
  const SINGLE := Piece(0, [7], 1, true, true)

  const SINGLE_PACKETS := [Packet(0, [7], 0, true, true)]

  lemma SingleRun()
    ensures ForTracks([Video], SINGLE_PACKETS) && ChunksFit([Video], SINGLE_PACKETS)
    ensures Chunks([Video], SINGLE_PACKETS) == [SINGLE]
  {
    hide Chunks, ChunksFit;
    WholeFrames([Video], SINGLE_PACKETS);
    assert Frames(SINGLE_PACKETS) == [SINGLE];
  }

  /** The chunk of a packet that is a whole frame. */
  function FrameOf(p: Packet): Piece
  {
    Piece(p.track, p.data, |p.data|, p.keyframe, true)
  }

  function Frames(packets: seq<Packet>): (pieces: seq<Piece>)
    ensures |pieces| == |packets|
  {
    seq(|packets|, i requires 0 <= i < |packets| => FrameOf(packets[i]))
  }

  predicate WholeFrame(p: Packet)
  {
    p.frameSize == 0 && p.frameEnd && |p.data| < DELTAFRAME
  }

  /** Each such packet makes a chunk of its own. */
  lemma WholeChunk(tracks: seq<Track>, packets: seq<Packet>, i: nat)
    requires ForTracks(tracks, packets) && i < |packets|
    requires forall k :: 0 <= k < |packets| ==> WholeFrame(packets[k])
    ensures Start(tracks, packets, i) == i && DataSize(packets, i, i + 1) < DELTAFRAME
    ensures ChunkOf(tracks, packets, i) == [FrameOf(packets[i])]
  {
    assert EndsAt(tracks, packets, i);
    assert i > 0 ==> EndsAt(tracks, packets, i - 1);
    assert DataSize(packets, i, i) == 0 && Bytes(packets, i, i) == [];
    assert Bytes(packets, i, i + 1) == packets[i].data;
  }

  lemma {:induction false} WholeFramesUpTo(tracks: seq<Track>, packets: seq<Packet>, n: nat)
    requires ForTracks(tracks, packets) && n <= |packets|
    requires forall k :: 0 <= k < |packets| ==> WholeFrame(packets[k])
    ensures ChunksUpTo(tracks, packets, n) == Frames(packets[..n])
  {
    hide WholeFrame, FrameOf, ChunkOf;
    if n > 0 {
      WholeFramesUpTo(tracks, packets, n - 1);
      WholeChunk(tracks, packets, n - 1);
    }
  }

  lemma WholeFrames(tracks: seq<Track>, packets: seq<Packet>)
    requires ForTracks(tracks, packets) && forall i :: 0 <= i < |packets| ==> WholeFrame(packets[i])
    ensures Chunks(tracks, packets) == Frames(packets) && ChunksFit(tracks, packets)
  {
    hide WholeFrame, FrameOf, ChunkOf, Start, DataSize, Frames;
    forall i | 0 <= i < |packets| ensures DataSize(packets, Start(tracks, packets, i), i + 1) < DELTAFRAME {
      WholeChunk(tracks, packets, i);
    }
    WholeFramesUpTo(tracks, packets, |packets|);
    assert packets[..|packets|] == packets;
  }

  lemma SingleOwn()
    ensures Own(Notes([SINGLE]), 0) == [Noted(0, 1, true)]
    ensures PieceOk([Video], SINGLE) && |PieceBytes([Video], SINGLE)| == 10
    ensures PieceBytes([Video], SINGLE)[0..4] == ChunkId([Video], 0)
  {
    hide ChunkId, Le32, Own, Notes;
    var n := Noted(0, 1, true);
    assert Notes([SINGLE]) == [n] && Own([], 0) == [] by {
      SingleNotes();
    }
    OwnOne([], n, 0);
    assert [] + [n] == [n];
  }

  lemma SingleNotes()
    ensures Notes([SINGLE]) == [Noted(0, 1, true)] && Own([], 0) == []
  {
    assert [SINGLE][..0] == [] && Notes([]) == [];
  }

  /** That file: its only entry leads four bytes in front of the header. */
  lemma SingleKeyframeMissed(r: Reader, sections: seq<seq<Byte>>)
    requires r.tracks == [Video] && Opened(r, sections, [SINGLE]) && |sections| == 2
    ensures var base := 24 + HeaderLength(sections, 1);
            && Own(Notes([SINGLE]), 0) == [Noted(0, 1, true)]
            && Place(base, EntriesOf(Own(Notes([SINGLE]), 0))[0]) == base - 4
            && base + 4 <= |r.file| && r.file[base - 4..base] == MOVI && r.file[base..base + 4] == ChunkId([Video], 0)
  {
    hide *;
    SingleOwn();
    FirstChunkMissed(r, sections, [SINGLE], 0);
    EntryPointsAtHeader(r, sections, [SINGLE], 0, 0);
    NothingBefore([SINGLE], Own(Notes([SINGLE]), 0));
    Stretch(r.file, 24 + HeaderLength(sections, 1), PieceBytes([Video], SINGLE), 0, 4);
  }

  /** A seek by the super index selects from the entries of the track. */
  lemma SeekFinds(r: Reader, sections: seq<seq<Byte>>, pieces: seq<Piece>, t: nat, q: Query, pos: nat)
      returns (sel: int)
    requires Opened(r, sections, pieces) && t < |r.tracks| && q.base.den > 0 && Own(Notes(pieces), t) != []
    ensures Finds(EntriesOf(Own(Notes(pieces), t)), 24 + HeaderLength(sections, |r.tracks|), q,
                  SuperScan(r.file, r.tracks, r.superOffset[t], r.superSize[t], t, q, pos, Fresh(q.base)), sel)
  {
    hide *;
    OpenedParts(r, sections, pieces);
    var (es, base, at) := (EntriesOf(Own(Notes(pieces), t)), 24 + HeaderLength(sections, |r.tracks|),
      StandardPlace(r.tracks, sections, pieces, t));
    var c := Fresh(q.base);
    StandardFound(r, sections, pieces, t);
    forall j | 0 <= j < |es| ensures Place(base, es[j]) != 0 {
      EntryPointsAtHeader(r, sections, pieces, t, j);
    }
    sel := ScanFinds(r.file, at + 32, es, base, q, pos);
    StandardScanIs(r, sections, pieces, t, q, pos, c);
    SuperLeads(r, sections, pieces, t, q, pos, c);
    var s := StandardScan(r.file, r.tracks, at, t, q, pos, c);
    FindsSame(es, base, q, s, sel, if s.status == NotFound then Scan(NotFound, pos, q.time, s.chunk) else s);
  }

  // ---------- writing a file and seeking in it ----------

  /** The super indexes of all tracks, in headers with sections of these lengths; a chunk is taken for one if it says
      so. */
  method FindSuperIndexes(file: seq<Byte>, ghost tracks: seq<Track>, sections: seq<seq<Byte>>, ghost pieces: seq<Piece>)
      returns (offset: seq<nat>, size: seq<nat>)
    requires Complete(tracks, sections, pieces) && file == Finished(tracks, sections, pieces)
    ensures |offset| == |size| == |tracks|
    ensures |file| < 0x1_0000_0000 ==> forall t :: 0 <= t < |tracks| ==>
              offset[t] == SuperPlace(sections, t) + 8 && size[t] == 40
  {
    hide *;
    CompleteParts(tracks, sections, pieces);
    offset, size := [], [];
    var at := 12 + |sections[0]|;
    HeaderStart(sections);
    while |offset| + 1 < |sections|
      invariant |offset| == |size| < |sections| && at == 12 + HeaderLength(sections, |offset|)
      invariant |file| < 0x1_0000_0000 ==> forall t :: 0 <= t < |offset| ==>
                  offset[t] == SuperPlace(sections, t) + 8 && size[t] == 40
    {
      HeaderStep(sections, |offset|);
      at := at + |sections[|offset| + 1]|;
      if |file| < 0x1_0000_0000 {
        SuperFound(tracks, sections, pieces, |offset|);
      }
      var o, n := 0, 0;
      if at + 8 <= |file| && file[at..at + 4] == INDX {
        o, n := at + 8, Field32(file, at + 4);
      }
      offset, size := offset + [o], size + [n];
      at := at + 48;
    }
  }

  lemma HeaderStart(sections: seq<seq<Byte>>)
    requires sections != []
    ensures HeaderLength(sections, 0) == |sections[0]|
  {
  }

  lemma HeaderStep(sections: seq<seq<Byte>>, n: nat)
    requires n + 1 < |sections|
    ensures HeaderLength(sections, n + 1) == HeaderLength(sections, n) + |sections[n + 1]| + 48
    ensures SuperPlace(sections, n) == 12 + HeaderLength(sections, n) + |sections[n + 1]|
  {
  }

  /** Writes a file and opens it. */
  method OpenFinished(tracks: seq<Track>, times: seq<TimeBase>, sections: seq<seq<Byte>>, packets: seq<Packet>,
                      closing: seq<seq<Byte>>) returns (r: Reader)
    requires |tracks| <= 3 && SectionsOk(tracks, sections) && SameLengths(sections, closing)
    requires packets != [] && ForTracks(tracks, packets) && ChunksFit(tracks, packets)
    requires |times| == |tracks| && forall i :: 0 <= i < |times| ==> times[i].den > 0
    ensures fresh(r) && r.Valid() && r.Sized() && r.tracks == tracks && r.times == times
    ensures |r.file| < 0x1_0000_0000 ==> Opened(r, closing, Chunks(tracks, packets))
  {
    hide *;
    SectionCount(tracks, sections, closing);
    ghost var pieces := Chunks(tracks, packets);
    var w, indexOffset := WriteFile(tracks, sections, packets, closing);
    IsComplete(tracks, closing, pieces);
    var offset, size := FindSuperIndexes(w.file, tracks, closing, pieces);
    r := new Reader(w.file, tracks, times, w.dataOffset + 8, 0, 0, offset, size);
    if |w.file| < 0x1_0000_0000 {
      IsOpened(r, closing, pieces);
    }
  }

  lemma IsComplete(tracks: seq<Track>, sections: seq<seq<Byte>>, pieces: seq<Piece>)
    requires |tracks| <= 100 && |sections| == |tracks| + 1 && PiecesOk(tracks, pieces) && NotesOk(tracks, Notes(pieces))
    ensures Complete(tracks, sections, pieces)
  {
    hide PiecesOk, NotesOk;
  }

  lemma IsOpened(r: Reader, sections: seq<seq<Byte>>, pieces: seq<Piece>)
    requires r.Valid() && |r.superOffset| == |r.superSize| == |r.tracks| && Complete(r.tracks, sections, pieces)
    requires r.file == Finished(r.tracks, sections, pieces) && |r.file| < 0x1_0000_0000
    requires forall t :: 0 <= t < |r.tracks| ==>
               r.superOffset[t] == SuperPlace(sections, t) + 8 && r.superSize[t] == 40
    ensures Opened(r, sections, pieces)
  {
    hide Finished, PiecesOk, NotesOk;
  }

  /** A position that is taken for entry sel of the track stands for a keyframe chunk, and points at its header
      exactly if the offsets of the index happen to be right there. */
  ghost predicate NearChunk(r: Reader, sections: seq<seq<Byte>>, pieces: seq<Piece>, t: nat, sel: nat, pos: int)
    requires Complete(r.tracks, sections, pieces)
  {
    && sel < |Own(Notes(pieces), t)|
    && var k := OwnPiece(pieces, t, sel);
    var (h, other) := (24 + HeaderLength(sections, |r.tracks|) + HeaderOffset(pieces, k),
    Foreign(pieces[..k], t) + DELTAFRAME * Longest(Own(Notes(pieces), t)[..sel]));
    && PieceOk(r.tracks, pieces[k]) && pieces[k].key && h + Extent(|pieces[k].data|) <= |r.file|
    && r.file[h..h + Extent(|pieces[k].data|)] == PieceBytes(r.tracks, pieces[k])
    && pos == h + 4 * sel - 4 - other && (pos == h <==> 4 * sel == 4 + other)
  }

  lemma SelectedIsNear(r: Reader, sections: seq<seq<Byte>>, pieces: seq<Piece>, t: nat, sel: int, pos: nat)
    requires Opened(r, sections, pieces) && t < |r.tracks| && KeyAt(EntriesOf(Own(Notes(pieces), t)), sel)
    requires pos == Place(24 + HeaderLength(sections, |r.tracks|), EntriesOf(Own(Notes(pieces), t))[sel])
    ensures Complete(r.tracks, sections, pieces) && NearChunk(r, sections, pieces, t, sel, pos)
  {
    hide *;
    OpenedParts(r, sections, pieces);
    EntriesCount(Own(Notes(pieces), t), sel);
    EntryPointsAtHeader(r, sections, pieces, t, sel);
    IsNear(r, sections, pieces, t, sel, pos, OwnPiece(pieces, t, sel));
  }

  lemma EntriesCount(own: seq<Noted>, sel: int)
    requires KeyAt(EntriesOf(own), sel)
    ensures 0 <= sel < |own| && EntriesOf(own)[sel].key
  {
  }

  lemma IsNear(r: Reader, sections: seq<seq<Byte>>, pieces: seq<Piece>, t: nat, sel: nat, pos: nat, k: nat)
    requires Complete(r.tracks, sections, pieces) && sel < |Own(Notes(pieces), t)| && k == OwnPiece(pieces, t, sel)
    requires var other := Foreign(pieces[..k], t) + DELTAFRAME * Longest(Own(Notes(pieces), t)[..sel]);
             var h := 24 + HeaderLength(sections, |r.tracks|) + HeaderOffset(pieces, k);
             var n := Extent(|pieces[k].data|);
             && PieceOk(r.tracks, pieces[k]) && pieces[k].key && h + n <= |r.file|
             && r.file[h..h + n] == PieceBytes(r.tracks, pieces[k])
             && pos == h + 4 * sel - 4 - other && (pos == h <==> 4 * sel == 4 + other)
    ensures NearChunk(r, sections, pieces, t, sel, pos)
  {
    hide Own, Notes, Complete, Foreign, Longest, HeaderLength, HeaderOffset, Extent, PieceBytes, OwnPiece, PieceOk;
  }

  /** The track has a chunk to be found, or none at all. */
  ghost predicate TrackFinds(pieces: seq<Piece>, t: nat, q: Query)
    requires q.base.den > 0
  {
    var own := Own(Notes(pieces), t);
    own == [] || CanFind(EntriesOf(own), q)
  }

  /** What the scan for one track comes to in a finished file: it selects the latest keyframe up to the request (or the
      first one after it, seeking forward) from the chunks of the track and ends near the header of the selected chunk,
      at the time that the time base gives it.  For a track without any chunk the position stays unset. */
  ghost predicate SeekOutcome(r: Reader, sections: seq<seq<Byte>>, pieces: seq<Piece>, t: nat, q: Query, s: Scan,
                              unset: nat, sel: int)
    requires q.base.den > 0
  {
    && Complete(r.tracks, sections, pieces) && s.status in {Success, NotFound}
    && (s.status == Success <==> TrackFinds(pieces, t, q)) && (s.status == NotFound ==> s.time == q.time)
    && var own := Own(Notes(pieces), t);
    if own == [] then s == Scan(Success, unset, q.time, Fresh(q.base))
    else
      && Finds(EntriesOf(own), 24 + HeaderLength(sections, |r.tracks|), q, s, sel)
      && (s.status == Success ==>
            0 <= sel && NearChunk(r, sections, pieces, t, sel, s.pos) && ByRate(EntriesOf(own), q, sel, s.time))
  }

  lemma SeekComesTo(r: Reader, sections: seq<seq<Byte>>, pieces: seq<Piece>, t: nat, q: Query, unset: nat)
      returns (sel: int)
    requires Opened(r, sections, pieces) && t < |r.tracks| && q.base.den > 0
    ensures var s := SuperScan(r.file, r.tracks, r.superOffset[t], r.superSize[t], t, q, unset, Fresh(q.base));
            SeekOutcome(r, sections, pieces, t, q, s, unset, sel)
  {
    hide *;
    sel := -1;
    OpenedParts(r, sections, pieces);
    var c := Fresh(q.base);
    var s := SuperScan(r.file, r.tracks, r.superOffset[t], r.superSize[t], t, q, unset, c);
    SuperLeads(r, sections, pieces, t, q, unset, c);
    if Own(Notes(pieces), t) == [] {
      StandardScanIs(r, sections, pieces, t, q, unset, c);
      OutcomeUnset(r, sections, pieces, t, q, s, unset, sel);
    } else {
      sel := SeekFinds(r, sections, pieces, t, q, unset);
      FindsSame(EntriesOf(Own(Notes(pieces), t)), 24 + HeaderLength(sections, |r.tracks|), q, s, sel, s);
      if s.status == Success {
        EntriesCount(Own(Notes(pieces), t), sel);
        SelectedIsNear(r, sections, pieces, t, sel, s.pos);
        FoundByRate(EntriesOf(Own(Notes(pieces), t)), 24 + HeaderLength(sections, |r.tracks|), q, s, sel);
      }
      OutcomeFound(r, sections, pieces, t, q, s, unset, sel);
    }
  }

  lemma OutcomeUnset(r: Reader, sections: seq<seq<Byte>>, pieces: seq<Piece>, t: nat, q: Query, s: Scan, unset: nat,
                     sel: int)
    requires q.base.den > 0 && Complete(r.tracks, sections, pieces) && Own(Notes(pieces), t) == []
    requires s == Scan(Success, unset, q.time, Fresh(q.base))
    ensures SeekOutcome(r, sections, pieces, t, q, s, unset, sel)
  {
    hide Complete, Own, Notes, Finds, NearChunk, HeaderLength, EntriesOf, CanFind;
  }

  lemma OutcomeFound(r: Reader, sections: seq<seq<Byte>>, pieces: seq<Piece>, t: nat, q: Query, s: Scan, unset: nat,
                     sel: int)
    requires q.base.den > 0 && Complete(r.tracks, sections, pieces) && Own(Notes(pieces), t) != []
    requires Finds(EntriesOf(Own(Notes(pieces), t)), 24 + HeaderLength(sections, |r.tracks|), q, s, sel)
    requires s.status in {Success, NotFound} && (s.status == NotFound ==> s.time == q.time)
    requires s.status == Success <==> CanFind(EntriesOf(Own(Notes(pieces), t)), q)
    requires s.status == Success ==>
               && 0 <= sel && NearChunk(r, sections, pieces, t, sel, s.pos)
               && ByRate(EntriesOf(Own(Notes(pieces), t)), q, sel, s.time)
    ensures SeekOutcome(r, sections, pieces, t, q, s, unset, sel)
  {
    hide Complete, Own, Notes, Finds, NearChunk, HeaderLength, EntriesOf, CanFind, ByRate;
  }

  // ---------- all tracks ----------

  /** Whether the whole seek succeeds, and the time it comes to: the leading track has to find a chunk for the request,
      and each other track one for the time of that chunk. */
  ghost predicate SeekResult(r: Reader, sections: seq<seq<Byte>>, pieces: seq<Piece>, lead: nat, time: int,
                             forward: bool, unset: seq<nat>, status: Status, newTime: int)
    requires r.Valid() && lead < |r.tracks| == |unset|
  {
    && status in {Success, NotFound}
    && (exists s, sel ::
          SeekOutcome(r, sections, pieces, lead, Query(time, forward, r.times[lead]), s, unset[lead], sel)
          && newTime == s.time)
    && (status == Success <==>
        && TrackFinds(pieces, lead, Query(time, forward, r.times[lead]))
        && forall i :: 0 <= i < |r.tracks| && i != lead ==>
             TrackFinds(pieces, i, Query(newTime, forward, r.times[i])))
  }

  /** Chunk state and offset of a track are those that its scan comes to. */
  ghost predicate Landed(r: Reader, sections: seq<seq<Byte>>, pieces: seq<Piece>, t: nat, q: Query, unset: nat,
                         c: ChunkState, offset: int)
    requires q.base.den > 0
  {
    exists s, sel :: SeekOutcome(r, sections, pieces, t, q, s, unset, sel) && s.status == Success && c == s.chunk
                     && offset == Signed(s.pos)
  }

  /** Every track has landed. */
  ghost predicate AllLanded(r: Reader, sections: seq<seq<Byte>>, pieces: seq<Piece>, lead: nat, time: int,
                            forward: bool, unset: seq<nat>, newTime: int, chunks: seq<ChunkState>, offsets: seq<int>)
    requires r.Valid() && |r.tracks| == |unset| == |chunks| == |offsets|
  {
    forall i :: 0 <= i < |r.tracks| ==>
      Landed(r, sections, pieces, i, Query(if i == lead then time else newTime, forward, r.times[i]), unset[i],
             chunks[i], offsets[i])
  }

  /** What the super index of a track leads to in a finished file. */
  lemma TrackComesTo(r: Reader, sections: seq<seq<Byte>>, pieces: seq<Piece>, t: nat, time: int, forward: bool,
                     unset: seq<nat>) returns (sel: int)
    requires r.Valid() && Opened(r, sections, pieces) && t < |r.tracks| == |unset|
    ensures var (s, q) := (TrackScan(r, t, time, forward, unset), Query(time, forward, r.times[t]));
            && SeekOutcome(r, sections, pieces, t, q, s, unset[t], sel) && r.superOffset[t] > 0
            && s.status in {Success, NotFound} && (s.status == Success <==> TrackFinds(pieces, t, q))
  {
    hide *;
    ValidParts(r);
    OpenedParts(r, sections, pieces);
    var q := Query(time, forward, r.times[t]);
    sel := SeekComesTo(r, sections, pieces, t, q, unset[t]);
    TrackScanIs(r, t, time, forward, unset);
    OutcomeParts(r, sections, pieces, t, q, TrackScan(r, t, time, forward, unset), unset[t], sel);
  }

  lemma TrackScanIs(r: Reader, t: nat, time: int, forward: bool, unset: seq<nat>)
    requires r.Valid() && t < |r.tracks| == |unset|
    ensures var q := Query(time, forward, r.times[t]);
            TrackScan(r, t, time, forward, unset)
            == SuperScan(r.file, r.tracks, r.superOffset[t], r.superSize[t], t, q, unset[t], Fresh(q.base))
  {
    hide SuperScan;
  }

  lemma ValidParts(r: Reader)
    requires r.Valid()
    ensures |r.times| == |r.superOffset| == |r.superSize| == |r.tracks|
    ensures forall i :: 0 <= i < |r.times| ==> r.times[i].den > 0
  {
  }

  lemma OutcomeParts(r: Reader, sections: seq<seq<Byte>>, pieces: seq<Piece>, t: nat, q: Query, s: Scan, unset: nat,
                     sel: int)
    requires q.base.den > 0 && SeekOutcome(r, sections, pieces, t, q, s, unset, sel)
    ensures s.status in {Success, NotFound} && (s.status == Success <==> TrackFinds(pieces, t, q))
  {
    hide Complete, TrackFinds, Own, Notes, Finds, NearChunk, HeaderLength, EntriesOf;
  }

  lemma SeekResultIs(r: Reader, sections: seq<seq<Byte>>, pieces: seq<Piece>, lead: nat, time: int, forward: bool,
                     unset: seq<nat>, status: Status, newTime: int)
    requires r.Valid() && Opened(r, sections, pieces) && lead < |r.tracks| == |unset|
    requires SuperSeek(r, lead, time, forward, unset, status, newTime)
    ensures SeekResult(r, sections, pieces, lead, time, forward, unset, status, newTime)
  {
    hide Opened, TrackScan, SeekOutcome, TrackFinds;
    var sel := TrackComesTo(r, sections, pieces, lead, time, forward, unset);
    forall i | 0 <= i < |r.tracks|
      ensures var s := TrackScan(r, i, newTime, forward, unset);
              && r.superOffset[i] > 0 && s.status in {Success, NotFound}
              && (s.status == Success <==> TrackFinds(pieces, i, Query(newTime, forward, r.times[i])))
    {
      var other := TrackComesTo(r, sections, pieces, i, newTime, forward, unset);
    }
  }

  lemma AllLand(r: Reader, sections: seq<seq<Byte>>, pieces: seq<Piece>, lead: nat, time: int, forward: bool,
                unset: seq<nat>, newTime: int, chunks: seq<ChunkState>, offsets: seq<int>)
    requires r.Valid() && Opened(r, sections, pieces) && lead < |r.tracks| == |unset| == |chunks| == |offsets|
    requires TrackScan(r, lead, time, forward, unset).status == Success
    requires SuperPlaces(r, lead, time, forward, unset, newTime, chunks, offsets)
    ensures AllLanded(r, sections, pieces, lead, time, forward, unset, newTime, chunks, offsets)
  {
    hide Opened, TrackScan, SeekOutcome, TrackFinds, Signed;
    forall i: nat | i < |r.tracks|
      ensures Landed(r, sections, pieces, i, Query(if i == lead then time else newTime, forward, r.times[i]), unset[i],
                     chunks[i], offsets[i])
    {
      var sel := TrackComesTo(r, sections, pieces, i, if i == lead then time else newTime, forward, unset);
      assert i != lead ==> Follower(r, lead, i);
    }
  }

  lemma LeadSucceeded(r: Reader, lead: nat, time: int, forward: bool, unset: seq<nat>, newTime: int)
    requires r.Valid() && lead < |r.tracks| == |unset| && SuperSeek(r, lead, time, forward, unset, Success, newTime)
    ensures TrackScan(r, lead, time, forward, unset).status == Success
  {
    hide TrackScan;
  }

  lemma HasSuper(r: Reader, sections: seq<seq<Byte>>, pieces: seq<Piece>, t: nat)
    requires Opened(r, sections, pieces) && t < |r.tracks|
    ensures |r.superOffset| == |r.tracks| && r.superOffset[t] != 0
  {
    hide *;
    OpenedParts(r, sections, pieces);
  }

  lemma SizedParts(r: Reader)
    requires r.Sized()
    ensures |r.chunks| == |r.offsets| == |r.tracks|
  {
  }

  lemma LeadExists(tracks: seq<Track>, enabled: seq<bool>, lead: nat)
    requires |enabled| == |tracks| && Leads(tracks, enabled, lead)
    ensures lead < |tracks|
  {
  }

  method Enable(r: Reader, enabled: seq<bool>)
    requires r.Sized() && |enabled| == |r.tracks|
    modifies r`enabled
    ensures r.Sized() && r.enabled == enabled
  {
    r.enabled := enabled;
  }

  /** Writing a file and seeking in it: every track has a super index, so these are what the seek goes by. */
  method WriteThenSeek(tracks: seq<Track>, times: seq<TimeBase>, sections: seq<seq<Byte>>, packets: seq<Packet>,
                       closing: seq<seq<Byte>>, enabled: seq<bool>, time: int, forward: bool, unset: seq<nat>)
      returns (status: Status, newTime: int, r: Reader, ghost lead: nat)
    requires 0 < |tracks| <= 3 && SectionsOk(tracks, sections) && SameLengths(sections, closing)
    requires packets != [] && ForTracks(tracks, packets) && ChunksFit(tracks, packets)
    requires |times| == |tracks| && (forall i :: 0 <= i < |times| ==> times[i].den > 0)
    requires |enabled| == |unset| == |tracks|
    ensures r.tracks == tracks && r.times == times && r.Valid() && r.Sized() && Leads(tracks, enabled, lead)
    ensures |r.file| < 0x1_0000_0000 ==>
              var pieces := Chunks(tracks, packets);
              && Opened(r, closing, pieces) && KeyframesEnd(tracks, packets)
              && SeekResult(r, closing, pieces, lead, time, forward, unset, status, newTime)
              && (status == Success ==>
                    && GoesOn(r.offsets, r.offset, r.shared)
                    && AllLanded(r, closing, pieces, lead, time, forward, unset, newTime, r.chunks, r.offsets))
  {
    hide *;
    r := OpenFinished(tracks, times, sections, packets, closing);
    Enable(r, enabled);
    ValidParts(r);
    status, newTime, lead := Seek(r, time, forward, unset);
    LeadExists(tracks, enabled, lead);
    if |r.file| < 0x1_0000_0000 {
      ghost var pieces := Chunks(tracks, packets);
      AllKeyframesEnd(tracks, packets);
      HasSuper(r, closing, pieces, lead);
      SeekResultIs(r, closing, pieces, lead, time, forward, unset, status, newTime);
      if status == Success {
        SizedParts(r);
        LeadSucceeded(r, lead, time, forward, unset, newTime);
        AllLand(r, closing, pieces, lead, time, forward, unset, newTime, r.chunks, r.offsets);
      }
    }
  }

  // ---------- seeks that fail ----------

  /** A second for each chunk. */
  const SECONDS := TimeBase(0, 1, 1, 0)

  lemma EntryOfOne(n: Noted)
    ensures EntriesOf([n]) == [IndexEntry(4, n.size, n.key)]
  {
  }

  /** A keyframe at the start that is the only chunk of its track. */
  lemma OnlyKeyframe(pieces: seq<Piece>, t: nat, time: int)
    requires Own(Notes(pieces), t) == [Noted(t, 1, true)]
    ensures TrackFinds(pieces, t, Query(time, false, SECONDS)) <==> time == 0
    ensures time >= 0 ==> Latest(EntriesOf(Own(Notes(pieces), t)), SECONDS, time, 0)
  {
    hide Own, Notes, EntriesOf, CanFind, Latest;
    EntryOfOne(Noted(t, 1, true));
    BeyondLast(IndexEntry(4, 1, true), time);
  }

  lemma SingleResult(r: Reader, sections: seq<seq<Byte>>, lead: nat, time: int, unset: nat, status: Status,
                     newTime: int)
    requires r.Valid() && r.tracks == [Video] && r.times == [SECONDS] && lead == 0
    requires SeekResult(r, sections, [SINGLE], lead, time, false, [unset], status, newTime)
    ensures status in {Success, NotFound} && (status == Success <==> time == 0)
    ensures time >= 0 ==> Latest(EntriesOf(Own(Notes([SINGLE]), 0)), SECONDS, time, 0)
  {
    hide TrackFinds, SeekOutcome, Own, Notes, EntriesOf, Latest;
    SingleOwn();
    OnlyKeyframe([SINGLE], 0, time);
  }

  /** In a file of a single keyframe at the start a backward seek finds it for that time only, not for any later one. */
  method SeekBeyondLast(sections: seq<seq<Byte>>, closing: seq<seq<Byte>>, time: int, unset: nat)
      returns (status: Status, r: Reader)
    requires SectionsOk([Video], sections) && SameLengths(sections, closing)
    ensures |r.file| < 0x1_0000_0000 ==>
              && Opened(r, closing, [SINGLE]) && status in {Success, NotFound} && (status == Success <==> time == 0)
              && (time >= 0 ==> Latest(EntriesOf(Own(Notes([SINGLE]), 0)), SECONDS, time, 0))
  {
    hide *;
    SingleRun();
    SecondsOk();
    var newTime;
    ghost var lead;
    status, newTime, r, lead := WriteThenSeek([Video], [SECONDS], sections, SINGLE_PACKETS, closing, [true], time,
                                              false, [unset]);
    if |r.file| < 0x1_0000_0000 {
      LeadExists([Video], [true], lead);
      SingleResult(r, closing, lead, time, unset, status, newTime);
    }
  }

  lemma SecondsOk()
    ensures SECONDS.den > 0 && |BOTH| == 2 && SINGLE_PACKETS != [] && INTERLEAVED != []
  {
  }

  /** A video track and an audio track; two keyframes of the one and between them one chunk of the other. */
  const BOTH := [Video, Audio(false)]
  const INTERLEAVED := [Packet(0, [7], 0, true, true), Packet(1, [7], 0, true, true), Packet(0, [7], 0, true, true)]

  lemma InterleavedRun()
    ensures ForTracks(BOTH, INTERLEAVED) && ChunksFit(BOTH, INTERLEAVED)
    ensures Chunks(BOTH, INTERLEAVED) == Frames(INTERLEAVED)
  {
    hide Chunks, ChunksFit;
    WholeFrames(BOTH, INTERLEAVED);
  }

  lemma InterleavedNotes()
    ensures Notes(Frames(INTERLEAVED)) == [Noted(0, 1, true), Noted(1, 1, true), Noted(0, 1, true)]
  {
    var a, b := FrameOf(INTERLEAVED[0]), FrameOf(INTERLEAVED[1]);
    assert Frames(INTERLEAVED) == [a, b, a];
    assert [a, b, a][..2] == [a, b] && [a, b][..1] == [a] && [a][..0] == [];
    assert Notes([a]) == Notes([]) + [Noted(0, 1, true)];
    assert Notes([a, b]) == Notes([a]) + [Noted(1, 1, true)];
    assert Notes([a, b, a]) == Notes([a, b]) + [Noted(0, 1, true)];
  }

  lemma InterleavedOwn()
    ensures Own(Notes(Frames(INTERLEAVED)), 0) == [Noted(0, 1, true), Noted(0, 1, true)]
    ensures Own(Notes(Frames(INTERLEAVED)), 1) == [Noted(1, 1, true)]
  {
    InterleavedNotes();
    var a, b := Noted(0, 1, true), Noted(1, 1, true);
    assert [a, b] == [a] + [b] && [a, b, a] == [a, b] + [a];
    SingleNotes();
    assert Own([], 1) == [] && [] + [a] == [a];
    hide Own, Notes, Frames;
    OwnOne([], a, 0);
    OwnOne([], a, 1);
    OwnOne([a], b, 0);
    OwnOne([a], b, 1);
    OwnOne([a, b], a, 0);
    OwnOne([a, b], a, 1);
  }

  /** Two keyframes a second apart. */
  lemma SecondKeyframe(es: seq<IndexEntry>)
    requires |es| == 2 && es[0].key && es[1].key
    ensures CanFind(es, Query(1000000, false, SECONDS)) && KeyAt(es, 1) && TimeAt(es, SECONDS, 1) == 1000000
    ensures Latest(es, SECONDS, 1000000, 1)
  {
    hide ChunkTime;
    TimeAtStart(SECONDS);
    WholePeriod(SECONDS, 0, 0, DataBefore(es, 1));
    assert KeyAt(es, 0) && KeyAt(es, 1);
    assert TimeAt(es, SECONDS, 0) == 0 && TimeAt(es, SECONDS, 1) == 1000000;
    assert Reaches(es, SECONDS, 1000000, 1);
  }

  /** The time that a scan to the time of a keyframe comes to. */
  lemma ComesToTime(es: seq<IndexEntry>, base: nat, q: Query, s: Scan, sel: int, k: nat)
    requires q.base.den > 0 && !q.forward && Finds(es, base, q, s, sel) && CanFind(es, q)
    requires KeyAt(es, k) && TimeAt(es, q.base, k) == q.time
    ensures s.time == q.time
  {
    hide TimeAt, CanFind, Place;
  }

  lemma InterleavedResult(r: Reader, sections: seq<seq<Byte>>, lead: nat, unset: seq<nat>, status: Status,
                          newTime: int)
    requires r.Valid() && r.tracks == BOTH && r.times == [SECONDS, SECONDS] && lead == 0 && |unset| == 2
    requires SeekResult(r, sections, Frames(INTERLEAVED), lead, 1000000, false, unset, status, newTime)
    ensures status == NotFound && newTime == 1000000
    ensures Latest(EntriesOf(Own(Notes(Frames(INTERLEAVED)), 0)), SECONDS, 1000000, 1)
  {
    var pieces, q := Frames(INTERLEAVED), Query(1000000, false, SECONDS);
    InterleavedOwn();
    hide Own, Notes, Frames, CanFind, Finds, NearChunk, Latest, Complete, TimeAt, HeaderLength;
    OnlyKeyframe(pieces, 1, 1000000);
    var es := EntriesOf(Own(Notes(pieces), 0));
    SecondKeyframe(es);
    var s, sel :| SeekOutcome(r, sections, pieces, lead, q, s, unset[lead], sel) && newTime == s.time;
    CompleteParts(r.tracks, sections, pieces);
    assert TrackFinds(pieces, 0, q);
    hide EntriesOf;
    ComesToTime(es, 24 + HeaderLength(sections, 2), q, s, sel, 1);
    assert !TrackFinds(pieces, 1, Query(newTime, false, r.times[1]));
  }

  /** There a backward seek to the time of the second keyframe fails: the audio track has no chunk at that time. */
  method SeekFollowerMissing(sections: seq<seq<Byte>>, closing: seq<seq<Byte>>, unset: seq<nat>)
      returns (status: Status, r: Reader)
    requires SectionsOk(BOTH, sections) && SameLengths(sections, closing) && |unset| == 2
    ensures |r.file| < 0x1_0000_0000 ==>
              && Opened(r, closing, Frames(INTERLEAVED)) && status == NotFound
              && Latest(EntriesOf(Own(Notes(Frames(INTERLEAVED)), 0)), SECONDS, 1000000, 1)
  {
    hide *;
    InterleavedRun();
    SecondsOk();
    var newTime;
    ghost var lead;
    status, newTime, r, lead := WriteThenSeek(BOTH, [SECONDS, SECONDS], sections, INTERLEAVED, closing, [true, true],
                                              1000000, false, unset);
    if |r.file| < 0x1_0000_0000 {
      VideoLeads(lead);
      InterleavedResult(r, closing, lead, unset, status, newTime);
    }
  }

  lemma VideoLeads(lead: nat)
    requires Leads(BOTH, [true, true], lead)
    ensures lead == 0
  {
    assert IsVideo(BOTH, [true, true], 0);
  }
}
