/** The headers of an AVI file with their super indexes, and the standard indexes these point at, as written by
    containers/avi/avi_writer.c. */
module AviOpenDml {
  import opened Common
  import opened AviFormat

  const RIFF: seq<Byte> := [0x52, 0x49, 0x46, 0x46]
  const AVI_TYPE: seq<Byte> := [0x41, 0x56, 0x49, 0x20]
  const INDX: seq<Byte> := [0x69, 0x6E, 0x64, 0x78]
  const JUNK: seq<Byte> := [0x4A, 0x55, 0x4E, 0x4B]

  // ---------- standard indexes ----------

  /** The entries of one track. */
  function Own(notes: seq<Noted>, t: nat): (own: seq<Noted>)
    ensures |own| <= |notes|
  {
    if notes == [] then []
    else
      var n := notes[|notes| - 1];
      Own(notes[..|notes| - 1], t) + if n.track == t then [n] else []
  }

  lemma OwnOne(notes: seq<Noted>, n: Noted, t: nat)
    ensures Own(notes + [n], t) == if n.track == t then Own(notes, t) + [n] else Own(notes, t)
  {
    assert (notes + [n])[..|notes + [n]| - 1] == notes;
  }

  lemma OwnStep(notes: seq<Noted>, j: nat, t: nat)
    requires j < |notes|
    ensures Own(notes[..j + 1], t)
            == if notes[j].track == t then Own(notes[..j], t) + [notes[j]] else Own(notes[..j], t)
  {
    OwnOne(notes[..j], notes[j], t);
    assert notes[..j + 1] == notes[..j] + [notes[j]];
  }

  function TotalSize(notes: seq<Noted>): nat
  {
    if notes == [] then 0 else TotalSize(notes[..|notes| - 1]) + notes[|notes| - 1].size
  }

  lemma TotalOne(notes: seq<Noted>, n: Noted)
    ensures TotalSize(notes + [n]) == TotalSize(notes) + n.size
  {
    assert (notes + [n])[..|notes + [n]| - 1] == notes;
  }

  /** The size of a chunk with the delta frame bit. */
  function Word(n: Noted): nat
  {
    n.size + if n.key then 0 else DELTAFRAME
  }

  /** What the writer adds to the offset for a chunk: its even size, computed with 32 bits and without the delta frame
      bit, and 12, although the header of a chunk has 8 bytes. */
  function StandardStep(word: nat): nat
  {
    (word + 1) / 2 * 2 % DELTAFRAME + 12
  }

  /** The offset that the standard index gives for entry j of its track. */
  function OwnOffset(own: seq<Noted>, j: nat): nat
    requires j <= |own|
  {
    if j == 0 then 4 else OwnOffset(own, j - 1) + StandardStep(Word(own[j - 1]))
  }

  lemma {:induction false} OwnOffsetPrefix(a: seq<Noted>, b: seq<Noted>, j: nat)
    requires j <= |a|
    ensures OwnOffset(a + b, j) == OwnOffset(a, j)
  {
    if j > 0 {
      OwnOffsetPrefix(a, b, j - 1);
    }
  }

  function StandardEntry(n: Noted, offset: nat): (s: seq<Byte>)
    ensures |s| == 8
  {
    Le32(offset) + Le32(Word(n))
  }

  function StandardEntries(own: seq<Noted>): (s: seq<Byte>)
    ensures |s| == 8 * |own|
  {
    if own == [] then []
    else
      var k := |own| - 1;
      StandardEntries(own[..k]) + StandardEntry(own[k], OwnOffset(own, k))
  }

  lemma EntriesOne(own: seq<Noted>, n: Noted)
    ensures StandardEntries(own + [n]) == StandardEntries(own) + StandardEntry(n, OwnOffset(own, |own|))
    ensures OwnOffset(own + [n], |own| + 1) == OwnOffset(own, |own|) + StandardStep(Word(n))
  {
    hide StandardEntry, StandardStep;
    assert (own + [n])[..|own|] == own;
    OwnOffsetPrefix(own, [n], |own|);
  }

  /** Entry j of a standard index. */
  lemma {:induction false} EntriesSlice(own: seq<Noted>, j: nat)
    requires j < |own|
    ensures StandardEntries(own)[8 * j..8 * j + 8] == StandardEntry(own[j], OwnOffset(own, j))
  {
    hide StandardEntry;
    var k := |own| - 1;
    if j < k {
      EntriesSlice(own[..k], j);
      assert own == own[..k] + own[k..];
      OwnOffsetPrefix(own[..k], own[k..], j);
    }
  }

  /** The id of a standard index: ix and two digits. */
  function IndexId(t: nat): (s: seq<Byte>)
    requires t < 100
    ensures |s| == 4
  {
    [0x69, 0x78, 48 + t / 10, 48 + t % 10]
  }

  /** The fields in front of the entries: longs per entry, types, number of entries, chunk id and base offset. */
  function StandardHead(tracks: seq<Track>, t: nat, size: nat, n: nat, base: nat): (s: seq<Byte>)
    requires t < |tracks| <= 100
    ensures |s| == 32
  {
    (IndexId(t) + Le32(size)) + (Le16(2) + [0, 1] + Le32(n)) + (ChunkId(tracks, t) + Le64(base) + Le32(0))
  }

  function StandardChunk(tracks: seq<Track>, notes: seq<Noted>, t: nat, base: nat): (s: seq<Byte>)
    requires t < |tracks| <= 100
    ensures |s| == 32 + 8 * |Own(notes, t)|
  {
    var own := Own(notes, t);
    StandardHead(tracks, t, 24 + 8 * |own|, |own|, base) + StandardEntries(own)
  }

  /** The standard indexes of the first n tracks. */
  function StandardIndexes(tracks: seq<Track>, notes: seq<Noted>, base: nat, n: nat): seq<Byte>
    requires n <= |tracks| <= 100
  {
    if n == 0 then [] else StandardIndexes(tracks, notes, base, n - 1) + StandardChunk(tracks, notes, n - 1, base)
  }

  lemma IndexesOne(tracks: seq<Track>, notes: seq<Noted>, base: nat, n: nat)
    requires n <= |tracks| <= 100
    ensures StandardIndexes(tracks, notes, base, n) ==
            if n == 0 then []
            else StandardIndexes(tracks, notes, base, n - 1) + StandardChunk(tracks, notes, n - 1, base)
  {
    hide StandardChunk, Own;
  }

  lemma ChunkLength(tracks: seq<Track>, notes: seq<Noted>, t: nat, base: nat)
    requires t < |tracks| <= 100
    ensures |StandardChunk(tracks, notes, t, base)| == 32 + 8 * |Own(notes, t)|
    ensures |StandardChunk(tracks, notes, t, base)| % 2 == 0
  {
    hide *;
    EvenLength(|Own(notes, t)|);
  }

  lemma EvenLength(n: nat)
    ensures (32 + 8 * n) % 2 == 0
  {
    DivModUnique(16 + 4 * n, 0, 2);
  }

  /** No standard index needs padding. */
  lemma {:induction false} IndexesLength(tracks: seq<Track>, notes: seq<Noted>, base: nat, n: nat)
    requires n <= |tracks| <= 100
    ensures |StandardIndexes(tracks, notes, base, n)| % 2 == 0
  {
    hide *;
    IndexesOne(tracks, notes, base, n);
    if n > 0 {
      IndexesLength(tracks, notes, base, n - 1);
      ChunkLength(tracks, notes, n - 1, base);
      EvenBoth(StandardIndexes(tracks, notes, base, n - 1), StandardChunk(tracks, notes, n - 1, base));
    }
  }

  lemma EvenBoth(a: seq<Byte>, b: seq<Byte>)
    requires |a| % 2 == 0 && |b| % 2 == 0
    ensures |a + b| % 2 == 0
  {
  }

  lemma SliceOfSum(a: seq<Byte>, b: seq<Byte>, i: nat, j: nat)
    requires i <= j <= |a|
    ensures (a + b)[i..j] == a[i..j] && (a + b)[|a|..|a| + |b|] == b
  {
  }

  /** Where the standard index of a track stands among all of them. */
  lemma {:induction false} IndexesSlice(tracks: seq<Track>, notes: seq<Noted>, base: nat, t: nat, n: nat)
    requires t < n <= |tracks| <= 100
    ensures var (s, c) := (|StandardIndexes(tracks, notes, base, t)|, StandardChunk(tracks, notes, t, base));
            && s + |c| <= |StandardIndexes(tracks, notes, base, n)|
            && StandardIndexes(tracks, notes, base, n)[s..s + |c|] == c
  {
    hide *;
    var before, last := StandardIndexes(tracks, notes, base, n - 1), StandardChunk(tracks, notes, n - 1, base);
    IndexesOne(tracks, notes, base, n);
    if t < n - 1 {
      IndexesSlice(tracks, notes, base, t, n - 1);
      var s := |StandardIndexes(tracks, notes, base, t)|;
      SliceOfSum(before, last, s, s + |StandardChunk(tracks, notes, t, base)|);
    } else {
      SliceOfSum(before, last, 0, 0);
    }
  }

  // ---------- headers ----------

  /** What the super index of a track says of its only standard index. */
  datatype Super = Super(offset: nat, size: nat, duration: nat)

  /** The super index chunk; as long as there is no standard index to point at it passes for junk. */
  function SuperChunk(tracks: seq<Track>, t: nat, s: Super): (r: seq<Byte>)
    requires t < |tracks| <= 100
    ensures |r| == 48
  {
    ((if s.offset != 0 then INDX else JUNK) + Le32(40))
    + (Le16(4) + [0, 0] + Le32(1) + ChunkId(tracks, t) + Le32(0) + Le32(0) + Le32(0))
    + (Le64(s.offset) + Le32(s.size) + Le32(s.duration))
  }

  /** The header list up to track n: the main header, and for each track its stream header, format and super index. */
  function HeaderList(tracks: seq<Track>, sections: seq<seq<Byte>>, supers: seq<Super>, n: nat): (s: seq<Byte>)
    requires n <= |tracks| == |supers| <= 100 && |sections| == |tracks| + 1
  {
    if n == 0 then sections[0]
    else HeaderList(tracks, sections, supers, n - 1) + sections[n] + SuperChunk(tracks, n - 1, supers[n - 1])
  }

  /** How long the header list up to track n is. */
  function HeaderLength(sections: seq<seq<Byte>>, n: nat): nat
    requires n < |sections|
  {
    if n == 0 then |sections[0]| else HeaderLength(sections, n - 1) + |sections[n]| + 48
  }

  lemma {:induction false} HeaderListLength(tracks: seq<Track>, sections: seq<seq<Byte>>, supers: seq<Super>, n: nat)
    requires n <= |tracks| == |supers| <= 100 && |sections| == |tracks| + 1
    ensures |HeaderList(tracks, sections, supers, n)| == HeaderLength(sections, n)
  {
    hide *;
    if n > 0 {
      HeaderListLength(tracks, sections, supers, n - 1);
    }
    HeaderListOne(tracks, sections, supers, n);
    HeaderLengthOne(sections, n);
  }

  lemma HeaderListOne(tracks: seq<Track>, sections: seq<seq<Byte>>, supers: seq<Super>, n: nat)
    requires n <= |tracks| == |supers| <= 100 && |sections| == |tracks| + 1
    ensures HeaderList(tracks, sections, supers, n) ==
            if n == 0 then sections[0]
            else HeaderList(tracks, sections, supers, n - 1) + sections[n] + SuperChunk(tracks, n - 1, supers[n - 1])
  {
    hide SuperChunk;
  }

  lemma HeaderLengthOne(sections: seq<seq<Byte>>, n: nat)
    requires n < |sections|
    ensures HeaderLength(sections, n)
            == if n == 0 then |sections[0]| else HeaderLength(sections, n - 1) + |sections[n]| + 48
  {
  }

  ghost predicate SectionsOk(tracks: seq<Track>, sections: seq<seq<Byte>>)
  {
    |sections| == |tracks| + 1 && forall i :: 0 <= i < |sections| ==> |sections[i]| % 2 == 0
  }

  ghost predicate SameLengths(a: seq<seq<Byte>>, b: seq<seq<Byte>>)
  {
    |a| == |b| && forall i :: 0 <= i < |a| ==> |a[i]| == |b[i]|
  }

  lemma {:induction false} SameHeaderLength(a: seq<seq<Byte>>, b: seq<seq<Byte>>, n: nat)
    requires SameLengths(a, b) && n < |a|
    ensures HeaderLength(a, n) == HeaderLength(b, n)
  {
    if n > 0 {
      SameHeaderLength(a, b, n - 1);
    }
  }

  lemma {:induction false} EvenHeaderLength(tracks: seq<Track>, sections: seq<seq<Byte>>, n: nat)
    requires SectionsOk(tracks, sections) && n < |sections|
    ensures HeaderLength(sections, n) % 2 == 0
  {
    if n > 0 {
      EvenHeaderLength(tracks, sections, n - 1);
    }
  }

  /** Where the super index chunk of a track stands in the header list. */
  lemma {:induction false} SuperSlice(tracks: seq<Track>, sections: seq<seq<Byte>>, supers: seq<Super>, t: nat, n: nat)
    requires t < n <= |tracks| == |supers| <= 100 && |sections| == |tracks| + 1
    ensures var (h, at) := (HeaderList(tracks, sections, supers, n), HeaderLength(sections, t + 1) - 48);
            0 <= at && at + 48 <= |h| && h[at..at + 48] == SuperChunk(tracks, t, supers[t])
  {
    hide *;
    HeaderListLength(tracks, sections, supers, n - 1);
    HeaderListOne(tracks, sections, supers, n);
    HeaderLengthOne(sections, n);
    if t < n - 1 {
      SuperSlice(tracks, sections, supers, t, n - 1);
    }
  }

  /** The first twelve bytes of the file. */
  function RiffHeader(fileSize: nat): (s: seq<Byte>)
    ensures |s| == 12
  {
    RIFF + Le32(fileSize) + AVI_TYPE
  }

  /** The length of a track in the unit of its header: bytes for audio with a block alignment, else chunks. */
  function Duration(track: Track, own: seq<Noted>): nat
  {
    if track == Audio(true) then TotalSize(own) else |own|
  }

  /** The super indexes of a finished file whose standard indexes begin at start. */
  function Supers(tracks: seq<Track>, notes: seq<Noted>, base: nat, start: nat): (s: seq<Super>)
    requires |tracks| <= 100
    ensures |s| == |tracks|
  {
    seq(|tracks|, t requires 0 <= t < |tracks| =>
      Super(start + |StandardIndexes(tracks, notes, base, t)|, 16 + 8 * |Own(notes, t)|,
            Duration(tracks[t], Own(notes, t))))
  }
}
