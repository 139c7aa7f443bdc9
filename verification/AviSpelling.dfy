/** The names, flags and limits of an AVI file, spelled out: what containers/avi/avi_writer.c and
    containers/avi/avi_reader.c write and look for. */
module AviSpelling {
  import opened Common
  import opened AviFormat
  import opened AviOpenDml
  import opened AviWriter
  import opened AviReader
  import opened AviSuperIndex

  function Ascii(s: string): (r: seq<Byte>)
    requires forall i :: 0 <= i < |s| ==> s[i] as int < 128
    ensures |r| == |s|
  {
    seq(|s|, i requires 0 <= i < |s| => s[i] as int)
  }

  lemma NamesSpelled()
    ensures RIFF == Ascii("RIFF") && AVI_TYPE == Ascii("AVI ") && LIST == Ascii("LIST") && MOVI == Ascii("movi")
    ensures INDX == Ascii("indx") && JUNK == Ascii("JUNK") && IDX1 == Ascii("idx1")
  {
  }

  /** A number below 100 with two digits. */
  function TwoDigits(t: nat): (s: string)
    requires t < 100
    ensures |s| == 2
  {
    ["0123456789"[t / 10], "0123456789"[t % 10]]
  }

  lemma DigitsAre(t: nat)
    requires t < 100
    ensures Ascii(TwoDigits(t)) == [48 + t / 10, 48 + t % 10]
  {
    var digits := "0123456789";
    assert forall d :: 0 <= d < 10 ==> digits[d] as int == 48 + d;
  }

  /** The ids of the chunks of a track and of its standard index. */
  lemma IdsSpelled(tracks: seq<Track>, t: nat)
    requires t < |tracks| <= 100
    ensures ChunkId(tracks, t) == Ascii(TwoDigits(t)) + Ascii(if tracks[t].Video? then "dc" else "wb")
    ensures IndexId(t) == Ascii("ix") + Ascii(TwoDigits(t))
  {
    DigitsAre(t);
    hide TwoDigits;
    assert Ascii("dc") == [0x64, 0x63] && Ascii("wb") == [0x77, 0x62] && Ascii("ix") == [0x69, 0x78];
  }

  /** How the reader takes the id of a chunk: wb is for audio tracks, the others for video tracks. */
  lemma IdRead(tracks: seq<Track>, e: Entry, t: nat, kind: string)
    requires t < 100 && kind in ["dc", "db", "dd", "wb"] && e.id == Ascii(TwoDigits(t)) + Ascii(kind)
    ensures TrackOf(e) == t
    ensures KindOf(e) == if kind == "dc" then DC else if kind == "db" then DB else if kind == "dd" then DD else WB
    ensures TrackOk(tracks, e) <==> t < |tracks| && (kind == "wb" <==> tracks[t].Audio?)
  {
    DigitsAre(t);
    hide TwoDigits;
    assert Ascii("dc") == [0x64, 0x63] && Ascii("db") == [0x64, 0x62];
    assert Ascii("dd") == [0x64, 0x64] && Ascii("wb") == [0x77, 0x62];
    assert e.id[2..4] == Ascii(kind);
  }

  /** Whether the id in an index is for the track. */
  lemma IdFor(tracks: seq<Track>, t: nat, kind: string, track: nat)
    requires t < 100 && kind in ["dc", "db", "dd", "wb"]
    ensures IdFits(tracks, Ascii(TwoDigits(t)) + Ascii(kind), track)
            <==> t == track < |tracks| && (kind == "wb" <==> tracks[t].Audio?)
  {
    IdRead(tracks, Entry(Ascii(TwoDigits(t)) + Ascii(kind), 0, 0, 0), t, kind);
    hide Ascii, TwoDigits, TrackOk, TrackOf;
  }

  /** The flags of a legacy index entry: bit 0 for a list, bit 4 for a keyframe, bit 8 for a chunk without a time. */
  lemma FlagsRead(tracks: seq<Track>, e: Entry, list: nat, key: nat, noTime: nat)
    requires |e.id| == 4 && list < 2 && key < 2 && noTime < 2 && e.flags == list + 16 * key + 256 * noTime
    requires TrackOk(tracks, e) && KindOf(e) != DD
    ensures Timed(tracks, e) <==> list == 0 && noTime == 0
    ensures IsKey(tracks, e) <==> tracks[TrackOf(e)].Audio? || key == 1
  {
  }

  /** The writer sets the keyframe bit only; in a standard index bit 31 of the size marks all but keyframes. */
  lemma FlagsWritten(tracks: seq<Track>, n: Noted, offset: nat)
    requires n.track < |tracks| <= 100
    ensures EntryBytes(tracks, n, offset)[4..8] == [if n.key then 0x10 else 0, 0, 0, 0]
    ensures Word(n) == n.size + if n.key then 0 else 0x8000_0000
  {
    hide ChunkId;
    assert Le32(0) == [0, 0, 0, 0] && Le32(AVIIF_KEYFRAME) == [0x10, 0, 0, 0];
  }

  /** A chunk ends with its frame, or when audio with a block alignment has passed 16384 bytes. */
  lemma ChunkEnd(tracks: seq<Track>, packets: seq<Packet>, i: nat)
    requires ForTracks(tracks, packets) && i < |packets|
    ensures var size := DataSize(packets, Start(tracks, packets, i), i + 1);
            EndsAt(tracks, packets, i)
            <==> packets[i].frameEnd || (tracks[packets[i].track] == Audio(true) && size > 16384)
  {
    hide Start;
  }
}
