/** The objects of an ASF header, as containers/asf/asf_writer.c means to write them, and a reader of object sizes. */
module AsfFormat {
  import opened Common

  datatype Format = Video(width: nat, height: nat, fourcc: nat)
                  | Audio(codec: nat, channels: nat, sampleRate: nat, blockAlign: nat, bitsPerSample: nat)
                  | OtherFormat

  datatype Track = Track(format: Format, bitrate: nat, extradata: seq<Byte>)

  datatype ObjectType = Header | FileProps | StreamProps | ExtStreamProps | Data | SimpleIndex | Index | HeaderExt
                      | HeaderExtInternal

  /** What the writer was set up with. */
  datatype Setup = Setup(tracks: seq<Track>, packetSize: nat)

  function Zeros(n: nat): (s: seq<Byte>)
    ensures |s| == n
  {
    seq(n, _ => 0)
  }

  function MakeGuid(a: nat, b: nat, c: nat, d: seq<Byte>): (s: seq<Byte>)
    requires |d| == 8
    ensures |s| == 16
  {
    Le32(a) + Le16(b) + Le16(c) + d
  }

  function Guid(t: ObjectType): (s: seq<Byte>)
    ensures |s| == 16
  {
    match t
    case Header => MakeGuid(0x75B22630, 0x668E, 0x11CF, [0xA6, 0xD9, 0x00, 0xAA, 0x00, 0x62, 0xCE, 0x6C])
    case FileProps => MakeGuid(0x8CABDCA1, 0xA947, 0x11CF, [0x8E, 0xE4, 0x00, 0xC0, 0x0C, 0x20, 0x53, 0x65])
    case StreamProps => MakeGuid(0xB7DC0791, 0xA9B7, 0x11CF, [0x8E, 0xE6, 0x00, 0xC0, 0x0C, 0x20, 0x53, 0x65])
    case ExtStreamProps => MakeGuid(0x14E6A5CB, 0xC672, 0x4332, [0x83, 0x99, 0xA9, 0x69, 0x52, 0x06, 0x5B, 0x5A])
    case Data => MakeGuid(0x75B22636, 0x668E, 0x11CF, [0xA6, 0xD9, 0x00, 0xAA, 0x00, 0x62, 0xCE, 0x6C])
    case SimpleIndex => MakeGuid(0x33000890, 0xE5B1, 0x11CF, [0x89, 0xF4, 0x00, 0xA0, 0xC9, 0x03, 0x49, 0xCB])
    case Index => MakeGuid(0xD6E229D3, 0x35DA, 0x11D1, [0x90, 0x34, 0x00, 0xA0, 0xC9, 0x03, 0x49, 0xBE])
    case HeaderExt => MakeGuid(0x5FBF03B5, 0xA92E, 0x11CF, [0x8E, 0xE3, 0x00, 0xC0, 0x0C, 0x20, 0x53, 0x65])
    case HeaderExtInternal => MakeGuid(0x5FBF03B5, 0xA92E, 0x11CF, [0x8E, 0xE3, 0x00, 0xC0, 0x0C, 0x20, 0x53, 0x65])
  }

  function StreamTypeGuid(f: Format): (s: seq<Byte>)
    ensures |s| == 16
  {
    match f
    case Video(_, _, _) => MakeGuid(0xBC19EFC0, 0x5B4D, 0x11CF, [0xA8, 0xFD, 0x00, 0x80, 0x5F, 0x5C, 0x44, 0x2B])
    case Audio(_, _, _, _, _) => MakeGuid(0xF8699E40, 0x5B4D, 0x11CF, [0xA8, 0xFD, 0x00, 0x80, 0x5F, 0x5C, 0x44, 0x2B])
    case OtherFormat => Zeros(16)
  }

  function ErrorCorrectionGuid(): (s: seq<Byte>)
    ensures |s| == 16
  {
    MakeGuid(0x20FB5700, 0x5B55, 0x11CF, [0xA8, 0xFD, 0x00, 0x80, 0x5F, 0x5C, 0x44, 0x2B])
  }

  // ---------- the leaves ----------

  function FilePropsBody(packetSize: nat): seq<Byte>
  {
    Zeros(16) + Zeros(48) + Le32(0) + Le32(packetSize) + Le32(packetSize) + Le32(0)
  }

  function ExtStreamPropsBody(track: nat): seq<Byte>
  {
    Zeros(16) + Zeros(32) + Le16(track + 1) + Le16(0) + Zeros(8) + Le16(0) + Le16(0)
  }

  /** The preamble and the BITMAPINFOHEADER of a video track, or the WAVEFORMATEX of an audio track. */
  function TypeData(t: Track): seq<Byte>
  {
    var n := |t.extradata|;
    match t.format
    case Video(w, h, fourcc) =>
      (Le32(w) + Le32(h) + [0] + Le16(40 + n))
      + (Le32(40 + n) + Le32(w) + Le32(h) + Le16(0) + Le16(0) + Le32(fourcc) + Zeros(20)) + t.extradata
    case Audio(codec, channels, rate, align, bits) =>
      (Le16(codec) + Le16(channels) + Le32(rate) + Le32(t.bitrate) + Le16(align) + Le16(bits) + Le16(n)) + t.extradata
    case OtherFormat => []
  }

  /** The type-specific length as the writer computes it. */
  function TypeSize(t: Track): nat
  {
    match t.format
    case Video(_, _, _) => 11 + 40 + |t.extradata|
    case Audio(_, _, _, _, _) => 18 + |t.extradata|
    case OtherFormat => 0
  }

  /** The computed length is that of the data that follows. */
  lemma TypeSizeRight(t: Track)
    ensures |TypeData(t)| == TypeSize(t)
  {
    hide Le16, Le32, Zeros;
  }

  function StreamPropsBody(t: Track, track: nat): seq<Byte>
  {
    (StreamTypeGuid(t.format) + ErrorCorrectionGuid() + Zeros(8) + Le32(TypeSize(t)) + Le32(0) + Le16(track + 1)
     + Le32(0))
    + TypeData(t)
  }

  // ---------- the objects ----------

  /** Nested objects have a smaller rank. */
  function Rank(t: ObjectType): nat
  {
    match t
    case Header => 3
    case HeaderExt => 2
    case HeaderExtInternal => 1
    case _ => 0
  }

  /** The content of an object; track is the current track, for the per-track objects. */
  function Body(s: Setup, t: ObjectType, track: nat): seq<Byte>
    requires PerTrack(t) ==> track < |s.tracks|
    decreases Rank(t), 0
  {
    match t
    case Header =>
      (Le32(0) + [0] + [0]) + Object(s, FileProps, 0) + Object(s, HeaderExt, 0) + ForTracks(s, StreamProps, |s.tracks|)
    case HeaderExt => (Zeros(16) + Le16(0)) + Object(s, HeaderExtInternal, 0)
    case HeaderExtInternal => ForTracks(s, ExtStreamProps, |s.tracks|)
    case FileProps => FilePropsBody(s.packetSize)
    case StreamProps => StreamPropsBody(s.tracks[track], track)
    case ExtStreamProps => ExtStreamPropsBody(track)
    case Data => []
    case SimpleIndex => []
    case Index => []
  }

  predicate PerTrack(t: ObjectType)
  {
    t == StreamProps || t == ExtStreamProps
  }

  /** An object: its id, its size with the 24 bytes of id and size, its content.  The inner part of the header extension
      has only the size of its content. */
  function Object(s: Setup, t: ObjectType, track: nat): seq<Byte>
    requires PerTrack(t) ==> track < |s.tracks|
    decreases Rank(t), 1
  {
    var body := Body(s, t, track);
    if t == HeaderExtInternal then Le32(|body|) + body else Guid(t) + Le64(|body| + 24) + body
  }

  /** The objects of the first n tracks. */
  function ForTracks(s: Setup, t: ObjectType, n: nat): seq<Byte>
    requires PerTrack(t) && n <= |s.tracks|
    decreases Rank(t), 2, n
  {
    if n == 0 then [] else ForTracks(s, t, n - 1) + Object(s, t, n - 1)
  }

  // ---------- reading ----------

  datatype Parsed = Parsed(guid: seq<Byte>, body: seq<Byte>, rest: seq<Byte>) | NoObject

  /** Cuts off the object at the start of s by its size field alone. */
  function Parse(s: seq<Byte>): (p: Parsed)
    ensures p.Parsed? ==> |p.rest| < |s|
  {
    if |s| < 24 then NoObject
    else
      var size := FromLe64(s[16..24]);
      if size < 24 || size > |s| then NoObject else Parsed(s[..16], s[24..size], s[size..])
  }

  /** The ids and contents of consecutive objects. */
  function ParseAll(s: seq<Byte>): seq<(seq<Byte>, seq<Byte>)>
    decreases |s|
  {
    match Parse(s)
    case NoObject => []
    case Parsed(guid, body, rest) => [(guid, body)] + ParseAll(rest)
  }

  /** The size fields suffice to find an object and what follows it. */
  lemma ParseObject(s: Setup, t: ObjectType, track: nat, rest: seq<Byte>)
    requires (PerTrack(t) ==> track < |s.tracks|) && t != HeaderExtInternal
    requires |Body(s, t, track)| + 24 < 0x1_0000_0000_0000_0000
    ensures Parse(Object(s, t, track) + rest) == Parsed(Guid(t), Body(s, t, track), rest)
  {
    hide Body, Guid, Le64, FromLe64, Parse;
    var body := Body(s, t, track);
    Le64RoundTrip(|body| + 24);
    CutObject(Guid(t), Le64(|body| + 24), body, rest);
    assert Object(s, t, track) == Guid(t) + Le64(|body| + 24) + body;
  }

  lemma CutObject(guid: seq<Byte>, size: seq<Byte>, body: seq<Byte>, rest: seq<Byte>)
    requires |guid| == 16 && |size| == 8 && FromLe64(size) == |body| + 24
    ensures Parse((guid + size + body) + rest) == Parsed(guid, body, rest)
  {
    hide FromLe64;
    var s := (guid + size + body) + rest;
    assert s[..16] == guid && s[16..24] == size && s[24..24 + |body|] == body && s[24 + |body|..] == rest;
  }

  /** The ids and contents of the objects of the tracks from n on. */
  function TrackObjects(s: Setup, t: ObjectType, n: nat): seq<(seq<Byte>, seq<Byte>)>
    requires PerTrack(t) && n <= |s.tracks|
    decreases |s.tracks| - n
  {
    if n == |s.tracks| then [] else [(Guid(t), Body(s, t, n))] + TrackObjects(s, t, n + 1)
  }

  /** The objects of the tracks from n on. */
  function FromTrack(s: Setup, t: ObjectType, n: nat): seq<Byte>
    requires PerTrack(t) && n <= |s.tracks|
    decreases |s.tracks| - n
  {
    if n == |s.tracks| then [] else Object(s, t, n) + FromTrack(s, t, n + 1)
  }

  lemma {:induction false} TracksSplit(s: Setup, t: ObjectType, n: nat)
    requires PerTrack(t) && n <= |s.tracks|
    ensures ForTracks(s, t, n) + FromTrack(s, t, n) == ForTracks(s, t, |s.tracks|)
    decreases |s.tracks| - n
  {
    hide Object;
    if n == |s.tracks| {
      assert ForTracks(s, t, n) + [] == ForTracks(s, t, n);
    } else {
      TracksSplit(s, t, n + 1);
      ConcatAssoc(ForTracks(s, t, n), Object(s, t, n), FromTrack(s, t, n + 1));
    }
  }

  lemma NoneToParse()
    ensures ParseAll([]) == []
  {
  }

  /** Reading on from an object that starts with a size small enough to fit. */
  lemma ParseOn(s: Setup, t: ObjectType, track: nat, rest: seq<Byte>)
    requires (PerTrack(t) ==> track < |s.tracks|) && t != HeaderExtInternal
    requires |Object(s, t, track) + rest| < 0x1_0000_0000
    ensures ParseAll(Object(s, t, track) + rest) == [(Guid(t), Body(s, t, track))] + ParseAll(rest)
  {
    assert |Object(s, t, track)| == |Body(s, t, track)| + 24;
    hide Object, Body, Guid, Parse;
    ParseObject(s, t, track, rest);
  }

  lemma {:induction false} ParseTracks(s: Setup, t: ObjectType, n: nat)
    requires PerTrack(t) && n <= |s.tracks| && |FromTrack(s, t, n)| < 0x1_0000_0000
    ensures ParseAll(FromTrack(s, t, n)) == TrackObjects(s, t, n)
    decreases |s.tracks| - n
  {
    hide Object, Body, Guid, ParseAll;
    if n == |s.tracks| {
      NoneToParse();
    } else {
      ParseTracks(s, t, n + 1);
      ParseOn(s, t, n, FromTrack(s, t, n + 1));
    }
  }

  lemma ParseAllTracks(s: Setup, t: ObjectType)
    requires PerTrack(t) && |ForTracks(s, t, |s.tracks|)| < 0x1_0000_0000
    ensures ParseAll(ForTracks(s, t, |s.tracks|)) == TrackObjects(s, t, 0)
  {
    hide Object, ParseAll, TrackObjects, FromTrack;
    TracksSplit(s, t, 0);
    assert ForTracks(s, t, 0) == [];
    assert [] + FromTrack(s, t, 0) == FromTrack(s, t, 0);
    ParseTracks(s, t, 0);
  }

  /** By the size fields alone a reader finds, in the content of the header, the file properties, the header extension
      and one stream properties object for each track, each with its whole content. */
  lemma HeaderParses(s: Setup)
    requires |Body(s, Header, 0)| < 0x1_0000_0000
    ensures ParseAll(Body(s, Header, 0)[6..])
            == [(Guid(FileProps), Body(s, FileProps, 0)), (Guid(HeaderExt), Body(s, HeaderExt, 0))]
               + TrackObjects(s, StreamProps, 0)
  {
    hide Object, Body, ForTracks, ParseAll, Guid, TrackObjects;
    var (a, b, c) := (Object(s, FileProps, 0), Object(s, HeaderExt, 0), ForTracks(s, StreamProps, |s.tracks|));
    HeaderBody(s);
    ParseOn(s, FileProps, 0, b + c);
    ParseOn(s, HeaderExt, 0, c);
    ParseAllTracks(s, StreamProps);
    var x, y := (Guid(FileProps), Body(s, FileProps, 0)), (Guid(HeaderExt), Body(s, HeaderExt, 0));
    assert [x] + ([y] + TrackObjects(s, StreamProps, 0)) == [x, y] + TrackObjects(s, StreamProps, 0);
  }

  lemma HeaderBody(s: Setup)
    ensures var (a, b, c) := (Object(s, FileProps, 0), Object(s, HeaderExt, 0), ForTracks(s, StreamProps, |s.tracks|));
            Body(s, Header, 0)[6..] == a + (b + c) && |Body(s, Header, 0)| == 6 + |a| + |b| + |c|
    ensures PerTrack(StreamProps) && !PerTrack(FileProps) && !PerTrack(HeaderExt)
  {
    hide Object, ForTracks, Le32;
    HeaderCut(Le32(0) + [0] + [0], Object(s, FileProps, 0), Object(s, HeaderExt, 0), ForTracks(s, StreamProps,
            |s.tracks|));
  }

  lemma HeaderCut(h: seq<Byte>, a: seq<Byte>, b: seq<Byte>, c: seq<Byte>)
    requires |h| == 6
    ensures (h + a + b + c)[6..] == a + (b + c)
  {
  }

  /** The data size of the header extension is that of what follows it, which holds one extended stream properties
      object for each track. */
  lemma ExtensionParses(s: Setup)
    requires |Body(s, HeaderExt, 0)| < 0x1_0000_0000
    ensures var ext := Body(s, HeaderExt, 0);
            && |ext| >= 22 && FromLe32(ext[18..22]) == |ext| - 22
            && ParseAll(ext[22..]) == TrackObjects(s, ExtStreamProps, 0)
  {
    var inner := ForTracks(s, ExtStreamProps, |s.tracks|);
    assert Object(s, HeaderExtInternal, 0) == Le32(|inner|) + inner;
    Le32RoundTrip(|inner|);
    ExtensionCut(Zeros(16) + Le16(0), Le32(|inner|), inner);
    assert Body(s, HeaderExt, 0) == (Zeros(16) + Le16(0)) + (Le32(|inner|) + inner);
    hide Object, Body, ForTracks, ParseAll, Le32, FromLe32, TrackObjects;
    ParseAllTracks(s, ExtStreamProps);
  }

  lemma ExtensionCut(h: seq<Byte>, size: seq<Byte>, inner: seq<Byte>)
    requires |h| == 18 && |size| == 4
    ensures (h + (size + inner))[18..22] == size && (h + (size + inner))[22..] == inner
  {
  }

  /** A reader of the written file finds the header and the empty data object. */
  lemma FileParses(s: Setup)
    requires |Object(s, Header, 0)| + 24 < 0x1_0000_0000
    ensures ParseAll(Object(s, Header, 0) + Object(s, Data, 0))
            == [(Guid(Header), Body(s, Header, 0)), (Guid(Data), Body(s, Data, 0))]
  {
    hide Object, Body, Guid, ParseAll;
    var d := Object(s, Data, 0);
    DataObject(s);
    NoneToParse();
    ParseOn(s, Header, 0, d);
    assert d + [] == d;
    ParseOn(s, Data, 0, []);
  }

  lemma DataObject(s: Setup)
    ensures |Object(s, Data, 0)| == 24
  {
  }

  lemma ObjectIs(s: Setup, t: ObjectType, track: nat)
    requires PerTrack(t) ==> track < |s.tracks|
    ensures var body := Body(s, t, track);
            Object(s, t, track) ==
            if t == HeaderExtInternal then Le32(|body|) + body else (Guid(t) + Le64(|body| + 24)) + body
  {
    hide Body, Guid, Le32, Le64;
  }
}
