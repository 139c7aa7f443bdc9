/** What containers/asf/asf_reader.c makes of a header that containers/asf/asf_writer.c has written. */
module AsfReadBack {
  import opened Common
  import opened AsfFormat
  import opened AsfReader
  import AsfWriter

  // ---------- one track read back ----------

  /** The values fit their fields. */
  predicate Fits(t: Track)
  {
    match t.format
    case Video(w, h, fourcc) =>
      w < 0x1_0000_0000 && h < 0x1_0000_0000 && fourcc < 0x1_0000_0000 && 40 + |t.extradata| < 0x1_0000
    case Audio(codec, channels, rate, align, bits) =>
      && codec < 0x1_0000 && channels < 0x1_0000 && rate < 0x1_0000_0000 && t.bitrate < 0x1_0000_0000
      && align < 0x1_0000 && bits < 0x1_0000 && |t.extradata| < 0x1_0000
    case OtherFormat => true
  }

  /** What the reader should know of track n: all that was written, but for long extradata, which it cuts, and the bit
      rate, which the writer stores as it is and the reader takes for a number of bytes. */
  function AsRead(t: Track, n: nat): TrackInfo
  {
    var extradata := t.extradata[..Min(|t.extradata|, EXTRADATA_MAX)];
    match t.format
    case Video(_, _, _) => TrackInfo(n + 1, t.format, 0, extradata, true)
    case Audio(_, _, _, _, _) => TrackInfo(n + 1, t.format, t.bitrate * 8 % 0x1_0000_0000, extradata, true)
    case OtherFormat => NewTrack(n + 1)
  }

  lemma Kinds(f: Format)
    ensures StreamTypeGuid(f) == VIDEO_ID <==> f.Video?
    ensures StreamTypeGuid(f) == AUDIO_ID <==> f.Audio?
  {
    assert VIDEO_ID[0] != AUDIO_ID[0] && VIDEO_ID[0] > 0 && AUDIO_ID[0] > 0 && Zeros(16)[0] == 0;
    VideoId();
    AudioId();
    hide MakeGuid, Zeros, VIDEO_ID, AUDIO_ID;
  }

  lemma VideoId()
    ensures MakeGuid(0xBC19EFC0, 0x5B4D, 0x11CF, [0xA8, 0xFD, 0x00, 0x80, 0x5F, 0x5C, 0x44, 0x2B]) == VIDEO_ID
  {
    assert Le32(0xBC19EFC0) == [0xC0, 0xEF, 0x19, 0xBC];
  }

  lemma AudioId()
    ensures MakeGuid(0xF8699E40, 0x5B4D, 0x11CF, [0xA8, 0xFD, 0x00, 0x80, 0x5F, 0x5C, 0x44, 0x2B]) == AUDIO_ID
  {
    assert Le32(0xF8699E40) == [0x40, 0x9E, 0x69, 0xF8];
  }

  lemma At32(s: seq<Byte>, at: nat, v: nat)
    requires at + 4 <= |s| && s[at..at + 4] == Le32(v) && v < 0x1_0000_0000
    ensures Field32(s, at) == v
  {
    hide Le32, FromLe32;
    Le32RoundTrip(v);
  }

  lemma At16(s: seq<Byte>, at: nat, v: nat)
    requires at + 2 <= |s| && s[at..at + 2] == Le16(v) && v < 0x1_0000
    ensures Field16(s, at) == v
  {
    hide Le16, FromLe16;
    Le16RoundTrip(v);
  }

  /** The fields of the BITMAPINFOHEADER, and of the preamble, which repeats width and height. */
  lemma VideoFields(t: Track)
    requires t.format.Video?
    ensures var (d, n) := (TypeData(t), |t.extradata|);
            && |d| == 51 + n && d[..4] == Le32(t.format.width) && d[4..8] == Le32(t.format.height)
            && d[9..11] == Le16(40 + n) && d[11..15] == Le32(40 + n) && d[15..19] == Le32(t.format.width)
            && d[19..23] == Le32(t.format.height) && d[27..31] == Le32(t.format.fourcc) && d[51..] == t.extradata
  {
    hide Le16, Le32, Zeros;
    var (w, h, n) := (Le32(t.format.width), Le32(t.format.height), |t.extradata|);
    var (a, b) := (w + h + [0] + Le16(40 + n),
                   Le32(40 + n) + w + h + Le16(0) + Le16(0) + Le32(t.format.fourcc) + Zeros(20));
    assert a[..4] == w && a[4..8] == h && a[9..11] == Le16(40 + n);
    assert b[..4] == Le32(40 + n) && b[4..8] == w && b[8..12] == h && b[16..20] == Le32(t.format.fourcc);
    Parts(a, b, t.extradata);
  }

  /** Stretches of a concatenation lie where they lay. */
  lemma Parts(a: seq<Byte>, b: seq<Byte>, c: seq<Byte>)
    ensures forall i: nat, j :: i <= j <= |a| ==> (a + b + c)[i..j] == a[i..j]
    ensures forall i: nat, j :: i <= j <= |b| ==> (a + b + c)[|a| + i..|a| + j] == b[i..j]
    ensures (a + b + c)[|a| + |b|..] == c
  {
  }

  /** The BITMAPINFOHEADER of a track is read back. */
  lemma VideoRead(t: Track, n: nat)
    requires t.format.Video? && Fits(t)
    ensures ReadVideo(NewTrack(n + 1), TypeData(t)) == AsRead(t, n)
  {
    VideoFields(t);
    var (d, k) := (TypeData(t), 40 + |t.extradata|);
    hide TypeData, Le16, Le32, Field16, Field32;
    At16(d, 9, k);
    At32(d, 11, k);
    At32(d, 15, t.format.width);
    At32(d, 19, t.format.height);
    At32(d, 27, t.format.fourcc);
    assert d[51..51 + Min(k - 40, EXTRADATA_MAX)] == t.extradata[..Min(|t.extradata|, EXTRADATA_MAX)];
  }

  /** The WAVEFORMATEX of a track is read back, with eight times the bit rate. */
  lemma AudioRead(t: Track, n: nat)
    requires t.format.Audio? && Fits(t)
    ensures ReadAudio(NewTrack(n + 1), TypeData(t)) == AsRead(t, n)
  {
    var f := t.format;
    var d := TypeData(t);
    hide Le16, Le32, FromLe16, FromLe32;
    assert d[0..2] == Le16(f.codec) && d[2..4] == Le16(f.channels) && d[4..8] == Le32(f.sampleRate);
    assert d[8..12] == Le32(t.bitrate) && d[12..14] == Le16(f.blockAlign) && d[14..16] == Le16(f.bitsPerSample);
    assert d[16..18] == Le16(|t.extradata|) && d[18..] == t.extradata;
    At16(d, 0, f.codec);
    At16(d, 2, f.channels);
    At32(d, 4, f.sampleRate);
    At32(d, 8, t.bitrate);
    At16(d, 12, f.blockAlign);
    At16(d, 14, f.bitsPerSample);
    At16(d, 16, |t.extradata|);
    assert d[18..18 + Min(|t.extradata|, EXTRADATA_MAX)] == t.extradata[..Min(|t.extradata|, EXTRADATA_MAX)];
  }

  /** The content of a stream properties object in front of the type-specific data. */
  lemma PropsFields(t: Track, n: nat)
    requires n + 1 < 0x1_0000 && TypeSize(t) < 0x1_0000_0000
    ensures var b := StreamPropsBody(t, n);
            && |b| == 54 + TypeSize(t) && b[..16] == StreamTypeGuid(t.format) && Field32(b, 40) == TypeSize(t)
            && Field16(b, 48) == n + 1 && b[54..] == TypeData(t)
  {
    TypeSizeRight(t);
    hide TypeSize, TypeData, Le16, Le32, FromLe16, FromLe32, Zeros, StreamTypeGuid, ErrorCorrectionGuid;
    var b := StreamPropsBody(t, n);
    assert b[40..44] == Le32(TypeSize(t)) && b[48..50] == Le16(n + 1);
    At32(b, 40, TypeSize(t));
    At16(b, 48, n + 1);
  }

  lemma SizeFits(t: Track)
    requires Fits(t)
    ensures TypeSize(t) < 0x1_0000_0000
  {
  }

  lemma KnownCreated(tracks: seq<TrackInfo>, id: nat)
    requires PlaceOf(tracks, id) < |tracks|
    ensures Created(tracks, id) == tracks
  {
  }

  lemma PlacedIs(tracks: seq<TrackInfo>, i: nat, kind: seq<Byte>, d: seq<Byte>)
    requires i < |tracks|
    ensures Placed(tracks, i, kind, d) == tracks[i := ReadTyped(tracks[i], kind, d)]
  {
  }

  /** Stream properties of a kind that the reader knows go to the track with their stream number. */
  lemma PropsPlaced(tracks: seq<TrackInfo>, b: seq<Byte>, i: nat)
    requires |b| >= 54 && Field32(b, 40) == |b| - 54 && (b[..16] == VIDEO_ID || b[..16] == AUDIO_ID)
    requires 0 < Field16(b, 48) < 128 && i == PlaceOf(tracks, Field16(b, 48)) < |tracks|
    ensures ReadStreamProps(tracks, b)
            == tracks[i := ReadTyped(tracks[i], b[..16], b[54..])]
  {
    hide PlaceOf, Created, Placed, VIDEO_ID, AUDIO_ID, ReadTyped, Field16, Field32;
    var (size, id) := (Field32(b, 40), Field16(b, 48));
    assert id % 128 == id && b[54..54 + size] == b[54..];
    assert ReadStreamProps(tracks, b) == Placed(Created(tracks, id), i, b[..16], b[54..]);
    KnownCreated(tracks, id);
    PlacedIs(tracks, i, b[..16], b[54..]);
  }

  /** Stream properties of another kind, or of a track for which there is no room, are passed over. */
  lemma PropsPassed(tracks: seq<TrackInfo>, b: seq<Byte>)
    requires |b| >= 54 && Field16(b, 48) < 128
    requires (b[..16] != VIDEO_ID && b[..16] != AUDIO_ID) || PlaceOf(tracks, Field16(b, 48)) == |tracks| >= TRACKS_MAX
    ensures ReadStreamProps(tracks, b) == tracks
  {
    hide PlaceOf, VIDEO_ID, AUDIO_ID, ReadTyped, Field16, Field32;
    var id := Field16(b, 48);
    assert id % 128 == id;
    if PlaceOf(tracks, id) == |tracks| >= TRACKS_MAX {
      assert Created(tracks, id) == tracks;
    }
  }

  /** The type-specific data of a track is read back. */
  lemma TypedRead(t: Track, n: nat)
    requires Fits(t)
    ensures t.format != OtherFormat
            ==> ReadTyped(NewTrack(n + 1), StreamTypeGuid(t.format), TypeData(t)) == AsRead(t, n)
    ensures t.format == OtherFormat ==> AsRead(t, n) == NewTrack(n + 1)
  {
    Kinds(t.format);
    hide StreamTypeGuid, TypeData, AUDIO_ID, VIDEO_ID, ReadVideo, ReadAudio, Fits;
    if t.format.Video? {
      VideoRead(t, n);
    } else if t.format.Audio? {
      AudioRead(t, n);
    }
  }

  /** Reading the stream properties of track n, for which there is a new track in the list. */
  lemma StreamRead(tracks: seq<TrackInfo>, t: Track, n: nat)
    requires Fits(t) && n + 1 < 128
    requires var i := PlaceOf(tracks, n + 1); i < |tracks| && tracks[i] == NewTrack(n + 1)
    ensures ReadStreamProps(tracks, StreamPropsBody(t, n)) == tracks[PlaceOf(tracks, n + 1) := AsRead(t, n)]
  {
    hide *;
    SizeFits(t);
    PropsFields(t, n);
    Kinds(t.format);
    var (b, i) := (StreamPropsBody(t, n), PlaceOf(tracks, n + 1));
    TypedRead(t, n);
    if t.format == OtherFormat {
      PropsPassed(tracks, b);
    } else {
      PropsPlaced(tracks, b, i);
    }
  }

  /** A track for which there is no room is passed over. */
  lemma StreamPassed(tracks: seq<TrackInfo>, t: Track, n: nat)
    requires Fits(t) && n + 1 < 128 && PlaceOf(tracks, n + 1) == |tracks| >= TRACKS_MAX
    ensures ReadStreamProps(tracks, StreamPropsBody(t, n)) == tracks
  {
    hide *;
    SizeFits(t);
    PropsFields(t, n);
    PropsPassed(tracks, StreamPropsBody(t, n));
  }

  lemma ExtStreamRead(n: nat)
    requires n + 1 < 128
    ensures |ExtStreamPropsBody(n)| == 64 && Field16(ExtStreamPropsBody(n), 48) % 128 == n + 1
  {
    hide Le16, FromLe16, Zeros;
    var b := ExtStreamPropsBody(n);
    assert b[48..50] == Le16(n + 1);
    At16(b, 48, n + 1);
  }

  lemma FileRead(packetSize: nat)
    requires packetSize < 0x1_0000_0000
    ensures |FilePropsBody(packetSize)| == 80 && Field32(FilePropsBody(packetSize), 68) == packetSize
  {
    hide Le32, FromLe32, Zeros;
    var b := FilePropsBody(packetSize);
    assert b[68..72] == Le32(packetSize);
    At32(b, 68, packetSize);
  }

  // ---------- a written header read back ----------

  lemma TopIds()
    ensures Guid(Header) == HEADER_ID && Guid(AsfFormat.Data) == DATA_ID
  {
    assert Le32(0x75B22630) == [0x30, 0x26, 0xB2, 0x75] && Le32(0x75B22636) == [0x36, 0x26, 0xB2, 0x75];
  }

  lemma FileId()
    ensures Guid(FileProps) == FILE_ID
  {
    assert Le32(0x8CABDCA1) == [0xA1, 0xDC, 0xAB, 0x8C];
  }

  lemma StreamId()
    ensures Guid(StreamProps) == STREAM_ID
  {
    assert Le32(0xB7DC0791) == [0x91, 0x07, 0xDC, 0xB7];
  }

  lemma ExtStreamId()
    ensures Guid(ExtStreamProps) == EXT_STREAM_ID
  {
    assert Le32(0x14E6A5CB) == [0xCB, 0xA5, 0xE6, 0x14];
  }

  lemma HeaderExtId()
    ensures Guid(HeaderExt) == HEADER_EXT_ID
  {
    assert Le32(0x5FBF03B5) == [0xB5, 0x03, 0xBF, 0x5F];
  }

  lemma DistinctIds()
    ensures FILE_ID != STREAM_ID && FILE_ID != EXT_STREAM_ID && FILE_ID != HEADER_EXT_ID
    ensures STREAM_ID != EXT_STREAM_ID && STREAM_ID != HEADER_EXT_ID && EXT_STREAM_ID != HEADER_EXT_ID
  {
    assert FILE_ID[0] != STREAM_ID[0] && FILE_ID[0] != EXT_STREAM_ID[0] && FILE_ID[0] != HEADER_EXT_ID[0];
    assert STREAM_ID[0] != EXT_STREAM_ID[0] && STREAM_ID[0] != HEADER_EXT_ID[0];
    assert EXT_STREAM_ID[0] != HEADER_EXT_ID[0];
  }

  /** Reading objects one after the other. */
  function Fold(info: Info, objects: seq<(seq<Byte>, seq<Byte>)>): Info
    decreases |objects|
  {
    if objects == [] then info
    else
      var (next, ok) := ReadObject(info, objects[0].0, objects[0].1);
      if ok then Fold(next, objects[1..]) else next
  }

  /** In a header of less than 2^29 bytes the reader comes to exactly the objects that the sizes delimit. */
  lemma {:induction false} ReadsParsed(info: Info, s: seq<Byte>)
    requires |s| <= OBJECT_MAX
    ensures ReadObjects(info, s).0 == Fold(info, ParseAll(s))
    decreases |s|
  {
    hide ReadObject, FromLe64;
    if Parse(s).Parsed? {
      var p := Parse(s);
      var (next, ok) := ReadObject(info, p.guid, p.body);
      assert ([(p.guid, p.body)] + ParseAll(p.rest))[1..] == ParseAll(p.rest);
      if ok {
        ReadsParsed(next, p.rest);
      }
    }
  }

  lemma FoldOne(info: Info, id: seq<Byte>, b: seq<Byte>, more: seq<(seq<Byte>, seq<Byte>)>)
    ensures var (next, ok) := ReadObject(info, id, b);
            Fold(info, [(id, b)] + more) == if ok then Fold(next, more) else next
  {
    hide ReadObject;
    assert ([(id, b)] + more)[1..] == more;
  }

  /** The writer's limit on tracks, and values that fit. */
  ghost predicate AllFit(s: Setup)
  {
    |s.tracks| <= 16 && s.packetSize < 0x1_0000_0000
    && forall n {:trigger s.tracks[n]} :: 0 <= n < |s.tracks| ==> Fits(s.tracks[n])
  }

  /** The tracks that the reader has room for, the first n of them read. */
  function Known(s: Setup, n: nat): (tracks: seq<TrackInfo>)
    ensures |tracks| == Min(|s.tracks|, TRACKS_MAX)
  {
    seq(Min(|s.tracks|, TRACKS_MAX), k requires 0 <= k < |s.tracks| =>
      if k < n then AsRead(s.tracks[k], k) else NewTrack(k + 1))
  }

  /** What the reader should get from a written header. */
  function ReadBack(s: Setup): Info
  {
    Info(s.packetSize, Known(s, |s.tracks|))
  }

  /** The first n tracks, as many as there is room for, with nothing read of them yet. */
  function Fresh(s: Setup, n: nat): (tracks: seq<TrackInfo>)
    requires n <= |s.tracks|
    ensures |tracks| == Min(n, TRACKS_MAX)
  {
    seq(Min(n, TRACKS_MAX), k requires 0 <= k => NewTrack(k + 1))
  }

  lemma {:induction false} PlaceIs(tracks: seq<TrackInfo>, id: nat, i: nat)
    requires i <= |tracks| && (i < |tracks| ==> tracks[i].id == id) && forall k :: 0 <= k < i ==> tracks[k].id != id
    ensures PlaceOf(tracks, id) == i
  {
    if i > 0 {
      PlaceIs(tracks[1..], id, i - 1);
    }
  }

  lemma ReadExtObject(info: Info, s: Setup, n: nat)
    requires n < |s.tracks| <= 16 && PerTrack(ExtStreamProps)
    ensures ReadObject(info, Guid(ExtStreamProps), Body(s, ExtStreamProps, n))
            == (info.(tracks := Created(info.tracks, n + 1)), true)
  {
    ExtStreamId();
    DistinctIds();
    ExtStreamRead(n);
    hide Guid, FILE_ID, STREAM_ID, EXT_STREAM_ID, HEADER_EXT_ID, ExtStreamPropsBody, ReadStreamProps, Field16, Field32;
  }

  lemma ReadStreamObject(info: Info, s: Setup, n: nat)
    requires n < |s.tracks| && AllFit(s) && PerTrack(StreamProps)
    ensures ReadObject(info, Guid(StreamProps), Body(s, StreamProps, n))
            == (info.(tracks := ReadStreamProps(info.tracks, StreamPropsBody(s.tracks[n], n))), true)
  {
    StreamId();
    DistinctIds();
    SizeFits(s.tracks[n]);
    PropsFields(s.tracks[n], n);
    hide Guid, FILE_ID, STREAM_ID, EXT_STREAM_ID, HEADER_EXT_ID, StreamPropsBody, ReadStreamProps, Field16, Field32;
  }

  /** The header extension makes the tracks known, as many as there is room for. */
  lemma {:induction false} ExtensionFolds(s: Setup, n: nat, packetSize: nat)
    requires n <= |s.tracks| <= 16 && PerTrack(ExtStreamProps)
    ensures Fold(Info(packetSize, Fresh(s, n)), TrackObjects(s, ExtStreamProps, n))
            == Info(packetSize, Fresh(s, |s.tracks|))
    decreases |s.tracks| - n
  {
    hide Guid, Body, Created, ReadObject, Fresh;
    if n < |s.tracks| {
      var info := Info(packetSize, Fresh(s, n));
      FoldOne(info, Guid(ExtStreamProps), Body(s, ExtStreamProps, n), TrackObjects(s, ExtStreamProps, n + 1));
      ReadExtObject(info, s, n);
      FreshCreated(s, n);
      ExtensionFolds(s, n + 1, packetSize);
    }
  }

  lemma FreshCreated(s: Setup, n: nat)
    requires n < |s.tracks|
    ensures Created(Fresh(s, n), n + 1) == Fresh(s, n + 1)
  {
    PlaceIs(Fresh(s, n), n + 1, Min(n, TRACKS_MAX));
  }

  /** The stream properties fill them in. */
  lemma {:induction false} StreamsFold(s: Setup, n: nat, packetSize: nat)
    requires n <= |s.tracks| && AllFit(s) && PerTrack(StreamProps)
    ensures Fold(Info(packetSize, Known(s, n)), TrackObjects(s, StreamProps, n))
            == Info(packetSize, Known(s, |s.tracks|))
    decreases |s.tracks| - n
  {
    hide Guid, Body, ReadObject, Known, ReadStreamProps, StreamPropsBody, Fits;
    if n < |s.tracks| {
      var info := Info(packetSize, Known(s, n));
      FoldOne(info, Guid(StreamProps), Body(s, StreamProps, n), TrackObjects(s, StreamProps, n + 1));
      ReadStreamObject(info, s, n);
      KnownRead(s, n);
      StreamsFold(s, n + 1, packetSize);
    }
  }

  lemma AsReadId(t: Track, n: nat)
    ensures AsRead(t, n).id == n + 1
  {
  }

  lemma KnownPlace(s: Setup, n: nat)
    requires n < |s.tracks|
    ensures PlaceOf(Known(s, n), n + 1) == Min(n, |Known(s, n)|)
  {
    forall k | 0 <= k < |Known(s, n)| ensures Known(s, n)[k].id == k + 1 {
      AsReadId(s.tracks[k], k);
    }
    PlaceIs(Known(s, n), n + 1, Min(n, |Known(s, n)|));
  }

  lemma KnownRead(s: Setup, n: nat)
    requires n < |s.tracks| && AllFit(s)
    ensures ReadStreamProps(Known(s, n), StreamPropsBody(s.tracks[n], n)) == Known(s, n + 1)
  {
    hide ReadStreamProps, StreamPropsBody, Fits;
    KnownPlace(s, n);
    hide PlaceOf;
    if n < TRACKS_MAX {
      StreamRead(Known(s, n), s.tracks[n], n);
      assert Known(s, n)[n := AsRead(s.tracks[n], n)] == Known(s, n + 1);
    } else {
      StreamPassed(Known(s, n), s.tracks[n], n);
      assert Known(s, n) == Known(s, n + 1);
    }
  }

  lemma ReadHeaderExt(info: Info, s: Setup)
    requires |s.tracks| <= 16 && info.tracks == [] && |Body(s, HeaderExt, 0)| <= OBJECT_MAX && PerTrack(ExtStreamProps)
    ensures ReadObject(info, Guid(HeaderExt), Body(s, HeaderExt, 0))
            == (Info(info.packetSize, Fresh(s, |s.tracks|)), true)
  {
    HeaderExtId();
    DistinctIds();
    hide Guid, FILE_ID, STREAM_ID, EXT_STREAM_ID, HEADER_EXT_ID, Body, ReadObjects, Fold, ParseAll, ReadStreamProps,
         TrackObjects;
    ExtensionParses(s);
    ReadsParsed(info, Body(s, HeaderExt, 0)[22..]);
    ExtensionFolds(s, 0, info.packetSize);
    assert Fresh(s, 0) == [];
  }

  lemma ReadFileObject(s: Setup)
    requires s.packetSize < 0x1_0000_0000
    ensures ReadObject(Info(0, []), Guid(FileProps), Body(s, FileProps, 0)) == (Info(s.packetSize, []), true)
  {
    FileId();
    FileRead(s.packetSize);
    hide Guid, FILE_ID, FilePropsBody, Field32;
  }

  /** From the header that was written the reader gets the packet size and, for as many tracks as it has room for, all
      that was written of them. */
  lemma HeaderRead(s: Setup)
    requires AllFit(s) && |Body(s, Header, 0)| <= OBJECT_MAX
    ensures ReadObjects(Info(0, []), Body(s, Header, 0)[6..]).0 == ReadBack(s)
  {
    HeaderBody(s);
    ExtWithin(s);
    hide Guid, Body, ReadObject, ReadObjects, Fold, ParseAll, TrackObjects, Known, Object, ForTracks, Fits;
    ReadsParsed(Info(0, []), Body(s, Header, 0)[6..]);
    HeaderParses(s);
    var more := TrackObjects(s, StreamProps, 0);
    var (x, y) := ((Guid(FileProps), Body(s, FileProps, 0)), (Guid(HeaderExt), Body(s, HeaderExt, 0)));
    assert [x, y] + more == [x] + ([y] + more);
    FoldOne(Info(0, []), x.0, x.1, [y] + more);
    ReadFileObject(s);
    FoldOne(Info(s.packetSize, []), y.0, y.1, more);
    ReadHeaderExt(Info(s.packetSize, []), s);
    FreshIsKnown(s);
    StreamsFold(s, 0, s.packetSize);
  }

  lemma ExtWithin(s: Setup)
    ensures |Body(s, HeaderExt, 0)| <= |Body(s, Header, 0)|
  {
    HeaderBody(s);
    ObjectIs(s, HeaderExt, 0);
    hide Body, Object, Guid;
  }

  lemma FreshIsKnown(s: Setup)
    ensures Fresh(s, |s.tracks|) == Known(s, 0)
  {
  }

  /** Opening a header with content b and a data object that gives its size as v. */
  lemma OpenCut(b: seq<Byte>, v: nat, rest: seq<Byte>)
    requires 6 <= |b| <= OBJECT_MAX - 24 && v < 0x1_0000_0000_0000_0000
    ensures var info := ReadObjects(Info(0, []), b[6..]).0;
            Open((HEADER_ID + Le64(|b| + 24) + b) + ((DATA_ID + Le64(v)) + rest))
            == (info, if info.tracks == [] then NoTrackAvailable else if DataSizeBad(v) then FormatInvalid else Success)
  {
    hide ReadObjects, Le64, FromLe64, DataSizeBad;
    Le64RoundTrip(|b| + 24);
    Le64RoundTrip(v);
    var (h, d) := (HEADER_ID + Le64(|b| + 24) + b, (DATA_ID + Le64(v)) + rest);
    var file := h + d;
    assert file[..16] == HEADER_ID && file[16..24] == Le64(|b| + 24) && file[30..|b| + 24] == b[6..];
    assert file[|b| + 24..] == d && d[..16] == DATA_ID && d[16..24] == Le64(v);
  }

  /** A file that starts with a written header is opened if it has a track and its data object gives no size or one
      that is large enough for its fields. */
  lemma HeaderOpened(s: Setup, v: nat, rest: seq<Byte>)
    requires AllFit(s) && |Body(s, Header, 0)| + 24 <= OBJECT_MAX && v < 0x1_0000_0000_0000_0000
    ensures Open(Object(s, Header, 0) + ((Guid(AsfFormat.Data) + Le64(v)) + rest))
            == (ReadBack(s), if s.tracks == [] then NoTrackAvailable
                             else if v == 0 || 24 + 26 <= v < 0x8000_0000_0000_0000 then Success else FormatInvalid)
  {
    hide Guid, Object, Body, Open, ReadObjects, HEADER_ID, DATA_ID, AllFit, Le64;
    TopIds();
    HeaderBody(s);
    ObjectIs(s, Header, 0);
    OpenCut(Body(s, Header, 0), v, rest);
    HeaderRead(s);
  }

  /** The file that the writer leaves behind is refused: the size of its data object leaves out the object's own
      fields. */
  lemma FileOpened(s: Setup)
    requires AllFit(s) && |Body(s, Header, 0)| + 24 <= OBJECT_MAX
    ensures Open(Object(s, Header, 0) + Object(s, AsfFormat.Data, 0))
            == (ReadBack(s), if s.tracks == [] then NoTrackAvailable else FormatInvalid)
  {
    hide Guid, Open, ReadBack, AllFit, Le64;
    var d := Guid(AsfFormat.Data) + Le64(24);
    assert d + [] == d;
    ObjectIs(s, AsfFormat.Data, 0);
    HeaderOpened(s, 24, []);
  }

  // ---------- what is read back as it was ----------

  /** All that is known of the track, as it was set up. */
  function AsSet(t: Track, n: nat): TrackInfo
  {
    TrackInfo(n + 1, t.format, t.bitrate, t.extradata, true)
  }

  /** The bit rate is stored where the reader expects a number of bytes. */
  lemma EightfoldRate(b: nat)
    requires b < 0x1_0000_0000
    ensures b * 8 % 0x1_0000_0000 == b <==> b == 0
  {
    var k := b * 8 / 0x1_0000_0000;
    assert 0 <= k < 8;
    if b * 8 % 0x1_0000_0000 == b {
      assert b * 7 == k * 0x1_0000_0000;
      assert k == 0 || k == 1 || k == 2 || k == 3 || k == 4 || k == 5 || k == 6 || k == 7;
    }
  }

  /** Exactly these tracks are read back as they were set up. */
  lemma AsSetExactly(t: Track, n: nat)
    requires Fits(t)
    ensures AsRead(t, n) == AsSet(t, n)
            <==> t.format != OtherFormat && |t.extradata| <= 256 && t.bitrate == 0
  {
    if t.format.Audio? {
      EightfoldRate(t.bitrate);
    }
    assert t.extradata[..Min(|t.extradata|, EXTRADATA_MAX)] == t.extradata <==> |t.extradata| <= EXTRADATA_MAX;
  }

  /** Exactly these headers are read back as they were set up. */
  lemma HeaderAsSet(s: Setup)
    requires AllFit(s)
    ensures ReadBack(s) == Info(s.packetSize, seq(|s.tracks|, k requires 0 <= k < |s.tracks| => AsSet(s.tracks[k], k)))
            <==> (&& |s.tracks| <= 2
                  && forall t :: t in s.tracks ==> t.format != OtherFormat && |t.extradata| <= 256 && t.bitrate == 0)
  {
    hide AsRead, AsSet, Fits;
    var all := seq(|s.tracks|, k requires 0 <= k < |s.tracks| => AsSet(s.tracks[k], k));
    var known := Known(s, |s.tracks|);
    forall k | 0 <= k < |s.tracks| {
      AsSetExactly(s.tracks[k], k);
    }
    if |s.tracks| <= TRACKS_MAX {
      assert forall k :: 0 <= k < |s.tracks| ==> known[k] == AsRead(s.tracks[k], k) && all[k] == AsSet(s.tracks[k], k);
    }
  }

  /** All else in the objects is zero, but for the second packet size and the kind of error correction. */
  lemma ElseZero(n: nat, packetSize: nat)
    ensures var b := FilePropsBody(packetSize);
            b[..68] == Zeros(68) && b[68..72] == b[72..76] && b[76..] == Zeros(4)
    ensures var b := ExtStreamPropsBody(n);
            |b| == 64 && b[..48] == Zeros(48) && b[50..] == Zeros(14)
  {
    assert Le16(0) == Zeros(2) && Le32(0) == Zeros(4);
    hide Le16, Le32;
  }

  /** The id for no error correction. */
  const NO_CORRECTION_ID: seq<Byte> :=
    [0x00, 0x57, 0xFB, 0x20, 0x55, 0x5B, 0xCF, 0x11, 0xA8, 0xFD, 0x00, 0x80, 0x5F, 0x5C, 0x44, 0x2B]

  lemma NoCorrectionId()
    ensures ErrorCorrectionGuid() == NO_CORRECTION_ID
  {
    assert Le32(0x20FB5700) == [0x00, 0x57, 0xFB, 0x20];
  }

  lemma ElseZeroProps(t: Track, n: nat)
    ensures var b := StreamPropsBody(t, n);
            && b[16..32] == NO_CORRECTION_ID && b[32..40] == Zeros(8) && b[44..48] == Zeros(4)
            && b[50..54] == Zeros(4)
  {
    assert Le32(0) == Zeros(4);
    NoCorrectionId();
    hide Le16, Le32, ErrorCorrectionGuid, StreamTypeGuid, TypeData, TypeSize, NO_CORRECTION_ID, Zeros;
    var (a, b) := (StreamTypeGuid(t.format) + NO_CORRECTION_ID + Zeros(8),
                   Le32(TypeSize(t)) + Zeros(4) + Le16(n + 1) + Zeros(4));
    assert StreamPropsBody(t, n) == a + b + TypeData(t);
    Parts(a, b, TypeData(t));
    assert a[16..32] == NO_CORRECTION_ID && a[32..40] == Zeros(8) && b[4..8] == Zeros(4) && b[10..14] == Zeros(4);
  }

  lemma ElseZeroVideo(t: Track)
    requires t.format.Video?
    ensures var d := TypeData(t); |d| >= 51 && d[8] == 0 && d[23..27] == Zeros(4) && d[31..51] == Zeros(20)
  {
    assert Le16(0) + Le16(0) == Zeros(4);
    hide Le16, Le32;
  }

  // ---------- written and read ----------

  /** Writes a header for the tracks and opens the file again. */
  method WriteThenRead(setup: Setup) returns (file: seq<Byte>, info: Info, status: Status)
    requires AllFit(setup) && |Body(setup, Header, 0)| + 24 <= OBJECT_MAX
    ensures info == ReadBack(setup) && status == if setup.tracks == [] then NoTrackAvailable else FormatInvalid
  {
    hide Body, Object, AllFit, ReadBack, Open;
    var writer := new AsfWriter.Context(setup);
    writer.WriteHeader();
    file := writer.io.data;
    assert file == Object(setup, Header, 0) + Object(setup, AsfFormat.Data, 0);
    FileOpened(setup);
    var reader := new Reader(file);
    status := reader.ReadFile();
    info := Info(reader.packetSize, reader.tracks);
  }
}
