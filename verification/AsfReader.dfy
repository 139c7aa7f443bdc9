/** How containers/asf/asf_reader.c reads the header of an ASF file. */
module AsfReader {
  import opened Common
  import opened AsfFormat

  // ---------- what is read ----------

  const HEADER_ID: seq<Byte> :=
    [0x30, 0x26, 0xB2, 0x75, 0x8E, 0x66, 0xCF, 0x11, 0xA6, 0xD9, 0x00, 0xAA, 0x00, 0x62, 0xCE, 0x6C]
  const DATA_ID: seq<Byte> :=
    [0x36, 0x26, 0xB2, 0x75, 0x8E, 0x66, 0xCF, 0x11, 0xA6, 0xD9, 0x00, 0xAA, 0x00, 0x62, 0xCE, 0x6C]
  const FILE_ID: seq<Byte> :=
    [0xA1, 0xDC, 0xAB, 0x8C, 0x47, 0xA9, 0xCF, 0x11, 0x8E, 0xE4, 0x00, 0xC0, 0x0C, 0x20, 0x53, 0x65]
  const STREAM_ID: seq<Byte> :=
    [0x91, 0x07, 0xDC, 0xB7, 0xB7, 0xA9, 0xCF, 0x11, 0x8E, 0xE6, 0x00, 0xC0, 0x0C, 0x20, 0x53, 0x65]
  const EXT_STREAM_ID: seq<Byte> :=
    [0xCB, 0xA5, 0xE6, 0x14, 0x72, 0xC6, 0x32, 0x43, 0x83, 0x99, 0xA9, 0x69, 0x52, 0x06, 0x5B, 0x5A]
  const HEADER_EXT_ID: seq<Byte> :=
    [0xB5, 0x03, 0xBF, 0x5F, 0x2E, 0xA9, 0xCF, 0x11, 0x8E, 0xE3, 0x00, 0xC0, 0x0C, 0x20, 0x53, 0x65]
  const VIDEO_ID: seq<Byte> :=
    [0xC0, 0xEF, 0x19, 0xBC, 0x4D, 0x5B, 0xCF, 0x11, 0xA8, 0xFD, 0x00, 0x80, 0x5F, 0x5C, 0x44, 0x2B]
  const AUDIO_ID: seq<Byte> :=
    [0x40, 0x9E, 0x69, 0xF8, 0x4D, 0x5B, 0xCF, 0x11, 0xA8, 0xFD, 0x00, 0x80, 0x5F, 0x5C, 0x44, 0x2B]

  const TRACKS_MAX := 2
  const EXTRADATA_MAX := 256
  const OBJECT_MAX := 0x2000_0000

  /** What is known of a track. */
  datatype TrackInfo = TrackInfo(id: nat, format: Format, bitrate: nat, extradata: seq<Byte>, enabled: bool)

  datatype Info = Info(packetSize: nat, tracks: seq<TrackInfo>)

  function NewTrack(id: nat): TrackInfo
  {
    TrackInfo(id, OtherFormat, 0, [], false)
  }

  /** The place of the track with the stream number, or the end of the list. */
  function PlaceOf(tracks: seq<TrackInfo>, id: nat): (i: nat)
    ensures i <= |tracks| && (i < |tracks| ==> tracks[i].id == id)
    ensures forall k :: 0 <= k < i ==> tracks[k].id != id
  {
    if tracks == [] || tracks[0].id == id then 0 else 1 + PlaceOf(tracks[1..], id)
  }

  /** The tracks with one for the stream number, if there is room. */
  function Created(tracks: seq<TrackInfo>, id: nat): seq<TrackInfo>
  {
    if PlaceOf(tracks, id) == |tracks| < TRACKS_MAX then tracks + [NewTrack(id)] else tracks
  }

  /** BITMAPINFOHEADER with its preamble; too small a size anywhere leaves the track as it was. */
  function ReadVideo(t: TrackInfo, d: seq<Byte>): TrackInfo
  {
    if |d| < 51 then t
    else
      var (formatSize, headerSize) := (Field16(d, 9), Field32(d, 11));
      if formatSize < 40 || |d| - 11 < formatSize || headerSize < 40 || headerSize > formatSize then t
      else
        t.(format := Video(Field32(d, 15), Field32(d, 19), Field32(d, 27)),
           extradata := if headerSize == 40 then t.extradata else d[51..51 + Min(headerSize - 40, EXTRADATA_MAX)],
           enabled := true)
  }

  /** WAVEFORMATEX; the number that is stored as bytes per second is taken for those. */
  function ReadAudio(t: TrackInfo, d: seq<Byte>): TrackInfo
  {
    if |d| < 18 then t
    else
      var format := Audio(Field16(d, 0), Field16(d, 2), Field32(d, 4), Field16(d, 12), Field16(d, 14));
      var u := t.(format := format, bitrate := Field32(d, 8) * 8 % 0x1_0000_0000);
      var n := Field16(d, 16);
      if n == 0 then u.(enabled := true)
      else if n > |d| - 18 then u
      else u.(extradata := d[18..18 + Min(n, EXTRADATA_MAX)], enabled := true)
  }

  function ReadTyped(t: TrackInfo, kind: seq<Byte>, d: seq<Byte>): (u: TrackInfo)
    ensures u.id == t.id
  {
    if kind == AUDIO_ID then ReadAudio(t, d) else ReadVideo(t, d)
  }

  function Placed(tracks: seq<TrackInfo>, i: nat, kind: seq<Byte>, d: seq<Byte>): seq<TrackInfo>
  {
    if i < |tracks| then tracks[i := ReadTyped(tracks[i], kind, d)] else tracks
  }

  function ReadStreamProps(tracks: seq<TrackInfo>, b: seq<Byte>): seq<TrackInfo>
    requires |b| >= 54
  {
    var kind, size, id := b[..16], Field32(b, 40), Field16(b, 48) % 128;
    if id == 0 || (kind != VIDEO_ID && kind != AUDIO_ID) || size > |b| - 54 then tracks
    else
      Placed(Created(tracks, id), PlaceOf(tracks, id), kind, b[54..54 + size])
  }

  /** One object of the header; fails if the object is shorter than its fields. */
  function ReadObject(info: Info, id: seq<Byte>, b: seq<Byte>): (Info, bool)
    decreases |b|, 0
  {
    if id == FILE_ID then
      if |b| < 80 then (info, false) else (info.(packetSize := Field32(b, 68)), true)
    else if id == STREAM_ID then
      if |b| < 54 then (info, false) else (info.(tracks := ReadStreamProps(info.tracks, b)), true)
    else if id == EXT_STREAM_ID then
      if |b| < 64 then (info, false) else (info.(tracks := Created(info.tracks, Field16(b, 48) % 128)), true)
    else if id == HEADER_EXT_ID then
      if |b| < 22 then (info, false) else (ReadObjects(info, b[22..]).0, true)
    else (info, true)
  }

  /** Consecutive objects, up to one whose size cannot be right. */
  function ReadObjects(info: Info, s: seq<Byte>): (Info, bool)
    decreases |s|, 1
  {
    if |s| < 24 then (info, true)
    else
      var size := Field64(s, 16);
      if size < 24 || size > OBJECT_MAX || size > |s| then (info, false)
      else
        var (next, ok) := ReadObject(info, s[..16], s[24..size]);
        if ok then ReadObjects(next, s[size..]) else (next, false)
  }

  /** The size of a data object may be missing, but not be too small for its fields or negative. */
  predicate DataSizeBad(size: nat)
  {
    0 < size < 50 || size >= 0x8000_0000_0000_0000
  }

  datatype Status = Success | FormatNotSupported | FormatInvalid | Corrupted | NoTrackAvailable

  /** Opening a file: a header that names tracks, and behind it a data object with room for its own fields. */
  function Open(file: seq<Byte>): (Info, Status)
  {
    var none := Info(0, []);
    if |file| < 24 || file[..16] != HEADER_ID then (none, FormatNotSupported)
    else
      var size := Field64(file, 16);
      if size < 24 || size > OBJECT_MAX || size > |file| then (none, Corrupted)
      else
        var info := if size < 30 then none else ReadObjects(none, file[30..size]).0;
        var rest := file[size..];
        if info.tracks == [] then (info, NoTrackAvailable)
        else if |rest| < 24 || rest[..16] != DATA_ID || DataSizeBad(Field64(rest, 16)) then (info, FormatInvalid)
        else (info, Success)
  }

  // ---------- the reader ----------

  /** Where the tracks are once there is one more. */
  lemma PlaceBehind(tracks: seq<TrackInfo>, t: TrackInfo, id: nat)
    ensures PlaceOf(tracks + [t], id)
            == if PlaceOf(tracks, id) < |tracks| || t.id == id then PlaceOf(tracks, id) else |tracks| + 1
  {
    var (i, j) := (PlaceOf(tracks, id), PlaceOf(tracks + [t], id));
    assert forall k :: 0 <= k < |tracks| ==> (tracks + [t])[k] == tracks[k];
    assert (tracks + [t])[|tracks|] == t;
  }

  /** Reading the properties of a track does not move any. */
  lemma PlaceKept(tracks: seq<TrackInfo>, i: nat, u: TrackInfo, id: nat)
    requires i < |tracks| && u.id == tracks[i].id
    ensures PlaceOf(tracks[i := u], id) == PlaceOf(tracks, id)
  {
    var (j, k) := (PlaceOf(tracks, id), PlaceOf(tracks[i := u], id));
    assert forall k :: 0 <= k < |tracks| ==> tracks[i := u][k].id == tracks[k].id;
  }

  const UNUSED := 255

  /** A field of a stretch of the file. */
  lemma FieldsWithin(file: seq<Byte>, at: nat, end: nat, k: nat)
    requires at <= end <= |file|
    ensures at + k + 2 <= end ==> Field16(file[at..end], k) == Field16(file, at + k)
    ensures at + k + 4 <= end ==> Field32(file[at..end], k) == Field32(file, at + k)
    ensures at + k + 8 <= end ==> Field64(file[at..end], k) == Field64(file, at + k)
  {
    hide FromLe16, FromLe32, FromLe64;
    if at + k + 2 <= end {
      SliceOfSlice(file, at, end, k, k + 2);
    }
    if at + k + 4 <= end {
      SliceOfSlice(file, at, end, k, k + 4);
    }
    if at + k + 8 <= end {
      SliceOfSlice(file, at, end, k, k + 8);
    }
  }

  class Reader {
    const file: seq<Byte>
    var at: nat
    var packetSize: nat
    var tracks: seq<TrackInfo>
    const numberToIndex: array<nat>  // the places of the tracks by their stream numbers

    ghost predicate Valid()
      reads this, numberToIndex
    {
      && numberToIndex.Length == 128 && |tracks| <= TRACKS_MAX
      && forall id :: 0 <= id < 128
           ==> numberToIndex[id] == if PlaceOf(tracks, id) < |tracks| then PlaceOf(tracks, id) else UNUSED
    }

    ghost function Contents(): Info
      reads this
    {
      Info(packetSize, tracks)
    }

    constructor (file: seq<Byte>)
      ensures Valid() && fresh(numberToIndex) && this.file == file && at == 0 && Contents() == Info(0, [])
    {
      this.file := file;
      at, packetSize, tracks := 0, 0, [];
      numberToIndex := new nat[128](_ => UNUSED);
    }

    /** The place of the track with the stream number, made if there is room for it; else the end of the list. */
    method FindTrack(id: nat) returns (i: nat)
      requires Valid() && id < 128
      modifies this`tracks, numberToIndex
      ensures Valid() && tracks == Created(old(tracks), id) && i == PlaceOf(old(tracks), id)
    {
      i := numberToIndex[id];
      if i < |tracks| {
        return;
      }
      i := |tracks|;
      if |tracks| < TRACKS_MAX {
        forall other: nat {
          PlaceBehind(tracks, NewTrack(id), other);
        }
        tracks := tracks + [NewTrack(id)];
        numberToIndex[id] := i;
      }
    }

    method ReadStreamProperties(end: nat)
      requires Valid() && at + 54 <= end <= |file|
      modifies this`tracks, numberToIndex
      ensures Valid() && tracks == ReadStreamProps(old(tracks), file[at..end])
    {
      hide PlaceOf, VIDEO_ID, AUDIO_ID, ReadTyped, Created, Field16, Field32;
      FieldsWithin(file, at, end, 40);
      FieldsWithin(file, at, end, 48);
      SliceOfSlice(file, at, end, 0, 16);
      var kind, size, id := file[at..at + 16], Field32(file, at + 40), Field16(file, at + 48) % 128;
      if id == 0 || (kind != VIDEO_ID && kind != AUDIO_ID) || size > end - at - 54 {
        return;
      }
      SliceOfSlice(file, at, end, 54, 54 + size);
      var i := FindTrack(id);
      if i < |tracks| {
        var t := ReadTyped(tracks[i], kind, file[at + 54..at + 54 + size]);
        forall other: nat {
          PlaceKept(tracks, i, t, other);
        }
        tracks := tracks[i := t];
      }
    }

    /** The content of an object, up to its end. */
    method ReadContent(id: seq<Byte>, end: nat) returns (ok: bool)
      requires Valid() && at <= end <= |file|
      modifies this, numberToIndex
      ensures Valid() && (Contents(), ok) == ReadObject(old(Contents()), id, file[old(at)..end])
      decreases end - at, 0
    {
      hide PlaceOf, FILE_ID, STREAM_ID, EXT_STREAM_ID, HEADER_EXT_ID, ReadStreamProps, Created, Field16, Field32;
      ghost var b := file[at..end];
      FieldsWithin(file, at, end, 68);
      FieldsWithin(file, at, end, 48);
      var room := end - at;
      ok := true;
      if id == FILE_ID {
        if room < 80 {
          return false;
        }
        packetSize := Field32(file, at + 68);
      } else if id == STREAM_ID {
        if room < 54 {
          return false;
        }
        ReadStreamProperties(end);
      } else if id == EXT_STREAM_ID {
        if room < 64 {
          return false;
        }
        var i := FindTrack(Field16(file, at + 48) % 128);
      } else if id == HEADER_EXT_ID {
        if room < 22 {
          return false;
        }
        assert b[22..] == file[at + 22..end];
        at := at + 22;
        var done := ReadNested(end);
      }
    }

    /** The objects up to the end of the one that they are nested in. */
    method ReadNested(end: nat) returns (ok: bool)
      requires Valid() && at <= end <= |file|
      modifies this, numberToIndex
      ensures Valid() && (Contents(), ok) == ReadObjects(old(Contents()), file[old(at)..end])
      decreases end - at, 1
    {
      hide ReadObject, Field64;
      ok := true;
      while ok && end - at >= 24
        invariant Valid() && at <= end
        invariant ok ==> ReadObjects(old(Contents()), file[old(at)..end]) == ReadObjects(Contents(), file[at..end])
        invariant !ok ==> ReadObjects(old(Contents()), file[old(at)..end]) == (Contents(), false)
        invariant old(at) <= at
      {
        ghost var s := file[at..end];
        FieldsWithin(file, at, end, 16);
        var size := Field64(file, at + 16);
        if size < 24 || size > OBJECT_MAX || size > end - at {
          return false;
        }
        assert s[..16] == file[at..at + 16] && s[24..size] == file[at + 24..at + size];
        assert s[size..] == file[at + size..end];
        var id, next := file[at..at + 16], at + size;
        at := at + 24;
        ok := ReadContent(id, next);
        at := next;
      }
    }

    /** Reads the header and looks at the data object behind it. */
    method ReadFile() returns (status: Status)
      requires Valid() && at == 0 && Contents() == Info(0, [])
      modifies this, numberToIndex
      ensures Valid() && (Contents(), status) == Open(file)
    {
      if |file| < 24 || file[..16] != HEADER_ID {
        return FormatNotSupported;
      }
      var size := Field64(file, 16);
      if size < 24 || size > OBJECT_MAX || size > |file| {
        return Corrupted;
      }
      if size >= 30 {
        at := 30;
        var done := ReadNested(size);
      }
      if |tracks| == 0 {
        return NoTrackAvailable;
      }
      at := size;
      FieldsWithin(file, at, |file|, 16);
      assert file[size..] == file[at..|file|] && (|file| - at >= 16 ==> file[at..][..16] == file[at..at + 16]);
      if |file| - at < 24 || file[at..at + 16] != DATA_ID || DataSizeBad(Field64(file, at + 16)) {
        return FormatInvalid;
      }
      return Success;
    }
  }
}
