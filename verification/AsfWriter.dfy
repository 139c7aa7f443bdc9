/** The object writer of containers/asf/asf_writer.c and the reference-counted exchange of the output with a null sink
    of containers/core/containers_writer_utils.c.  Sizes are found by writing an object to the sink first. */
module AsfWriter {
  import opened Common
  import opened AsfFormat

  /** An output: a file, or a sink that only counts. */
  datatype Io = Io(isNull: bool, data: seq<Byte>, offset: nat)

  ghost function Appended(io: Io, b: seq<Byte>): Io
  {
    Io(io.isNull, if io.isNull then io.data else io.data + b, io.offset + |b|)
  }

  lemma AppendedTwice(io: Io, a: seq<Byte>, b: seq<Byte>)
    ensures Appended(Appended(io, a), b) == Appended(io, a + b)
  {
    ConcatAssoc(io.data, a, b);
  }

  /** To a sink all data of the same length is the same. */
  lemma SinkCounts(io: Io, a: seq<Byte>, b: seq<Byte>)
    requires io.isNull && |a| == |b|
    ensures Appended(io, a) == Appended(io, b)
  {
  }

  /** A size field and the content behind it; on the sink the value of the size does not matter. */
  lemma SizedBody(out: Io, sink: bool, guid: seq<Byte>, size: seq<Byte>, right: seq<Byte>, body: seq<Byte>)
    requires sink ==> out.isNull && |size| == |right|
    requires !sink ==> size == right
    ensures Appended(Appended(out, guid + size), body) == Appended(out, (guid + right) + body)
    ensures guid == [] ==> Appended(Appended(out, size), body) == Appended(out, right + body)
  {
    AppendedTwice(out, guid + size, body);
    AppendedTwice(out, size, body);
    if sink {
      SinkCounts(out, (guid + size) + body, (guid + right) + body);
      SinkCounts(out, size + body, right + body);
    }
  }

  class Context {
    const setup: Setup
    var io: Io
    var spare: Io       // the sink, or the file while the sink is in use
    var refcount: nat
    var currentTrack: nat
    var objectLevel: nat

    ghost predicate Valid()
      reads this
    {
      if refcount == 0 then !io.isNull && spare.isNull else io.isNull && !spare.isNull
    }

    constructor (setup: Setup)
      ensures Valid() && this.setup == setup && io == Io(false, [], 0) && refcount == 0 && objectLevel == 0
    {
      this.setup := setup;
      io, spare := Io(false, [], 0), Io(true, [], 0);
      refcount, currentTrack, objectLevel := 0, 0, 0;
    }

    /** Puts the sink, rewound, in the place of the file unless it is there already; returns the count before. */
    method ExtraIoEnable() returns (was: nat)
      requires Valid()
      modifies this`io, this`spare, this`refcount
      ensures Valid() && was == old(refcount) && refcount == was + 1
      ensures was == 0 ==> io == old(spare).(offset := 0) && spare == old(io)
      ensures was > 0 ==> io == old(io) && spare == old(spare)
    {
      if refcount == 0 {
        spare := spare.(offset := 0);
        io, spare := spare, io;
      }
      was := refcount;
      refcount := refcount + 1;
    }

    /** Undoes one enable; the last one puts the file back. */
    method ExtraIoDisable() returns (left: nat)
      requires Valid()
      modifies this`io, this`spare, this`refcount
      ensures Valid() && left == refcount == if old(refcount) == 0 then 0 else old(refcount) - 1
      ensures old(refcount) == 1 ==> io == old(spare) && spare == old(io)
      ensures old(refcount) != 1 ==> io == old(io) && spare == old(spare)
    {
      if refcount > 0 {
        refcount := refcount - 1;
        if refcount == 0 {
          io, spare := spare, io;
        }
      }
      left := refcount;
    }

    /** Puts the file back for good. */
    method ExtraIoDelete()
      requires Valid()
      modifies this`io, this`spare, this`refcount
      ensures Valid() && refcount == 0 && io == if old(refcount) == 0 then old(io) else old(spare)
    {
      while refcount > 0
        invariant Valid()
        invariant refcount > 0 ==> io == old(io) && spare == old(spare) && old(refcount) > 0
        invariant refcount == 0 ==> io == if old(refcount) == 0 then old(io) else old(spare)
      {
        var left := ExtraIoDisable();
      }
    }

    method Put(b: seq<Byte>)
      modifies this`io
      ensures io == Appended(old(io), b)
    {
      io := Io(io.isNull, if io.isNull then io.data else io.data + b, io.offset + |b|);
    }

    /** Writes an object: on the file with the sizes of its content and of all nested content, on the sink as many
        bytes.  The file and the sink are where they were before, and per-track objects keep the current track. */
    method WriteObject(t: ObjectType)
      requires Valid() && (PerTrack(t) ==> currentTrack < |setup.tracks|)
      modifies this
      ensures Valid() && refcount == old(refcount) && objectLevel == old(objectLevel)
      ensures refcount > 0 ==> spare == old(spare)
      ensures PerTrack(t) ==> currentTrack == old(currentTrack)
      ensures io == Appended(old(io), Object(setup, t, if PerTrack(t) then old(currentTrack) else 0))
      decreases Rank(t), 1
    {
      hide Guid, Le32, Le64, Body, Object;
      ghost var track := if PerTrack(t) then currentTrack else 0;
      ghost var body := Body(setup, t, track);
      ghost var out := io;
      ObjectIs(setup, t, track);
      var objectSize := MeasureObject(t);
      if t == HeaderExtInternal {
        Put(Le32(objectSize));
        WriteBody(t);
        SizedBody(out, refcount > 0, [], Le32(objectSize), Le32(|body|), body);
        return;
      }
      Put(Guid(t) + Le64(objectSize + 24));
      objectLevel := objectLevel + 1;
      WriteBody(t);
      objectLevel := objectLevel - 1;
      SizedBody(out, refcount > 0, Guid(t), Le64(objectSize + 24), Le64(|body| + 24), body);
    }

    /** The size of an object's content, found by writing it to the sink; zero if the sink is in use already. */
    method MeasureObject(t: ObjectType) returns (objectSize: nat)
      requires Valid() && (PerTrack(t) ==> currentTrack < |setup.tracks|)
      modifies this
      ensures Valid() && refcount == old(refcount) && objectLevel == old(objectLevel) && io == old(io)
      ensures refcount > 0 ==> spare == old(spare)
      ensures PerTrack(t) ==> currentTrack == old(currentTrack)
      ensures refcount == 0 ==> objectSize == |Body(setup, t, if PerTrack(t) then old(currentTrack) else 0)|
      decreases Rank(t), 0, 2
    {
      hide Body;
      objectSize := 0;
      var was := ExtraIoEnable();
      if was == 0 {
        WriteBody(t);
        objectSize := io.offset;
      }
      var left := ExtraIoDisable();
    }

    /** The writing function of an object type. */
    method WriteBody(t: ObjectType)
      requires Valid() && (PerTrack(t) ==> currentTrack < |setup.tracks|)
      modifies this
      ensures Valid() && refcount == old(refcount) && objectLevel == old(objectLevel)
      ensures refcount > 0 ==> spare == old(spare)
      ensures PerTrack(t) ==> currentTrack == old(currentTrack)
      ensures io == Appended(old(io), Body(setup, t, if PerTrack(t) then old(currentTrack) else 0))
      decreases Rank(t), 0, 1
    {
      hide Object, ForTracks, FilePropsBody, StreamPropsBody, ExtStreamPropsBody, Le16, Le32, Zeros;
      match t
      case Header => WriteHeaderBody();
      case HeaderExt => WriteHeaderExt();
      case HeaderExtInternal => WriteForTracks(ExtStreamProps);
      case FileProps => Put(FilePropsBody(setup.packetSize));
      case StreamProps => WriteStreamProps();
      case ExtStreamProps => Put(ExtStreamPropsBody(currentTrack));
      case _ => // data and index objects have no content
        assert Appended(io, []) == io;
    }

    method WriteHeaderBody()
      requires Valid()
      modifies this
      ensures Valid() && refcount == old(refcount) && objectLevel == old(objectLevel)
      ensures refcount > 0 ==> spare == old(spare)
      ensures io == Appended(old(io), Body(setup, Header, 0))
      decreases Rank(Header), 0, 0
    {
      hide Object, ForTracks, Le32;
      ghost var out := io;
      var start := Le32(0) + [0] + [0];
      Put(start);
      WriteObject(FileProps);
      AppendedTwice(out, start, Object(setup, FileProps, 0));
      WriteObject(HeaderExt);
      AppendedTwice(out, start + Object(setup, FileProps, 0), Object(setup, HeaderExt, 0));
      WriteForTracks(StreamProps);
      AppendedTwice(out, start + Object(setup, FileProps, 0) + Object(setup, HeaderExt, 0),
                    ForTracks(setup, StreamProps, |setup.tracks|));
    }

    method WriteHeaderExt()
      requires Valid()
      modifies this
      ensures Valid() && refcount == old(refcount) && objectLevel == old(objectLevel)
      ensures refcount > 0 ==> spare == old(spare)
      ensures io == Appended(old(io), Body(setup, HeaderExt, 0))
      decreases Rank(HeaderExt), 0, 0
    {
      hide Object, Le16, Zeros;
      ghost var out := io;
      Put(Zeros(16) + Le16(0));
      WriteObject(HeaderExtInternal);
      AppendedTwice(out, Zeros(16) + Le16(0), Object(setup, HeaderExtInternal, 0));
    }

    /** One object for each track, with the current track as the loop variable. */
    method WriteForTracks(t: ObjectType)
      requires Valid() && PerTrack(t)
      modifies this
      ensures Valid() && refcount == old(refcount) && objectLevel == old(objectLevel)
      ensures refcount > 0 ==> spare == old(spare)
      ensures io == Appended(old(io), ForTracks(setup, t, |setup.tracks|))
      decreases Rank(t), 2
    {
      hide Object;
      ghost var out := io;
      currentTrack := 0;
      assert Appended(out, []) == out;
      while currentTrack < |setup.tracks|
        invariant Valid() && refcount == old(refcount) && objectLevel == old(objectLevel)
        invariant refcount > 0 ==> spare == old(spare)
        invariant currentTrack <= |setup.tracks| && io == Appended(out, ForTracks(setup, t, currentTrack))
      {
        WriteObject(t);
        AppendedTwice(out, ForTracks(setup, t, currentTrack), Object(setup, t, currentTrack));
        currentTrack := currentTrack + 1;
      }
    }

    method WriteStreamProps()
      requires Valid() && currentTrack < |setup.tracks|
      modifies this`io
      ensures io == Appended(old(io), Body(setup, StreamProps, currentTrack))
    {
      hide Le16, Le32, Zeros, StreamTypeGuid, ErrorCorrectionGuid, TypeData, StreamPropsBody;
      ghost var out := io;
      var t := setup.tracks[currentTrack];
      var size := 0;
      if t.format.Video? {
        size := 11 + 40 + |t.extradata|;
      } else if t.format.Audio? {
        size := 18 + |t.extradata|;
      }
      assert size == TypeSize(t);
      hide TypeSize;
      TypeSizeRight(t);
      StreamPropsIs(t, currentTrack, size);
      Put(StreamPropsFields(t, currentTrack, size));
      if size > 0 {
        Put(TypeData(t));
      } else {
        assert TypeData(t) == [];
        assert Appended(io, []) == io;
      }
      AppendedTwice(out, StreamPropsFields(t, currentTrack, size), TypeData(t));
    }

    /** Writes the header and the data object. */
    method WriteHeader()
      requires Valid() && refcount == 0
      modifies this
      ensures Valid() && refcount == 0
      ensures io.data == old(io.data) + (Object(setup, Header, 0) + Object(setup, Data, 0))
    {
      hide Object;
      ghost var out := io;
      WriteObject(Header);
      WriteObject(Data);
      AppendedTwice(out, Object(setup, Header, 0), Object(setup, Data, 0));
    }
  }

  /** The fields in front of the type-specific data. */
  function StreamPropsFields(t: Track, track: nat, size: nat): seq<Byte>
  {
    StreamTypeGuid(t.format) + ErrorCorrectionGuid() + Zeros(8) + Le32(size) + Le32(0) + Le16(track + 1) + Le32(0)
  }

  lemma StreamPropsIs(t: Track, track: nat, size: nat)
    requires size == TypeSize(t)
    ensures StreamPropsBody(t, track) == StreamPropsFields(t, track, size) + TypeData(t)
  {
    hide Le16, Le32, Zeros, StreamTypeGuid, ErrorCorrectionGuid, TypeData;
  }
}
