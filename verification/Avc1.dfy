/** The AVC1 packetizer of containers/h264/avc1_packetizer.c: a state machine that turns frames of length-prefixed NAL
    units into Annex B form, into whatever output buffers the client offers. */
module Avc1 {
  import opened Common
  import opened ByteStream
  import opened AnnexB
  import opened NalSearch

  datatype State = FrameWait | BufferInit | NalStart | NalData

  /** What a call returns: more input is needed, or size bytes are in (or, for an information request, would follow)
      the output buffer, with the frame start and frame end flags. */
  datatype Reply = Incomplete | Filled(size: nat, start: bool, end: bool)

  class Converter {
    const stream: Stream
    const lengthSize: nat

    var state: State
    var frameSize: nat
    var bytesRead: nat
    var startLeft: nat
    var nalLeft: nat

    ghost var units: seq<seq<Byte>>   // the units of the frame being converted
    ghost var begun: nat              // how many of them have been begun
    ghost var endAt: nat              // the last packet of the frame

    ghost function Now(): Progress
      reads this
    {
      Progress(units, begun, startLeft, nalLeft, bytesRead)
    }

    ghost predicate Ready()
      reads this, stream, stream.spine
    {
      stream.Valid() && 1 <= lengthSize <= 4
    }

    /** Packet e, at or behind the current one, ends the frame and is not empty. */
    ghost predicate FramePackets(e: nat)
      requires Ready()
      reads this, stream, stream.spine
    {
      stream.index <= e < |stream.spine| && stream.spine[e].frameEnd && stream.chunks[e] != []
    }

    /** The input starts with a frame in the packets up to e that holds the units us. */
    ghost predicate Framed(e: nat, us: seq<seq<Byte>>)
      requires Ready()
      reads this, stream, stream.spine
    {
      && FramePackets(e)
      && (forall i {:trigger stream.spine[i]} :: stream.index <= i < e ==> !stream.spine[i].frameEnd)
      && us != [] && Framable(us, lengthSize)
      && stream.Unread() == LengthPrefixed(us, lengthSize) + Rest(stream.chunks, e + 1, 0)
    }

    ghost predicate HasFrame()
      reads this, stream, stream.spine
    {
      exists i :: stream.index <= i < |stream.spine| && stream.spine[i].frameEnd
    }

    ghost predicate Waiting()
      reads this, stream, stream.spine
    {
      Ready() && stream.offset == 0 && frameSize == 0 && bytesRead == 0
    }

    ghost predicate Converting()
      reads this, stream, stream.spine
    {
      && Ready() && FramePackets(endAt) && frameSize == |StartCoded(units)|
      && Now().Consistent(lengthSize, stream.Unread(), Rest(stream.chunks, endAt + 1, 0))
    }

    /** Between calls. */
    ghost predicate Valid()
      reads this, stream, stream.spine
    {
      match state
      case FrameWait => Waiting()
      case BufferInit => Converting() && bytesRead < frameSize
      case _ => false
    }

    /** The part of the current frame's output that has not been delivered. */
    ghost function Due(): seq<Byte>
      requires bytesRead <= |StartCoded(units)|
      reads this
    {
      Now().Due()
    }

    constructor (s: Stream, n: nat)
      requires s.Valid() && s.offset == 0 && 1 <= n <= 4
      ensures Valid() && state == FrameWait && stream == s && lengthSize == n
    {
      stream, lengthSize := s, n;
      state, frameSize, bytesRead, startLeft, nalLeft := FrameWait, 0, 0, 0, 0;
    }

    /** Packets may be pushed in the middle of a frame. */
    method Push(packet: Packet)
      requires Valid() && packet !in stream.spine
      modifies stream, packet`next, stream.LastPacket()`next
      ensures Valid() && stream.Unread() == old(stream.Unread()) + packet.data
    {
      hide Rest, Counted, Stream.Linked;
      if state == BufferInit {
        RestAppend(stream.chunks, endAt + 1, 0, packet.data);
        Now().MoreInput(lengthSize, stream.Unread(), Rest(stream.chunks, endAt + 1, 0), packet.data);
      }
      ghost var before := stream.chunks;
      stream.Push(packet);
      assert forall i {:trigger stream.chunks[i]} :: 0 <= i < |before| ==> stream.chunks[i] == before[i];
    }

    /** Packets that have been read may be released in the middle of a frame. */
    method Pop() returns (packet: Packet?)
      requires Valid()
      modifies stream, this`endAt
      ensures Valid() && stream.Unread() == old(stream.Unread())
    {
      hide Rest, Counted, Stream.Linked;
      ghost var before := stream.chunks;
      ghost var packets := stream.spine;
      packet := stream.Pop();
      if packet != null && state == BufferInit {
        RestTail(before, endAt + 1, 0);
        endAt := endAt - 1;
        assert forall i {:trigger stream.chunks[i]} :: 0 <= i < |stream.chunks| ==> stream.chunks[i] == before[i + 1];
        assert stream.spine[endAt] == packets[endAt + 1];
      }
    }

    /** The first loop of STATE_FRAME_WAIT: is there a packet that ends a frame, and how many bytes lead up to it? */
    method FindFrameEnd() returns (complete: bool, size: nat, ghost e: nat)
      requires Waiting()
      ensures complete <==> HasFrame()
      ensures complete ==> stream.index <= e < |stream.spine| && stream.spine[e].frameEnd
      ensures complete ==> forall i {:trigger stream.spine[i]} :: stream.index <= i < e ==> !stream.spine[i].frameEnd
      ensures complete ==> size == |stream.Unread()| - |Rest(stream.chunks, e + 1, 0)|
    {
      hide Rest, Counted;
      var packet := stream.current;
      size, e := 0, stream.index;
      while packet != null && !packet.frameEnd
        invariant stream.index <= e <= |stream.spine|
        invariant packet == if e < |stream.spine| then stream.spine[e] else null
        invariant size == |stream.Unread()| - |Rest(stream.chunks, e, 0)|
        invariant forall i {:trigger stream.spine[i]} :: stream.index <= i < e ==> !stream.spine[i].frameEnd
        decreases |stream.spine| - e
      {
        RestNext(stream.chunks, e, 0);
        size := size + |packet.data|;
        packet := packet.next;
        e := e + 1;
      }
      complete := packet != null;
      if complete {
        RestNext(stream.chunks, e, 0);
        size := size + |packet.data|;
      }
    }

    /** The number in the length field at data. */
    method FieldAt(data: array<Byte>) returns (v: nat)
      requires 1 <= lengthSize <= 4 <= data.Length
      ensures v == BigEndian(data[..lengthSize])
    {
      ReadField(data[..lengthSize]);
      v := data[0];
      if lengthSize > 1 {
        v := v * 256 + data[1];
      }
      if lengthSize > 2 {
        v := v * 256 + data[2];
      }
      if lengthSize > 3 {
        v := v * 256 + data[3];
      }
    }

    /** The size of the unit whose length field lies at the given distance. */
    method PeekUnit(offset: nat, ghost us: seq<seq<Byte>>, ghost j: nat, ghost behind: seq<Byte>) returns (nalSize: nat)
      requires Ready() && j < |us| && Framable(us, lengthSize) && offset <= |stream.Unread()|
      requires stream.Unread()[offset..] == LengthPrefixed(us[j..], lengthSize) + behind
      ensures nalSize == |us[j]| && offset + lengthSize + nalSize <= |stream.Unread()|
      ensures stream.Unread()[offset + lengthSize + nalSize..] == LengthPrefixed(us[j + 1..], lengthSize) + behind
    {
      hide Rest, Counted, Stream.Linked, LengthPrefixed, BigEndian;
      var data := new Byte[4](_ => 0);
      PeekedField(stream.Unread(), offset, us, j, lengthSize, behind);
      FieldValue(|us[j]|, lengthSize);
      assert data[..0] == [];
      var _ := stream.PeekAt(offset, data, 0, lengthSize);
      assert data[..lengthSize] == LengthField(|us[j]|, lengthSize);
      nalSize := FieldAt(data);
    }

    /** The second loop of STATE_FRAME_WAIT: the size of the frame in Annex B form. */
    method CountUnits(size: nat, ghost us: seq<seq<Byte>>, ghost e: nat)
      requires Waiting() && Framed(e, us) && size == |LengthPrefixed(us, lengthSize)|
      modifies this`frameSize
      ensures frameSize == |StartCoded(us)|
    {
      hide Rest, Counted, Stream.Linked, LengthPrefixed, StartCoded;
      var offset, j := 0, 0;
      ghost var behind := Rest(stream.chunks, e + 1, 0);
      assert us[0..] == us;
      while offset + lengthSize < size
        invariant Ready() && j <= |us| && offset <= |stream.Unread()|
        invariant offset + |LengthPrefixed(us[j..], lengthSize)| == size
        invariant stream.Unread()[offset..] == LengthPrefixed(us[j..], lengthSize) + behind
        invariant frameSize + |StartCoded(us[j..])| == |StartCoded(us)|
        decreases size - offset
      {
        EmptySizes(us, j, lengthSize);
        PrefixSizes(us, j, lengthSize);
        var nalSize := PeekUnit(offset, us, j, behind);
        offset := offset + lengthSize;
        if offset + nalSize > size {
          nalSize := size - offset;
        }
        offset := offset + nalSize;
        frameSize := frameSize + nalSize + |START_CODE|;
        j := j + 1;
      }
      if j < |us| {
        PrefixSizes(us, j, lengthSize);
      }
      EmptySizes(us, j, lengthSize);
    }

    /** STATE_FRAME_WAIT */
    method BeginFrame(ghost us: seq<seq<Byte>>) returns (complete: bool)
      requires Waiting() && state == FrameWait && (HasFrame() ==> exists e: nat :: Framed(e, us))
      modifies this
      ensures complete <==> old(HasFrame())
      ensures !complete ==> unchanged(this)
      ensures complete ==> state == BufferInit && Converting() && Now() == Progress(us, 0, 0, 0, 0) && us != []
    {
      hide Rest, Counted, Stream.Linked, LengthPrefixed, StartCoded, Progress.Consistent;
      ghost var f: nat := 0;
      if HasFrame() {
        f :| Framed(f, us);
      }
      var size; ghost var e;
      complete, size, e := FindFrameEnd();
      if complete {
        assert Framed(f, us);
        assert stream.spine[f].frameEnd && stream.spine[e].frameEnd;
        nalLeft := 0;
        startLeft := 0;
        CountUnits(size, us, e);
        units, begun, endAt := us, 0, e;
        Now().AtStart(lengthSize, stream.Unread(), Rest(stream.chunks, e + 1, 0));
        state := BufferInit;
      }
    }

    /** STATE_NAL_START: read the next length field. */
    method BeginUnit()
      requires Converting() && nalLeft == 0 && bytesRead < frameSize
      modifies this`nalLeft, this`startLeft, this`begun
      modifies stream`current, stream`currentOffset, stream`offset, stream`index
      ensures Converting() && nalLeft > 0 && startLeft == 4
      ensures Due() == old(Due()) && bytesRead == old(bytesRead)
    {
      hide Rest, Counted, Stream.Linked, LengthPrefixed, StartCoded, BigEndian, Progress.Due;
      ghost var unread, behind := stream.Unread(), Rest(stream.chunks, endAt + 1, 0);
      Now().AtEnd(lengthSize, unread, behind);
      Now().DueSize();
      ghost var field, rest, next := Now().Begin(lengthSize, unread, behind);
      nalLeft := ReadLength(field, rest);
      startLeft := |START_CODE|;
      begun := begun + 1;
      assert bytesRead + nalLeft + |START_CODE| <= frameSize;  // the unit is not truncated
      next.UnreadSize(lengthSize, rest, behind);
      StaysInFrame(stream.chunks, stream.index, stream.offset, endAt);
    }

    method ReadLength(ghost field: seq<Byte>, ghost rest: seq<Byte>) returns (v: nat)
      requires Ready() && stream.Unread() == field + rest && |field| == lengthSize
      modifies stream`current, stream`currentOffset, stream`offset, stream`index
      ensures stream.Valid() && stream.Unread() == rest && v == BigEndian(field) && stream.index >= old(stream.index)
    {
      hide Rest, Counted, Stream.Linked, BigEndian;
      var data := new Byte[4](_ => 0);
      var _ := stream.Get(data, 0, lengthSize);
      TakeField(data[..0], data[..lengthSize], stream.Unread(), field, rest);
      v := FieldAt(data);
    }

    /** The start code part of STATE_NAL_DATA. */
    method EmitStart(out: array<Byte>, size: nat) returns (newSize: nat)
      requires Converting() && size <= out.Length
      modifies this`startLeft, this`bytesRead, out
      ensures Converting() && size <= newSize <= out.Length && bytesRead == old(bytesRead) + (newSize - size)
      ensures out[..newSize] + Due() == old(out[..size] + Due())
      ensures startLeft == old(startLeft) - (newSize - size) && (startLeft > 0 ==> newSize == out.Length)
    {
      hide Rest, Counted, Stream.Linked, LengthPrefixed, StartCoded, Progress.Due, StartTail;
      newSize := size;
      if startLeft > 0 {
        var n := Min(out.Length - size, startLeft);
        ghost var next := Now().EmitStart(lengthSize, stream.Unread(), Rest(stream.chunks, endAt + 1, 0), n);
        ConcatAssoc(out[..size], StartTail(startLeft)[..n], next.Due());
        Store(out, size, StartTail(startLeft)[..n]);
        startLeft := startLeft - n;
        bytesRead := bytesRead + n;
        newSize := size + n;
      }
    }

    /** The unit part of STATE_NAL_DATA: copies n more bytes of unit data. */
    method CopyData(out: array<Byte>, size: nat, n: nat)
      requires Converting() && size + n <= out.Length && n <= nalLeft && startLeft == 0
      modifies this`nalLeft, this`bytesRead, out
      modifies stream`current, stream`currentOffset, stream`offset, stream`index
      ensures Ready() && stream.index >= old(stream.index) && (n > 0 ==> stream.offset > 0)
      ensures Now().Consistent(lengthSize, stream.Unread(), Rest(stream.chunks, endAt + 1, 0))
      ensures bytesRead == old(bytesRead) + n && nalLeft == old(nalLeft) - n
      ensures out[..size + n] + Due() == old(out[..size] + Due())
    {
      hide Rest, Counted, Stream.Linked, LengthPrefixed, StartCoded, Progress.Due, StartTail, Framable;
      ghost var unread, before := stream.Unread(), out[..size];
      ghost var next := Now().EmitData(lengthSize, unread, Rest(stream.chunks, endAt + 1, 0), n);
      ConcatAssoc(before, unread[..n], next.Due());
      var _ := stream.Get(out, size, n);
      SplitPrefix(out[..size + n], stream.Unread(), before, unread, n);
      nalLeft := nalLeft - n;
      bytesRead := bytesRead + n;
    }

    /** The end of a frame in STATE_NAL_DATA: skipping the packet that has been read to its end leaves the counters of
        the stream behind by the size of that packet. */
    method EndFrame()
      requires Converting() && bytesRead == frameSize && stream.offset > 0
      modifies this`state, this`frameSize, this`bytesRead, stream
      ensures Valid() && state == FrameWait
      ensures stream.spine == old(stream.spine) && stream.chunks == old(stream.chunks) && stream.index == endAt + 1
      ensures stream.Unread() == old(stream.Unread()) && stream.drift == old(stream.drift) + |stream.chunks[endAt]|
    {
      hide Rest, Counted, Stream.Linked, LengthPrefixed, StartCoded, Progress.Due, StartTail;
      Now().Finished(lengthSize, stream.Unread(), Rest(stream.chunks, endAt + 1, 0));
      RestEnd(stream.chunks, stream.index, stream.offset, endAt);
      var _ := stream.SkipPacket();
      state := FrameWait;
      frameSize := 0;
      bytesRead := 0;
    }

    /** STATE_NAL_START and STATE_NAL_DATA, until the frame or the output buffer ends. */
    method FillBuffer(out: array<Byte>) returns (size: nat, end: bool)
      requires Converting() && bytesRead < frameSize && out.Length > 0
      modifies this`state, this`frameSize, this`bytesRead, this`startLeft, this`nalLeft, this`begun, out, stream
      ensures Valid() && end == (state == FrameWait) && size <= out.Length
      ensures !end ==> out[..size] + Due() == old(Due()) && size == out.Length && bytesRead == old(bytesRead) + size
      ensures end ==> out[..size] == old(Due()) && stream.index == endAt + 1
      ensures stream.spine == old(stream.spine) && stream.chunks == old(stream.chunks)
      ensures stream.drift == old(stream.drift) + if end then |stream.chunks[endAt]| else 0
    {
      hide Rest, Counted, Stream.Linked, LengthPrefixed, StartCoded, Progress.Due, StartTail, Progress.Consistent;
      size := 0;
      ghost var due := Due();
      assert out[..0] + due == due;
      state := if nalLeft > 0 || bytesRead == frameSize then NalData else NalStart;
      while state in {NalStart, NalData}
        invariant state in {NalStart, NalData} ==> InUnit() && size < out.Length
        invariant state == BufferInit || state == FrameWait ==> Valid() && size <= out.Length
        invariant state == BufferInit ==> size == out.Length
        invariant state != FrameWait ==> bytesRead == old(bytesRead) + size && out[..size] + Due() == due
        invariant state == FrameWait ==> stream.index == endAt + 1 && out[..size] == due
        invariant stream.spine == old(stream.spine) && stream.chunks == old(stream.chunks) && endAt == old(endAt)
        invariant stream.drift == old(stream.drift) + if state == FrameWait then |stream.chunks[endAt]| else 0
        decreases state in {NalStart, NalData}, out.Length - size
      {
        size := Round(out, size);
      }
      end := state == FrameWait;
    }

    ghost predicate InUnit()
      reads this, stream, stream.spine
    {
      Converting() && bytesRead < frameSize && state == if nalLeft > 0 then NalData else NalStart
    }

    /** STATE_NAL_START, when that is the state, and STATE_NAL_DATA; the state afterwards says whether the frame or the
        buffer has ended or another unit follows. */
    method Round(out: array<Byte>, size: nat) returns (newSize: nat)
      requires InUnit() && size < out.Length
      modifies this`state, this`frameSize, this`bytesRead, this`startLeft, this`nalLeft, this`begun, out, stream
      ensures size < newSize <= out.Length && endAt < |stream.chunks|
      ensures if state == NalStart then InUnit() && newSize < out.Length
              else Valid() && (state == FrameWait || newSize == out.Length)
      ensures state != FrameWait ==> bytesRead == old(bytesRead) + (newSize - size)
      ensures state != FrameWait ==> out[..newSize] + Due() == old(out[..size] + Due())
      ensures state == FrameWait ==> out[..newSize] == old(out[..size] + Due()) && stream.index == endAt + 1
      ensures stream.spine == old(stream.spine) && stream.chunks == old(stream.chunks)
      ensures stream.drift == old(stream.drift) + if state == FrameWait then |stream.chunks[endAt]| else 0
    {
      hide Rest, Counted, Stream.Linked, LengthPrefixed, StartCoded, Progress.Due, StartTail, Progress.Consistent;
      if state == NalStart {
        BeginUnit();
        state := NalData;
      }
      newSize := EmitUnit(out, size);
      if bytesRead == frameSize {
        Now().DueSize();
        EndFrame();
      } else if out.Length == newSize {
        state := BufferInit;
      } else {
        state := NalStart;
      }
    }

    /** STATE_NAL_DATA */
    method EmitUnit(out: array<Byte>, size: nat) returns (newSize: nat)
      requires Converting() && nalLeft > 0 && size < out.Length
      modifies this`startLeft, this`nalLeft, this`bytesRead, out
      modifies stream`current, stream`currentOffset, stream`offset, stream`index
      ensures Converting() && size < newSize <= out.Length && bytesRead == old(bytesRead) + (newSize - size)
      ensures out[..newSize] + Due() == old(out[..size] + Due())
      ensures bytesRead <= frameSize && (nalLeft > 0 ==> newSize == out.Length && bytesRead < frameSize)
      ensures nalLeft == 0 ==> stream.offset > 0
    {
      hide Rest, Counted, Stream.Linked, LengthPrefixed, StartCoded, Progress.Due, StartTail;
      var middle := EmitStart(out, size);
      newSize := middle;
      if startLeft == 0 {
        var n := Min(out.Length - middle, nalLeft);
        CopyData(out, middle, n);
        newSize := middle + n;
      }
      ghost var behind := Rest(stream.chunks, endAt + 1, 0);
      Now().Finished(lengthSize, stream.Unread(), behind);
      Now().UnreadSize(lengthSize, stream.Unread(), behind);
      if stream.index > endAt {
        RestOrder(stream.chunks, endAt + 1, stream.index, stream.offset);
      }
    }

    /** avc1_packetizer_packetize.  A call without info fills the buffer with the next part of the Annex B form of the
        frame; a call with info reports how much is still to come and changes nothing. */
    method Packetize(out: array<Byte>, info: bool, ghost us: seq<seq<Byte>>) returns (r: Reply)
      requires Valid() && out.Length > 0
      requires state == FrameWait && HasFrame() ==> exists e: nat :: Framed(e, us)
      modifies this, out, stream
      ensures Valid() && stream.spine == old(stream.spine) && stream.chunks == old(stream.chunks)
      ensures r == Incomplete <==> old(state == FrameWait && !HasFrame())
      ensures r == Incomplete ==> unchanged(this) && unchanged(stream) && unchanged(out)
      ensures r.Filled? ==> units == (if old(state) == FrameWait then us else old(units))
      ensures r.Filled? ==> r.start == (old(bytesRead) == 0)
      ensures r.Filled? && info ==> state == BufferInit && unchanged(stream) && unchanged(out) && r.end
      ensures r.Filled? && info ==> bytesRead == old(bytesRead) && r.size == |StartCoded(units)| - bytesRead
      ensures r.Filled? && !info ==> old(bytesRead) + r.size <= |StartCoded(units)| && r.size <= out.Length
      ensures r.Filled? && !info ==> out[..r.size] == StartCoded(units)[old(bytesRead)..old(bytesRead) + r.size]
      ensures r.Filled? && !info ==> (r.end <==> old(bytesRead) + r.size == |StartCoded(units)|)
      ensures r.Filled? && !info && !r.end ==> state == BufferInit && r.size == out.Length
                                               && bytesRead == old(bytesRead) + r.size
      ensures r.Filled? && !info && r.end ==> state == FrameWait && endAt < |stream.chunks| && stream.index == endAt + 1
      ensures stream.drift == old(stream.drift) + if r.Filled? && !info && r.end then |stream.chunks[endAt]| else 0
    {
      hide Rest, Counted, Stream.Linked, LengthPrefixed, StartCoded, StartTail, Progress.Consistent;
      ghost var read := bytesRead;
      if state == FrameWait {
        var complete := BeginFrame(us);
        if !complete {
          return Incomplete;
        }
        StartCodedSize(units);
      }
      var start := bytesRead == 0;
      if info {
        return Filled(frameSize - bytesRead, start, true);
      }
      ghost var all := StartCoded(units);
      var size, end := FillBuffer(out);
      Piece(all, read, out[..size], if end then [] else Due());
      return Filled(size, start, end);
    }
  }

  lemma StartCodedSize(units: seq<seq<Byte>>)
    requires units != []
    ensures |StartCoded(units)| >= 4
  {
  }

  lemma Piece(all: seq<Byte>, at: nat, a: seq<Byte>, b: seq<Byte>)
    requires at <= |all| && all[at..] == a + b
    ensures at + |a| <= |all| && all[at..at + |a|] == a
  {
    assert all[at..at + |a|] == all[at..][..|a|];
  }

  lemma EmptySizes(us: seq<seq<Byte>>, j: nat, n: nat)
    requires j <= |us|
    ensures j == |us| ==> LengthPrefixed(us[j..], n) == [] && StartCoded(us[j..]) == []
  {
  }

  lemma TakeField(empty: seq<Byte>, data: seq<Byte>, unread: seq<Byte>, field: seq<Byte>, rest: seq<Byte>)
    requires |empty| == 0 && data + unread == empty + (field + rest) && |data| == |field|
    ensures data == field && unread == rest
  {
    assert empty + (field + rest) == field + rest;
    SplitPrefix(data, unread, [], field + rest, |data|);
  }

  /** As long as more is unread than what lies behind packet e, the read position is not behind it. */
  lemma StaysInFrame(chunks: seq<seq<Byte>>, k: nat, off: nat, e: nat)
    requires Within(chunks, k, off) && e < |chunks| && |Rest(chunks, k, off)| > |Rest(chunks, e + 1, 0)|
    ensures k <= e
  {
    hide Rest;
    if k > e {
      RestOrder(chunks, e + 1, k, off);
    }
  }

  /** The length field of unit j and what follows it. */
  lemma PeekedField(unread: seq<Byte>, offset: nat, us: seq<seq<Byte>>, j: nat, n: nat, behind: seq<Byte>)
    requires offset <= |unread| && j < |us| && unread[offset..] == LengthPrefixed(us[j..], n) + behind
    ensures offset + n + |us[j]| <= |unread| && unread[offset..offset + n] == LengthField(|us[j]|, n)
    ensures unread[offset + n + |us[j]|..] == LengthPrefixed(us[j + 1..], n) + behind
  {
    PrefixedNext(us, j, n);
    var field, rest := LengthField(|us[j]|, n), LengthPrefixed(us[j + 1..], n);
    ConcatAssoc(field, us[j] + rest, behind);
    ConcatAssoc(us[j], rest, behind);
    assert unread[offset..offset + n] == unread[offset..][..n];
    Dropped(unread, offset, field, us[j] + (rest + behind));
    Dropped(unread, offset + n, us[j], rest + behind);
  }

  // ---------- a whole frame, however the client asks for it ----------

  /** A request for information, or an output buffer of a positive size. */
  datatype Request = Info | Buffer(size: nat)

  function Concat(pieces: seq<seq<Byte>>): seq<Byte>
  {
    if pieces == [] then [] else Concat(pieces[..|pieces| - 1]) + pieces[|pieces| - 1]
  }

  /** What the buffers hold in total. */
  function Offered(requests: seq<Request>): nat
  {
    if requests == [] then 0
    else Offered(requests[..|requests| - 1]) + match requests[|requests| - 1] case Info => 0 case Buffer(n) => n
  }

  /** The converter is somewhere in the frame with the given units, before its end. */
  ghost predicate InFrame(c: Converter, us: seq<seq<Byte>>)
    reads c, c.stream, c.stream.spine
  {
    && c.Valid() && c.bytesRead < |StartCoded(us)|
    && if c.state == FrameWait then c.HasFrame() && exists e: nat :: c.Framed(e, us) else c.units == us
  }

  /** One request. */
  method Serve(c: Converter, request: Request, ghost us: seq<seq<Byte>>) returns (r: Reply, piece: seq<Byte>)
    requires InFrame(c, us) && (request.Buffer? ==> request.size > 0)
    modifies c, c.stream
    ensures c.Valid() && r.Filled? && r.start == (old(c.bytesRead) == 0)
    ensures request.Info? ==> InFrame(c, us) && c.bytesRead == old(c.bytesRead)
    ensures request.Buffer? ==> |piece| == r.size && old(c.bytesRead) + r.size <= |StartCoded(us)|
    ensures request.Buffer? ==> piece == StartCoded(us)[old(c.bytesRead)..old(c.bytesRead) + r.size]
    ensures request.Buffer? ==> r.end == (old(c.bytesRead) + request.size >= |StartCoded(us)|)
    ensures request.Buffer? && r.end ==> c.state == FrameWait && old(c.bytesRead) + r.size == |StartCoded(us)|
    ensures request.Buffer? && !r.end ==> InFrame(c, us) && c.bytesRead == old(c.bytesRead) + r.size
    ensures request.Buffer? && !r.end ==> r.size == request.size
  {
    hide StartCoded, Converter.Framed, Stream.Linked, Rest, Counted, Converter.Converting;
    ghost var e: nat := 0;
    if c.state == FrameWait {
      e :| c.Framed(e, us);
    }
    var out := new Byte[if request.Buffer? then request.size else 1](_ => 0);
    assert c.state == FrameWait ==> c.Framed(e, us);
    r := c.Packetize(out, request.Info?, us);
    piece := if request.Buffer? then out[..r.size] else [];
  }

  /** One reply for each piece: the first and no other is marked as frame start, the last of a finished frame and no
      other as frame end. */
  ghost predicate WellMarked(pieces: seq<seq<Byte>>, replies: seq<Reply>, done: bool)
  {
    |pieces| == |replies| && forall i {:trigger replies[i]} :: 0 <= i < |replies| ==>
                               replies[i] == Filled(|pieces[i]|, i == 0, done && i == |replies| - 1)
  }

  lemma MarkedNone()
    ensures WellMarked([], [], false)
  {
  }

  lemma MarkedMore(pieces: seq<seq<Byte>>, replies: seq<Reply>, piece: seq<Byte>, end: bool)
    requires WellMarked(pieces, replies, false)
    ensures WellMarked(pieces + [piece], replies + [Filled(|piece|, pieces == [], end)], end)
  {
  }

  /** Convert a frame with any sequence of requests.  The pieces in the buffers make up the Annex B form of the frame,
      none left out, cut only by the buffer sizes; the first piece and no other is marked as frame start, the last and
      no other as frame end.  A decoder finds exactly the units in it, if they can be told apart at all. */
  method ConvertFrame(c: Converter, requests: seq<Request>, ghost us: seq<seq<Byte>>)
    returns (pieces: seq<seq<Byte>>, replies: seq<Reply>, done: bool)
    requires c.state == FrameWait && InFrame(c, us)
    requires forall i {:trigger requests[i]} :: 0 <= i < |requests| ==> requests[i].Buffer? ==> requests[i].size > 0
    modifies c, c.stream
    ensures c.Valid()
    ensures done <==> Offered(requests) >= |StartCoded(us)|
    ensures done ==> c.state == FrameWait && Concat(pieces) == StartCoded(us)
    ensures !done ==> Concat(pieces) == StartCoded(us)[..Offered(requests)]
    ensures done ==> (Decode(Concat(pieces)) == NalSearch.Framed(us) <==> AllClean(us))
    ensures WellMarked(pieces, replies, done)
  {
    hide StartCoded, Concat, Offered, InFrame, Converter.Valid, WellMarked, Decode, NalSearch.Framed, AllClean;
    EnterFrame(c, us);
    MarkedNone();
    pieces, replies, done := [], [], false;
    var i := 0;
    ghost var all := StartCoded(us);
    ghost var read := 0;
    ConcatNone();
    OfferedStep(requests, 0);
    while i < |requests| && !done
      invariant 0 <= i <= |requests| && c.Valid() && WellMarked(pieces, replies, done)
      invariant !done ==> InFrame(c, us) && c.bytesRead == read == Offered(requests[..i]) < |all|
      invariant done ==> c.state == FrameWait && read == |all| <= Offered(requests[..i])
      invariant read <= |all| && Concat(pieces) == all[0..read] && (pieces == [] <==> read == 0)
    {
      OfferedStep(requests, i);
      var r, piece := Serve(c, requests[i], us);
      if requests[i].Buffer? {
        JoinSlices(all, 0, read, read + r.size);
        ConcatMore(pieces, piece);
        MarkedMore(pieces, replies, piece, r.end);
        pieces := pieces + [piece];
        replies := replies + [r];
        done := r.end;
        read := read + r.size;
      }
      i := i + 1;
    }
    OfferedMore(requests, i);
    assert all[0..|all|] == all;
    FrameDecodes(us);
  }

  lemma EnterFrame(c: Converter, us: seq<seq<Byte>>)
    requires c.state == FrameWait && InFrame(c, us)
    ensures c.Valid() && c.bytesRead == 0 < |StartCoded(us)|
  {
  }

  lemma ConcatNone()
    ensures Concat([]) == []
  {
  }

  lemma ConcatMore(pieces: seq<seq<Byte>>, piece: seq<Byte>)
    ensures Concat(pieces + [piece]) == Concat(pieces) + piece
  {
    assert (pieces + [piece])[..|pieces|] == pieces;
  }

  lemma OfferedStep(requests: seq<Request>, i: nat)
    requires i <= |requests|
    ensures i == 0 ==> Offered(requests[..i]) == 0
    ensures i < |requests| ==>
              Offered(requests[..i + 1])
              == Offered(requests[..i]) + match requests[i] case Info => 0 case Buffer(n) => n
  {
    if i < |requests| {
      assert requests[..i + 1][..i] == requests[..i];
    }
  }

  lemma {:induction false} OfferedMore(requests: seq<Request>, i: nat)
    requires i <= |requests|
    ensures Offered(requests[..i]) <= Offered(requests)
    ensures i == |requests| ==> Offered(requests[..i]) == Offered(requests)
    decreases |requests| - i
  {
    if i < |requests| {
      assert requests[..i + 1][..i] == requests[..i];
      OfferedMore(requests, i + 1);
    } else {
      assert requests[..i] == requests;
    }
  }
}
