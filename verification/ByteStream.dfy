/** The byte stream over a list of packets of containers/core/containers_bytestream.h: a linked list with a read
    position behaves as one flat sequence of unread bytes, however the bytes are cut into packets. */
module ByteStream {
  import opened Common
  import opened StartCode

  class Packet {
    var data: seq<Byte>
    var next: Packet?
    const frameEnd: bool
    var framework: bool

    constructor (data: seq<Byte>, frameEnd: bool)
      ensures this.data == data && this.frameEnd == frameEnd && next == null && !framework
    {
      this.data, this.frameEnd, this.next, this.framework := data, frameEnd, null, false;
    }
  }

  // ---------- chunks of bytes ----------

  function Flatten(chunks: seq<seq<Byte>>): seq<Byte>
  {
    if chunks == [] then [] else chunks[0] + Flatten(chunks[1..])
  }

  lemma {:induction false} FlattenConcat(a: seq<seq<Byte>>, b: seq<seq<Byte>>)
    ensures Flatten(a + b) == Flatten(a) + Flatten(b)
  {
    if a == [] {
      assert a + b == b;
    } else {
      assert (a + b)[1..] == a[1..] + b;
      FlattenConcat(a[1..], b);
      ConcatAssoc(a[0], Flatten(a[1..]), Flatten(b));
    }
  }

  lemma FlattenOne(c: seq<Byte>)
    ensures Flatten([c]) == c
  {
    assert [c][1..] == [];
  }

  /** What is left to read from byte off of chunk k on. */
  function Rest(chunks: seq<seq<Byte>>, k: nat, off: nat): (r: seq<Byte>)
    requires Within(chunks, k, off)
  {
    if k == |chunks| then [] else chunks[k][off..] + Flatten(chunks[k + 1..])
  }

  /** Leaving chunk k behind. */
  lemma RestNext(chunks: seq<seq<Byte>>, k: nat, off: nat)
    requires k < |chunks| && off <= |chunks[k]|
    ensures Rest(chunks, k, off) == chunks[k][off..] + Rest(chunks, k + 1, 0)
  {
    if k + 1 < |chunks| {
      assert chunks[k + 1..][1..] == chunks[k + 2..];
      assert chunks[k + 1][0..] == chunks[k + 1];
    }
  }

  /** Reading n bytes inside chunk k. */
  lemma RestAdvance(chunks: seq<seq<Byte>>, k: nat, off: nat, n: nat)
    requires k < |chunks| && off + n <= |chunks[k]|
    ensures Rest(chunks, k, off) == chunks[k][off..off + n] + Rest(chunks, k, off + n)
  {
    assert chunks[k][off..] == chunks[k][off..off + n] + chunks[k][off + n..];
    ConcatAssoc(chunks[k][off..off + n], chunks[k][off + n..], Flatten(chunks[k + 1..]));
  }

  lemma RestAppend(chunks: seq<seq<Byte>>, k: nat, off: nat, c: seq<Byte>)
    requires Within(chunks, k, off)
    ensures Rest(chunks + [c], k, off) == Rest(chunks, k, off) + c
  {
    FlattenOne(c);
    if k == |chunks| {
      assert (chunks + [c])[k + 1..] == [];
      assert c[0..] == c;
    } else {
      assert (chunks + [c])[k + 1..] == chunks[k + 1..] + [c];
      FlattenConcat(chunks[k + 1..], [c]);
      ConcatAssoc(chunks[k][off..], Flatten(chunks[k + 1..]), c);
    }
  }

  lemma RestTail(chunks: seq<seq<Byte>>, k: nat, off: nat)
    requires 0 < k && Within(chunks, k, off)
    ensures Rest(chunks[1..], k - 1, off) == Rest(chunks, k, off)
  {
    if k < |chunks| {
      assert chunks[1..][k..] == chunks[k + 1..];
    }
  }

  /** A later position has less left. */
  lemma RestOrder(chunks: seq<seq<Byte>>, j: nat, k: nat, off: nat)
    requires j <= k && Within(chunks, k, off)
    ensures |Rest(chunks, k, off)| + off <= |Rest(chunks, j, 0)|
  {
    RestLength(chunks, k, off);
    RestLength(chunks, j, 0);
    assert chunks[..k] == chunks[..j] + chunks[j..k];
    FlattenConcat(chunks[..j], chunks[j..k]);
  }

  /** With nothing but what lies behind packet e left, a position inside a packet is the end of packet e. */
  lemma RestEnd(chunks: seq<seq<Byte>>, k: nat, off: nat, e: nat)
    requires Within(chunks, k, off) && k < |chunks| && off > 0 && e < |chunks|
    requires k <= e ==> chunks[e] != []
    requires Rest(chunks, k, off) == Rest(chunks, e + 1, 0)
    ensures k == e && off == |chunks[e]|
  {
    assert chunks[e] != [] || k > e;
    assert k < |chunks| ==> off <= |chunks[k]|;
    hide *;
    if k > e {
      RestOrder(chunks, e + 1, k, off);
    } else if k < e {
      RestBehind(chunks, k, off, e);
    } else {
      RestNext(chunks, e, off);
    }
  }

  /** There is more left inside a chunk than behind a later chunk that is not empty. */
  lemma RestBehind(chunks: seq<seq<Byte>>, k: nat, off: nat, e: nat)
    requires k < e < |chunks| && off <= |chunks[k]| && chunks[e] != []
    ensures |Rest(chunks, e + 1, 0)| < |Rest(chunks, k, off)|
  {
    RestOrder(chunks, k + 1, e, 0);
    hide Rest, Flatten;
    RestNext(chunks, e, 0);
    RestNext(chunks, k, off);
  }

  /** Total size up to the read position. */
  lemma RestLength(chunks: seq<seq<Byte>>, k: nat, off: nat)
    requires Within(chunks, k, off)
    ensures |Rest(chunks, k, off)| == |Flatten(chunks)| - |Flatten(chunks[..k])| - off
  {
    assert chunks[..k] + chunks[k..] == chunks;
    FlattenConcat(chunks[..k], chunks[k..]);
    if k < |chunks| {
      assert chunks[k..][1..] == chunks[k + 1..];
    }
  }

  predicate Within(chunks: seq<seq<Byte>>, k: nat, off: nat)
  {
    k <= |chunks| && off <= (if k < |chunks| then |chunks[k]| else 0)
  }

  /** The counters of a stream reading at byte offset of chunk index. */
  ghost predicate Counted(chunks: seq<seq<Byte>>, index: nat, offset: nat, bytes: int, currentOffset: int, drift: nat)
  {
    && Within(chunks, index, offset)
    && bytes == |Flatten(chunks)| && currentOffset == |Flatten(chunks[..index])| - drift
  }

  lemma CountedPush(chunks: seq<seq<Byte>>, index: nat, offset: nat, bytes: int, currentOffset: int, drift: nat,
          c: seq<Byte>)
    requires Counted(chunks, index, offset, bytes, currentOffset, drift)
    ensures Counted(chunks + [c], index, offset, bytes + |c|, currentOffset, drift)
    ensures Rest(chunks + [c], index, offset) == Rest(chunks, index, offset) + c
  {
    RestAppend(chunks, index, offset, c);
    FlattenConcat(chunks, [c]);
    FlattenOne(c);
    assert (chunks + [c])[..index] == chunks[..index];
  }

  lemma CountedPop(chunks: seq<seq<Byte>>, index: nat, offset: nat, bytes: int, currentOffset: int, drift: nat)
    requires Counted(chunks, index, offset, bytes, currentOffset, drift) && index > 0
    ensures
      Counted(chunks[1..], index - 1, offset, bytes - |chunks[0]|, currentOffset - |chunks[0]|, drift)
    ensures Rest(chunks[1..], index - 1, offset) == Rest(chunks, index, offset)
  {
    RestTail(chunks, index, offset);
    assert chunks[..index][1..] == chunks[1..][..index - 1];
  }

  lemma CountedSkip(chunks: seq<seq<Byte>>, index: nat, offset: nat, bytes: int, currentOffset: int, drift: nat)
    requires Counted(chunks, index, offset, bytes, currentOffset, drift) && index < |chunks|
    ensures
      Counted(chunks, index + 1, 0, bytes, currentOffset + (|chunks[index]| - offset), drift + offset)
    ensures Rest(chunks, index, offset) == chunks[index][offset..] + Rest(chunks, index + 1, 0)
  {
    RestNext(chunks, index, offset);
    FlattenStep(chunks, index);
  }

  lemma FlattenStep(chunks: seq<seq<Byte>>, k: nat)
    requires k < |chunks|
    ensures |Flatten(chunks[..k + 1])| == |Flatten(chunks[..k])| + |chunks[k]|
  {
    assert chunks[..k + 1] == chunks[..k] + [chunks[k]];
    FlattenConcat(chunks[..k], [chunks[k]]);
    FlattenOne(chunks[k]);
  }

  class Stream {
    var first: Packet?
    var last: Packet?          // the packet whose next field is *last; null when that is the field first
    var current: Packet?
    var currentOffset: int     // an unsigned number modulo 2^width in the source
    var offset: nat
    var bytes: int

    ghost var spine: seq<Packet>       // the packets in order
    ghost var chunks: seq<seq<Byte>>   // their contents
    ghost var index: nat               // place of current in the list
    ghost var drift: nat               // bytes counted as unread although they have been skipped

    ghost predicate Linked()
      reads this, spine
    {
      && (forall i, j :: 0 <= i < j < |spine| ==> spine[i] != spine[j])
      && (forall i {:trigger spine[i].next} :: 0 <= i < |spine| ==>
            spine[i].next == if i + 1 < |spine| then spine[i + 1] else null)
      && first == (if spine == [] then null else spine[0])
      && last == (if spine == [] then null else spine[|spine| - 1])
      && current == (if index < |spine| then spine[index] else null)
    }

    ghost predicate Valid()
      reads this, spine
    {
      && Linked()
      && |chunks| == |spine| && (forall i {:trigger chunks[i]} {:trigger spine[i]} :: 0 <= i < |spine| ==>
                                   spine[i].data == chunks[i])
      && Within(chunks, index, offset) && Counted(chunks, index, offset, bytes, currentOffset, drift)
    }

    ghost function Unread(): seq<Byte>
      requires Within(chunks, index, offset)
      reads this
    {
      Rest(chunks, index, offset)
    }

    /** A request can be answered correctly unless it lies between what is unread and what is counted. */
    ghost predicate Answerable(size: nat)
      requires Within(chunks, index, offset)
      reads this
    {
      size <= |Unread()| || size > |Unread()| + drift
    }

    /** bytestream_init */
    constructor ()
      ensures Valid() && spine == [] && chunks == [] && index == 0 && drift == 0
    {
      first, last, current, currentOffset, offset, bytes := null, null, null, 0, 0, 0;
      spine, chunks, index, drift := [], [], 0, 0;
    }

    ghost function LastPacket(): set<Packet>
      reads this
    {
      if last == null then {} else {last}
    }

    /** bytestream_push */
    method Push(packet: Packet)
      requires Valid() && packet !in spine
      modifies this, packet`next, LastPacket()`next
      ensures Valid() && spine == old(spine) + [packet] && chunks == old(chunks) + [packet.data]
      ensures Unread() == old(Unread()) + packet.data
      ensures index == old(index) && offset == old(offset) && drift == old(drift)
    {
      hide Counted, Rest;
      CountedPush(chunks, index, offset, bytes, currentOffset, drift, packet.data);
      if last == null {
        first := packet;
      } else {
        last.next := packet;
      }
      last := packet;
      packet.next := null;
      if current == null {
        current := packet;
      }
      bytes := bytes + |packet.data|;
      spine := spine + [packet];
      chunks := chunks + [packet.data];
    }

    /** bytestream_pop */
    method Pop() returns (packet: Packet?)
      requires Valid()
      modifies this
      ensures Valid() && Unread() == old(Unread()) && offset == old(offset) && drift == old(drift)
      ensures packet == null <==> old(index == 0)
      ensures packet == null ==> unchanged(this)
      ensures packet != null ==> packet == old(spine[0]) && spine == old(spine[1..]) && chunks == old(chunks[1..])
      ensures packet != null ==> packet.data == old(chunks[0]) && index == old(index) - 1
    {
      hide Counted, Rest;
      packet := first;
      if current == packet {
        return null;
      }
      CountedPop(chunks, index, offset, bytes, currentOffset, drift);
      bytes := bytes - |packet.data|;
      currentOffset := currentOffset - |packet.data|;
      first := packet.next;
      if first == null {
        last := null;
      }
      spine := spine[1..];
      chunks := chunks[1..];
      index := index - 1;
    }

    /** bytestream_get_packet: the packet holding the next unread byte */
    method GetPacket() returns (packet: Packet?, off: nat)
      requires Valid()
      ensures packet == null <==> Unread() == []
      ensures packet != null ==> packet in spine && off < |packet.data| && packet.data[off] == Unread()[0]
    {
      packet, off := current, offset;
      ghost var k := index;
      while packet != null && |packet.data| == off
        invariant index <= k <= |chunks| && packet == (if k < |spine| then spine[k] else null)
        invariant off <= (if k < |chunks| then |chunks[k]| else 0) && Rest(chunks, k, off) == Unread()
        decreases |spine| - k
      {
        RestNext(chunks, k, off);
        assert chunks[k][off..] == [];
        packet := packet.next;
        off := 0;
        k := k + 1;
      }
    }

    /** bytestream_skip_packet; skipping from inside a packet leaves the counters behind by the bytes already read */
    method SkipPacket() returns (skipped: bool)
      requires Valid()
      modifies this
      ensures Valid() && spine == old(spine) && chunks == old(chunks)
      ensures skipped <==> old(index < |spine|)
      ensures !skipped ==> unchanged(this)
      ensures skipped ==> index == old(index) + 1 && offset == 0 && drift == old(drift) + old(offset)
      ensures skipped ==> old(Unread()) == old(chunks[index][offset..]) + Unread()
    {
      hide Counted, Rest;
      skipped := current != null;
      if skipped {
        CountedSkip(chunks, index, offset, bytes, currentOffset, drift);
        currentOffset := currentOffset + (|current.data| - offset);
        current := current.next;
        drift := drift + offset;
        offset := 0;
        index := index + 1;
      }
    }

    /** bytestream_size: exact when no packet was ever skipped from inside */
    method Size() returns (n: int)
      requires Valid()
      ensures n == |Unread()| + drift
    {
      RestLength(chunks, index, offset);
      n := bytes - currentOffset - offset;
    }

    /** The copying loop of bytestream_get, bytestream_peek and bytestream_peek_at, from byte from of packet start on:
        copies size bytes and stops in the packet holding the last of them, before its last stretch. */
    method CopyRun(start: Packet, from: nat, ghost k0: nat, dst: array<Byte>, at: nat, size: nat)
      returns (packet: Packet, off: nat, copied: nat, ghost k: nat)
      requires Valid() && k0 < |spine| && start == spine[k0] && from <= |chunks[k0]|
      requires size <= |Rest(chunks, k0, from)| && at + size <= dst.Length && size > 0
      modifies dst
      ensures k0 <= k < |spine| && packet == spine[k] && copied < size && off + (size - copied) <= |chunks[k]|
      ensures copied == |Rest(chunks, k0, from)| - |Rest(chunks, k, off)|
      ensures dst[..at + size] + Rest(chunks, k, off + (size - copied)) == old(dst[..at]) + Rest(chunks, k0, from)
      ensures forall i :: at + size <= i < dst.Length ==> dst[i] == old(dst[i])
    {
      hide Rest, Counted;
      packet, off, copied, k := start, from, 0, k0;
      while |packet.data| - off < size - copied
        invariant k0 <= k < |spine| && packet == spine[k] && off <= |chunks[k]| && copied < size
        invariant copied == |Rest(chunks, k0, from)| - |Rest(chunks, k, off)|
        invariant dst[..at + copied] + Rest(chunks, k, off) == old(dst[..at]) + Rest(chunks, k0, from)
        invariant forall i :: at + copied <= i < dst.Length ==> dst[i] == old(dst[i])
        decreases |spine| - k
      {
        var n := |packet.data| - off;
        RestNext(chunks, k, off);
        ConcatAssoc(dst[..at + copied], chunks[k][off..], Rest(chunks, k + 1, 0));
        Store(dst, at + copied, packet.data[off..]);
        copied := copied + n;
        RestAtEnd(chunks, k + 1);
        packet := packet.next;
        off := 0;
        k := k + 1;
      }
      var n := size - copied;
      RestAdvance(chunks, k, off, n);
      ConcatAssoc(dst[..at + copied], chunks[k][off..off + n], Rest(chunks, k, off + n));
      Store(dst, at + copied, packet.data[off..off + n]);
    }

    /** Advance the read position to byte off + left of chunk k, passed bytes lying before byte off of it. */
    method MoveTo(packet: Packet, off: nat, left: nat, passed: nat, ghost k: nat)
      requires Valid() && k < |spine| && packet == spine[k] && off + left <= |chunks[k]|
      requires passed == |Unread()| - |Rest(chunks, k, off)|
      modifies this`current, this`currentOffset, this`offset, this`index
      ensures Valid() && Unread() == Rest(chunks, k, off + left) && index == k && offset == off + left
    {
      hide Rest, Counted;
      CountedMove(chunks, index, offset, bytes, currentOffset, drift, k, off, off + left);
      current := packet;
      currentOffset := currentOffset + (offset - off + passed);
      offset := off + left;
      index := k;
    }

    /** bytestream_get */
    method Get(dst: array<Byte>, at: nat, size: nat) returns (ok: bool)
      requires Valid() && at + size <= dst.Length && Answerable(size)
      modifies this`current, this`currentOffset, this`offset, this`index, dst
      ensures Valid() && ok == (size <= |old(Unread())|)
      ensures !ok ==> Unread() == old(Unread()) && dst[..] == old(dst[..])
      ensures ok ==> dst[..at + size] + Unread() == old(dst[..at] + Unread())
      ensures ok && size > 0 ==> offset > 0 && index >= old(index)
      ensures size == 0 ==> index == old(index) && offset == old(offset)
      ensures forall i :: at + size <= i < dst.Length ==> dst[i] == old(dst[i])
    {
      hide Rest, Counted;
      if size == 0 {
        return true;
      }
      Counting();
      if bytes - currentOffset - offset < size {
        return false;
      }
      RestAtEnd(chunks, index);
      var packet, off, copied, k := CopyRun(current, offset, index, dst, at, size);
      MoveTo(packet, off, size - copied, copied, k);
      return true;
    }

    /** bytestream_peek */
    method Peek(dst: array<Byte>, at: nat, size: nat) returns (ok: bool)
      requires Valid() && at + size <= dst.Length && Answerable(size)
      modifies dst
      ensures ok == (size <= |Unread()|)
      ensures !ok ==> dst[..] == old(dst[..])
      ensures ok ==> dst[..at + size] == old(dst[..at]) + Unread()[..size]
      ensures forall i :: at + size <= i < dst.Length ==> dst[i] == old(dst[i])
    {
      hide Rest, Counted;
      if size == 0 {
        return true;
      }
      Counting();
      if bytes - currentOffset - offset < size {
        return false;
      }
      RestAtEnd(chunks, index);
      ghost var before := dst[..at];
      var packet, off, copied, k := CopyRun(current, offset, index, dst, at, size);
      SplitPrefix(dst[..at + size], Rest(chunks, k, off + (size - copied)), before, Unread(), size);
      return true;
    }

    /** bytestream_peek_at */
    method PeekAt(peekOffset: nat, dst: array<Byte>, at: nat, size: nat) returns (ok: bool)
      requires Valid() && at + size <= dst.Length && (size > 0 ==> Answerable(peekOffset + size))
      modifies dst
      ensures ok == (size == 0 || peekOffset + size <= |Unread()|)
      ensures !ok ==> dst[..] == old(dst[..])
      ensures ok && size > 0 ==> dst[..at + size] == old(dst[..at]) + Unread()[peekOffset..peekOffset + size]
      ensures forall i :: at + size <= i < dst.Length ==> dst[i] == old(dst[i])
    {
      hide Rest, Counted;
      if size == 0 {
        return true;
      }
      Counting();
      if bytes - currentOffset - offset < peekOffset + size {
        return false;
      }
      var packet, off, k := FindByte(peekOffset, size);
      ghost var before := dst[..at];
      var last, lastOff, copied, lastK := CopyRun(packet, off, k, dst, at, size);
      SplitPrefix(dst[..at + size], Rest(chunks, lastK, lastOff + (size - copied)), before, Rest(chunks, k, off), size);
      return true;
    }

    /** The first loop of bytestream_peek_at: the packet holding the unread byte at the given distance. */
    method FindByte(distance: nat, ghost size: nat) returns (packet: Packet, off: nat, ghost k: nat)
      requires Valid() && distance + size <= |Unread()| && size > 0
      ensures k < |spine| && packet == spine[k] && off < |chunks[k]|
      ensures Rest(chunks, k, off) == Unread()[distance..]
    {
      hide Rest, Counted;
      RestAtEnd(chunks, index);
      RestAtStart(chunks, index, offset);
      packet, off, k := current, distance + offset, index;
      ghost var u := Rest(chunks, index, 0);
      while |packet.data| <= off
        invariant k < |spine| && packet == spine[k]
        invariant off < |Rest(chunks, k, 0)| && Rest(chunks, k, 0)[off..] == Unread()[distance..]
        decreases |spine| - k
      {
        RestNext(chunks, k, 0);
        RestAtEnd(chunks, k + 1);
        SkipPrefix(chunks[k], Rest(chunks, k + 1, 0), off);
        off := off - |packet.data|;
        packet := packet.next;
        k := k + 1;
      }
      RestAtStart(chunks, k, off);
    }

    /** bytestream_skip */
    method Skip(size: nat) returns (ok: bool)
      requires Valid() && Answerable(size)
      modifies this`current, this`currentOffset, this`offset, this`index
      ensures Valid() && ok == (size <= |old(Unread())|)
      ensures Unread() == if ok then old(Unread())[size..] else old(Unread())
    {
      hide Rest, Counted;
      if size == 0 {
        return true;
      }
      Counting();
      if bytes - currentOffset - offset < size {
        return false;
      }
      var packet, off, passed, k := FindLast(size);
      MoveTo(packet, off, size - passed, passed, k);
      return true;
    }

    /** The loop of bytestream_skip: the packet holding the last of size unread bytes. */
    method FindLast(size: nat) returns (packet: Packet, off: nat, passed: nat, ghost k: nat)
      requires Valid() && 0 < size <= |Unread()|
      ensures k < |spine| && packet == spine[k] && passed < size && off + (size - passed) <= |chunks[k]|
      ensures passed == |Unread()| - |Rest(chunks, k, off)|
      ensures Rest(chunks, k, off + (size - passed)) == Unread()[size..]
    {
      hide Rest, Counted;
      RestAtEnd(chunks, index);
      packet, off, passed, k := current, offset, 0, index;
      ghost var u := Unread();
      while |packet.data| - off < size - passed
        invariant k < |spine| && packet == spine[k] && off <= |chunks[k]| && passed < size
        invariant u[passed..] == Rest(chunks, k, off)
        decreases |spine| - k
      {
        var n := |packet.data| - off;
        RestNext(chunks, k, off);
        RestAtEnd(chunks, k + 1);
        Dropped(u, passed, chunks[k][off..], Rest(chunks, k + 1, 0));
        passed := passed + n;
        packet := packet.next;
        off := 0;
        k := k + 1;
      }
      var left := size - passed;
      RestAdvance(chunks, k, off, left);
      Dropped(u, passed, chunks[k][off..off + left], Rest(chunks, k, off + left));
    }

    /** bytestream_skip_byte */
    method SkipByte() returns (ok: bool)
      requires Valid() && Answerable(1)
      modifies this`current, this`currentOffset, this`offset, this`index
      ensures Valid() && ok == (old(Unread()) != [])
      ensures Unread() == if ok then old(Unread())[1..] else []
    {
      hide Rest, Counted;
      RestAtEnd(chunks, index);
      if current == null {
        return false;
      }
      if |current.data| - offset > 0 {
        RestAdvance(chunks, index, offset, 1);
        StepInside();
        return true;
      }
      ok := Skip(1);
    }

    /** packet_get_byte */
    method GetByte(dst: array<Byte>) returns (ok: bool)
      requires Valid() && dst.Length > 0 && Answerable(1)
      modifies this`current, this`currentOffset, this`offset, this`index, dst
      ensures Valid() && ok == (old(Unread()) != [])
      ensures ok ==> [dst[0]] + Unread() == old(Unread())
      ensures !ok ==> Unread() == []
    {
      hide Rest, Counted;
      RestAtEnd(chunks, index);
      if current == null {
        return false;
      }
      if |current.data| - offset > 0 {
        RestAdvance(chunks, index, offset, 1);
        dst[0] := current.data[offset];
        assert [dst[0]] == chunks[index][offset..offset + 1];
        StepInside();
        return true;
      }
      assert dst[..0] == [];
      ok := Get(dst, 0, 1);
      assert dst[..1] == [dst[0]];
    }

    /** The fast path: one byte further inside the current packet. */
    method StepInside()
      requires Valid() && index < |spine| && offset < |chunks[index]|
      modifies this`offset
      ensures Valid() && offset == old(offset) + 1
    {
      CountedMove(chunks, index, offset, bytes, currentOffset, drift, index, offset, offset + 1);
      hide Rest, Counted;
      offset := offset + 1;
    }

    /** bytestream_find_startcode.  The two nested loops of the source are one loop here: a packet that is used up is
        left before the next byte is looked at. */
    method FindStartcode(searchOffset: nat, startcode: seq<Byte>) returns (found: bool, position: nat)
      requires Valid() && |startcode| > 0
      ensures Skippable(Unread(), searchOffset, position, startcode)
      ensures found ==> MatchAt(Unread(), position, startcode)
      ensures !found ==> position + |startcode| > |Unread()|
      ensures LeastMatch(Unread(), searchOffset, startcode) == if found then Some(position) else None
    {
      hide Rest, Counted, MatchAt, Compatible, LeastMatch;
      Counting();
      position := searchOffset;
      if bytes - currentOffset - offset < searchOffset + |startcode| {
        SearchResult(Unread(), searchOffset, position, startcode);
        return false, position;
      }
      var packet, off, k := FindFrom(searchOffset);
      found, position := SearchFrom(packet, off, k, searchOffset, startcode);
      SearchResult(Unread(), searchOffset, position, startcode);
    }

    /** The first loop of bytestream_find_startcode. */
    method FindFrom(distance: nat) returns (packet: Packet?, off: nat, ghost k: nat)
      requires Valid()
      ensures k <= |spine| && packet == (if k < |spine| then spine[k] else null)
      ensures packet != null ==> At(chunks, k, off, Unread(), distance)
      ensures packet == null ==> distance >= |Unread()|
    {
      hide Rest, Counted;
      var left: nat := distance;
      packet, off, k := current, offset, index;
      ghost var u := Unread();
      while packet != null && |packet.data| - off <= left
        invariant k <= |spine| && packet == (if k < |spine| then spine[k] else null) && Within(chunks, k, off)
        invariant left <= distance && distance - left <= |u| && u[distance - left..] == Rest(chunks, k, off)
        decreases |spine| - k
      {
        RestNext(chunks, k, off);
        Dropped(u, distance - left, chunks[k][off..], Rest(chunks, k + 1, 0));
        left := left - (|packet.data| - off);
        packet := packet.next;
        off := 0;
        k := k + 1;
      }
      if packet == null {
        RestAtEnd(chunks, k);
      } else {
        RestAdvance(chunks, k, off, left);
        Dropped(u, distance - left, chunks[k][off..off + left], Rest(chunks, k, off + left));
        off := off + left;
      }
    }

    /** The second loop of bytestream_find_startcode, from byte from of packet start on. */
    method SearchFrom(start: Packet?, from: nat, ghost k0: nat, searchOffset: nat, startcode: seq<Byte>)
      returns (found: bool, position: nat)
      requires Valid() && |startcode| > 0
      requires k0 <= |spine| && start == (if k0 < |spine| then spine[k0] else null)
      requires start != null ==> At(chunks, k0, from, Unread(), searchOffset)
      requires start == null ==> searchOffset >= |Unread()|
      ensures Skippable(Unread(), searchOffset, position, startcode)
      ensures found ==> MatchAt(Unread(), position, startcode)
      ensures !found ==> position + |startcode| > |Unread()|
    {
      hide Rest, Counted, At, Compatible;
      var packet, backupPacket := start, start;
      var off: nat, matched: nat, backupOff: nat := from, 0, from;
      ghost var u, k: nat, backupK: nat := Unread(), k0, k0;
      position := searchOffset;
      while packet != null
        invariant k <= |spine| && packet == (if k < |spine| then spine[k] else null) && matched < |startcode|
        invariant packet != null ==> At(chunks, k, off, u, position + matched)
        invariant packet == null ==> position + matched >= |u|
        invariant matched > 0 ==> backupK < |spine| && backupPacket == spine[backupK] && position + matched <= |u|
        invariant matched > 0 ==> backupOff < |backupPacket.data| && At(chunks, backupK, backupOff, u, position)
        invariant forall i :: 0 <= i < matched ==> u[position + i] == startcode[i]
        invariant Skippable(u, searchOffset, position, startcode)
        decreases |u| - position, |startcode| - matched, |spine| - k
      {
        if off >= |packet.data| {
          NextPacket(chunks, k, off, u, position + matched);
          packet := packet.next;
          off := 0;
          k := k + 1;
          continue;
        }
        NextByte(chunks, k, off, u, position + matched);
        if packet.data[off] != startcode[matched] {
          RuledOut(u, position, matched, startcode);
          if matched > 0 {
            packet, off, matched, k := backupPacket, backupOff, 0, backupK;
            NextByte(chunks, k, off, u, position);
          }
          position := position + 1;
          off := off + 1;
          continue;
        }
        if matched == 0 {
          backupPacket, backupOff, backupK := packet, off, k;
        }
        matched := matched + 1;
        if matched == |startcode| {
          assert u[position..position + matched] == startcode;
          return true, position;
        }
        off := off + 1;
      }
      return false, position;
    }

    /** The test for enough data compares with the unread bytes plus the drift. */
    lemma Counting()
      requires Valid()
      ensures bytes - currentOffset - offset == |Unread()| + drift
    {
      RestLength(chunks, index, offset);
    }
  }

  /** Byte off of chunk k is where the sequence u has position p. */
  ghost predicate At(chunks: seq<seq<Byte>>, k: nat, off: nat, u: seq<Byte>, p: nat)
  {
    Within(chunks, k, off) && p <= |u| && Rest(chunks, k, off) == u[p..]
  }

  lemma NextPacket(chunks: seq<seq<Byte>>, k: nat, off: nat, u: seq<Byte>, p: nat)
    requires At(chunks, k, off, u, p) && k < |chunks| && off >= |chunks[k]|
    ensures At(chunks, k + 1, 0, u, p)
    ensures k + 1 == |chunks| ==> p == |u|
  {
    hide Rest;
    RestNext(chunks, k, off);
    RestAtEnd(chunks, k + 1);
    Dropped(u, p, chunks[k][off..], Rest(chunks, k + 1, 0));
  }

  lemma NextByte(chunks: seq<seq<Byte>>, k: nat, off: nat, u: seq<Byte>, p: nat)
    requires At(chunks, k, off, u, p) && k < |chunks| && off < |chunks[k]|
    ensures p < |u| && u[p] == chunks[k][off] && At(chunks, k, off + 1, u, p + 1)
  {
    hide Rest;
    RestAdvance(chunks, k, off, 1);
    Dropped(u, p, chunks[k][off..off + 1], Rest(chunks, k, off + 1));
    assert u[p] == u[p..][0];
  }

  lemma RuledOut(u: seq<Byte>, p: nat, k: nat, code: seq<Byte>)
    requires k < |code| && p + k < |u| && u[p + k] != code[k]
    ensures !Compatible(u, p, code)
  {
  }

  lemma RestAtStart(chunks: seq<seq<Byte>>, k: nat, off: nat)
    requires Within(chunks, k, off)
    ensures off <= |Rest(chunks, k, 0)| && Rest(chunks, k, off) == Rest(chunks, k, 0)[off..]
  {
    if k < |chunks| {
      RestAdvance(chunks, k, 0, off);
      assert |chunks[k][0..off]| == off;
    }
  }

  lemma SkipPrefix(a: seq<Byte>, b: seq<Byte>, n: nat)
    requires |a| <= n <= |a + b|
    ensures (a + b)[n..] == b[n - |a|..]
  {
  }

  lemma RestAtEnd(chunks: seq<seq<Byte>>, k: nat)
    requires k <= |chunks|
    ensures k == |chunks| ==> Rest(chunks, k, 0) == []
  {
  }

  lemma CountedMove(chunks: seq<seq<Byte>>, index: nat, offset: nat, bytes: int, currentOffset: int, drift: nat,
                    k: nat, off: nat, newOffset: nat)
    requires Counted(chunks, index, offset, bytes, currentOffset, drift)
    requires Within(chunks, k, off) && Within(chunks, k, newOffset)
    ensures
      var passed := |Rest(chunks, index, offset)| - |Rest(chunks, k, off)|;
      Counted(chunks, k, newOffset, bytes, currentOffset + (offset - off + passed), drift)
  {
    RestLength(chunks, index, offset);
    RestLength(chunks, k, off);
  }
}
