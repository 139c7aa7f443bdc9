/** The input side of containers/core/packetizers.c: client packets are queued in a byte stream and handed back once
    they have been read, or earlier, when forced, by putting an internal copy in their place. */
module Packetizer {
  import opened Common
  import opened ByteStream

  /** The internal copies are the first n packets of the list. */
  ghost predicate CopiesFirst(spine: seq<Packet>, n: nat)
    reads spine
  {
    forall i {:trigger spine[i]} :: 0 <= i < |spine| ==> (spine[i].framework <==> i < n)
  }

  class Input {
    const stream: Stream

    ghost var copies: nat             // how many packets at the front of the list are internal copies
    ghost var pushed: seq<Packet>     // every packet the client pushed, in order
    ghost var returned: seq<Packet>   // every packet handed back, in order

    /** Internal copies form a prefix of the list, and the client packets in it are the ones not handed back yet. */
    ghost predicate Valid()
      reads this, stream, stream.spine
    {
      && stream.Valid()
      && copies <= |stream.spine|
      && CopiesFirst(stream.spine, copies)
      && pushed == returned + stream.spine[copies..]
    }

    constructor ()
      ensures Valid() && fresh(stream) && pushed == [] && returned == [] && stream.Unread() == []
    {
      stream := new Stream();
      copies, pushed, returned := 0, [], [];
    }

    /** vc_packetizer_push */
    method Push(packet: Packet)
      requires Valid() && packet !in stream.spine
      modifies this, stream, packet, stream.LastPacket()`next
      ensures Valid() && stream.Unread() == old(stream.Unread() + packet.data) && stream.drift == old(stream.drift)
      ensures pushed == old(pushed) + [packet] && returned == old(returned) && copies == old(copies)
    {
      hide Rest, Counted;
      packet.framework := false;
      stream.Push(packet);
      pushed := pushed + [packet];
    }

    /** vc_packetizer_pop.  Client packets come back once each, in the order in which they were pushed; without force
        only one that has been read, with force the next one in any case.  The reader sees no difference. */
    method Pop(force: bool) returns (packet: Packet?)
      requires Valid()
      modifies this, stream, stream.spine
      ensures Valid() && stream.Unread() == old(stream.Unread()) && stream.drift == old(stream.drift)
      ensures pushed == old(pushed) && returned == old(returned) + (if packet == null then [] else [packet])
      ensures packet != null <==> if force then old(returned != pushed) else old(copies < stream.index)
    {
      hide Rest, Counted, Stream.Linked;
      packet := PopRead();
      if packet != null || !force {
        return;
      }
      assert forall p :: p in LastCopy() ==> p in stream.spine && p in old(stream.spine);
      packet := Replace();
    }

    /** The first loop of vc_packetizer_pop: drop the copies that have been read, up to a client packet. */
    method PopRead() returns (packet: Packet?)
      requires Valid()
      modifies this`copies, this`returned, stream
      ensures Valid() && stream.Unread() == old(stream.Unread()) && stream.drift == old(stream.drift)
      ensures returned == old(returned) + (if packet == null then [] else [packet])
      ensures packet != null <==> old(copies < stream.index)
      ensures packet != null ==> old(returned != pushed)
      ensures forall p :: p in stream.spine ==> p in old(stream.spine)
    {
      hide Rest, Counted, Stream.Linked;
      while true
        invariant Valid() && stream.Unread() == old(stream.Unread()) && stream.drift == old(stream.drift)
        invariant returned == old(returned) && copies - stream.index == old(copies - stream.index)
        invariant forall p :: p in stream.spine ==> p in old(stream.spine)
        decreases |stream.spine|
      {
        packet := PopOne();
        if packet == null || !packet.framework {
          return packet;
        }
      }
    }

    /** Take one packet off the stream; a copy is freed, a client packet is handed back. */
    method PopOne() returns (packet: Packet?)
      requires Valid()
      modifies this`copies, this`returned, stream
      ensures Valid() && stream.Unread() == old(stream.Unread()) && stream.drift == old(stream.drift)
      ensures packet == null ==> stream.index == 0 && stream.spine == old(stream.spine) && copies == old(copies)
      ensures packet == null ==> old(stream.index) == 0
      ensures packet != null ==> old(stream.spine) != [] && stream.spine == old(stream.spine)[1..]
      ensures packet != null && packet.framework ==> copies - stream.index == old(copies - stream.index)
      ensures packet != null && !packet.framework ==> old(copies == 0 && stream.index > 0 && returned != pushed)
      ensures returned == old(returned) + (if packet == null || packet.framework then [] else [packet])
    {
      hide Rest, Counted, Stream.Linked;
      ghost var before := stream.spine;
      packet := stream.Pop();
      if packet != null {
        if packet.framework {
          copies := copies - 1;
          assert stream.spine[copies..] == before[copies + 1..];
        } else {
          returned := returned + [packet];
          assert before == [packet] + stream.spine;
        }
      }
    }

    ghost function LastCopy(): set<Packet>
      reads this, stream
    {
      if 0 < copies <= |stream.spine| then {stream.spine[copies - 1]} else {}
    }

    /** The second part of vc_packetizer_pop: an internal copy takes the place of the first client packet, with the
        reader possibly in the middle of it. */
    method Replace() returns (packet: Packet?)
      requires Valid()
      modifies this`copies, this`returned, stream, LastCopy()`next
      ensures Valid() && stream.Unread() == old(stream.Unread()) && stream.drift == old(stream.drift)
      ensures returned == old(returned) + (if packet == null then [] else [packet])
      ensures packet != null <==> old(returned != pushed)
    {
      hide Rest, Counted, Stream.Linked, Stream.Valid, Within;
      var prev;
      packet, prev := FirstClient();
      if packet == null {
        return;
      }
      var copy := new Packet(packet.data, packet.frameEnd);
      copy.framework := true;
      HandOver(returned, stream.spine, copies, copy);
      ghost var before := stream.spine;
      Substitute(packet, prev, copy);
      assert CopiesFirst(stream.spine, copies + 1) by {
        assert forall i {:trigger before[i]} :: 0 <= i < |before| ==> (before[i].framework <==> i < copies);
      }
      copies := copies + 1;
      returned := returned + [packet];
    }

    /** Put copy in the place of packet. */
    method Substitute(packet: Packet, prev: Packet?, copy: Packet)
      requires stream.Valid() && copies < |stream.spine| && packet == stream.spine[copies]
      requires prev == if copies > 0 then stream.spine[copies - 1] else null
      requires copy !in stream.spine && copy.data == packet.data
      modifies stream, copy`next, LastCopy()`next
      ensures stream.Valid() && stream.Unread() == old(stream.Unread()) && stream.drift == old(stream.drift)
      ensures stream.spine == old(stream.spine)[copies := copy]
    {
      hide Rest, Counted, Within, Stream.Linked;
      Relink(packet, prev, copy);
    }

    /** Link copy into the list in place of packet. */
    method Relink(packet: Packet, prev: Packet?, copy: Packet)
      requires stream.Linked() && copies < |stream.spine| && packet == stream.spine[copies] && copy !in stream.spine
      requires prev == if copies > 0 then stream.spine[copies - 1] else null
      modifies stream`first, stream`last, stream`current, stream`spine, copy`next, LastCopy()`next
      ensures stream.Linked() && stream.spine == old(stream.spine)[copies := copy]
    {
      copy.next := packet.next;
      if copy.next == null {
        stream.last := copy;
      }
      if stream.current == packet {
        stream.current := copy;
      }
      if prev == null {
        stream.first := copy;
      } else {
        prev.next := copy;
      }
      stream.spine := stream.spine[copies := copy];
    }

    /** The search for the first packet that is not an internal copy. */
    method FirstClient() returns (packet: Packet?, prev: Packet?)
      requires Valid()
      ensures packet == if copies < |stream.spine| then stream.spine[copies] else null
      ensures prev == if copies > 0 then stream.spine[copies - 1] else null
    {
      hide Rest, Counted;
      packet, prev := stream.first, null;
      ghost var k := 0;
      while packet != null && packet.framework
        invariant k <= copies && packet == (if k < |stream.spine| then stream.spine[k] else null)
        invariant prev == if k > 0 then stream.spine[k - 1] else null
        decreases copies - k
      {
        prev := packet;
        packet := packet.next;
        k := k + 1;
      }
    }
  }
}
