/** The chunks that the AVI writer makes of a run of packets, told from the packets alone: which packets each chunk
    holds, what its header says, and whether it is a keyframe. */
module AviChunks {
  import opened Common
  import opened AviFormat

  /** The chunk, if any, that is finished behind packet i.  A packet that ends its chunk makes it a keyframe exactly if
      it is marked as one and as the end of a frame; a chunk that another track or the end of the file cuts off is none;
      a header without data that is not ended is left behind. */
  function ChunkOf(tracks: seq<Track>, packets: seq<Packet>, i: nat): (r: seq<Piece>)
    requires ForTracks(tracks, packets) && i < |packets|
    ensures |r| <= 1
  {
    var (p, s) := (packets[i], Start(tracks, packets, i));
    var data := Bytes(packets, s, i + 1);
    if EndsAt(tracks, packets, i) then
      [Piece(p.track, data, if packets[s].frameSize != 0 then packets[s].frameSize else |data|,
             p.keyframe && p.frameEnd, true)]
    else if data == [] then [Piece(p.track, [], packets[s].frameSize, false, false)]
    else if i + 1 == |packets| || packets[i + 1].track != p.track then [Piece(p.track, data, |data|, false, true)]
    else []
  }

  function ChunksUpTo(tracks: seq<Track>, packets: seq<Packet>, n: nat): seq<Piece>
    requires ForTracks(tracks, packets) && n <= |packets|
  {
    if n == 0 then [] else ChunksUpTo(tracks, packets, n - 1) + ChunkOf(tracks, packets, n - 1)
  }

  function Chunks(tracks: seq<Track>, packets: seq<Packet>): seq<Piece>
    requires ForTracks(tracks, packets)
  {
    ChunksUpTo(tracks, packets, |packets|)
  }

  /** What the writer has finished when it comes to packet n, or to the end. */
  function Finishing(tracks: seq<Track>, packets: seq<Packet>, n: nat): seq<Piece>
    requires ForTracks(tracks, packets) && n <= |packets|
  {
    var s := Run(tracks, packets[..n]);
    if n == |packets| then Closed(s).pieces else Switch(s, packets[n].track).pieces
  }

  /** One packet more. */
  lemma ChunkMade(tracks: seq<Track>, packets: seq<Packet>, n: nat)
    requires ForTracks(tracks, packets) && n < |packets|
    ensures Finishing(tracks, packets, n + 1) == Finishing(tracks, packets, n) + ChunkOf(tracks, packets, n)
  {
    var s, p := Run(tracks, packets[..n]), packets[n];
    assert packets[..n + 1][..n] == packets[..n];
    assert Run(tracks, packets[..n + 1]) == Grow(tracks, Switch(s, p.track), p);
    RunOpen(tracks, packets, n);
    OpenBehind(tracks, packets, n, s);
    NothingBegun(tracks, packets, n, s);
    hide Run, Start, Bytes, DataSize, Ends, OpenBefore, Extended, Switch;
    var o := Extended(Switch(s, p.track), p);
    var t := Grow(tracks, Switch(s, p.track), p);
    SwitchIs(t, if n + 1 < |packets| then packets[n + 1].track else 0);
  }

  lemma SwitchIs(s: Progress, t: nat)
    ensures Switch(s, t) == if s.open.Some? && s.open.value.track != t then Cut(s) else s
  {
  }

  /** A chunk without data has just been begun. */
  lemma NothingBegun(tracks: seq<Track>, packets: seq<Packet>, n: nat, s: Progress)
    requires ForTracks(tracks, packets) && n < |packets| && OpenBefore(tracks, packets, n, s)
    ensures var (t, o) := (Start(tracks, packets, n), Extended(Switch(s, packets[n].track), packets[n]));
            && (!o.announced && o.data == [] ==> o.sizeField == 0)
            && (EndsAt(tracks, packets, n) <==> Ends(tracks, packets[n], |Bytes(packets, t, n + 1)|))
  {
    hide Start, Bytes, DataSize, Ends;
  }

  lemma NothingFinished(tracks: seq<Track>, packets: seq<Packet>)
    requires ForTracks(tracks, packets)
    ensures Finishing(tracks, packets, 0) == []
  {
    assert packets[..0] == [] && Run(tracks, []) == Progress([], None);
  }

  /** For every interleaving of tracks and fragments: the writer makes exactly these chunks. */
  lemma {:induction false} RunChunksUpTo(tracks: seq<Track>, packets: seq<Packet>, n: nat)
    requires ForTracks(tracks, packets) && n <= |packets|
    ensures Finishing(tracks, packets, n) == ChunksUpTo(tracks, packets, n)
  {
    hide ChunkOf, Finishing;
    if n == 0 {
      NothingFinished(tracks, packets);
    } else {
      RunChunksUpTo(tracks, packets, n - 1);
      ChunkMade(tracks, packets, n - 1);
    }
  }

  lemma RunChunks(tracks: seq<Track>, packets: seq<Packet>)
    requires ForTracks(tracks, packets)
    ensures Closed(Run(tracks, packets)).pieces == Chunks(tracks, packets)
  {
    hide Run, Closed, ChunksUpTo;
    RunChunksUpTo(tracks, packets, |packets|);
    assert packets[..|packets|] == packets;
  }

  /** Every chunk stays below 2^31 bytes. */
  ghost predicate ChunksFit(tracks: seq<Track>, packets: seq<Packet>)
    requires ForTracks(tracks, packets)
  {
    forall i :: 0 <= i < |packets| ==> DataSize(packets, Start(tracks, packets, i), i + 1) < DELTAFRAME
  }

  lemma ChunkFits(tracks: seq<Track>, packets: seq<Packet>, i: nat)
    requires ForTracks(tracks, packets) && ChunksFit(tracks, packets) && i < |packets|
    ensures Fits(Run(tracks, packets[..i]), packets[i])
  {
    hide Run, Start, Bytes, DataSize, OpenBefore, Step, EndsAt;
    RunOpen(tracks, packets, i);
    OpenBehind(tracks, packets, i, Run(tracks, packets[..i]));
  }

  /** The packet behind which chunk k is finished. */
  function LastPacket(tracks: seq<Track>, packets: seq<Packet>, n: nat, k: nat): (i: nat)
    requires ForTracks(tracks, packets) && n <= |packets| && k < |ChunksUpTo(tracks, packets, n)|
    ensures i < n && ChunkOf(tracks, packets, i) == [ChunksUpTo(tracks, packets, n)[k]]
    ensures |ChunksUpTo(tracks, packets, i)| == k
  {
    if k < |ChunksUpTo(tracks, packets, n - 1)| then LastPacket(tracks, packets, n - 1, k) else n - 1
  }

  /** Every keyframe chunk ends with a packet that is marked as a keyframe and as the end of a frame. */
  ghost predicate KeyframesEnd(tracks: seq<Track>, packets: seq<Packet>)
    requires ForTracks(tracks, packets)
  {
    forall k: nat :: k < |Chunks(tracks, packets)| && Chunks(tracks, packets)[k].key ==>
      var i := LastPacket(tracks, packets, |packets|, k);
      && EndsAt(tracks, packets, i) && packets[i].keyframe && packets[i].frameEnd
      && packets[i].track == Chunks(tracks, packets)[k].track
  }

  lemma AllKeyframesEnd(tracks: seq<Track>, packets: seq<Packet>)
    requires ForTracks(tracks, packets)
    ensures KeyframesEnd(tracks, packets)
  {
    hide ChunksUpTo, EndsAt;
    forall k: nat | k < |Chunks(tracks, packets)| && Chunks(tracks, packets)[k].key
      ensures var i := LastPacket(tracks, packets, |packets|, k);
              && EndsAt(tracks, packets, i) && packets[i].keyframe && packets[i].frameEnd
              && packets[i].track == Chunks(tracks, packets)[k].track
    {
      KeyframePacket(tracks, packets, k);
    }
  }

  /** Chunk k is a keyframe exactly if its last packet ends it, is marked as a keyframe and ends a frame. */
  lemma KeyframePacket(tracks: seq<Track>, packets: seq<Packet>, k: nat)
    requires ForTracks(tracks, packets) && k < |Chunks(tracks, packets)|
    ensures var i := LastPacket(tracks, packets, |packets|, k);
            && Chunks(tracks, packets)[k].track == packets[i].track
            && (Chunks(tracks, packets)[k].key <==>
                EndsAt(tracks, packets, i) && packets[i].keyframe && packets[i].frameEnd)
  {
    hide Start, EndsAt, Bytes, ChunksUpTo;
    var i := LastPacket(tracks, packets, |packets|, k);
    assert [Chunks(tracks, packets)[k]][0] == ChunkOf(tracks, packets, i)[0];
  }
}
