/** Data chunks of an AVI file and the entries of its legacy index, as written by containers/avi/avi_writer.c. */
module AviFormat {
  import opened Common

  datatype Track = Video | Audio(blockAlign: bool)

  /** A packet as the application hands it over; frameSize is zero if the size of the whole frame is not known. */
  datatype Packet = Packet(track: nat, data: seq<Byte>, frameSize: nat, frameEnd: bool, keyframe: bool)

  /** A chunk header with the data behind it.  A piece that is not indexed is a header that was left behind without
      data because the writer counts data, not headers, to tell whether a chunk is open. */
  datatype Piece = Piece(track: nat, data: seq<Byte>, sizeField: nat, key: bool, indexed: bool)

  /** The chunk being written: its size field so far, and whether that is the announced size of the frame. */
  datatype Open = Open(track: nat, data: seq<Byte>, sizeField: nat, announced: bool)

  datatype Progress = Progress(pieces: seq<Piece>, open: Option<Open>)

  const AUDIO_LIMIT := 16384
  const AVIIF_KEYFRAME := 0x10
  const DELTAFRAME := 0x8000_0000

  // ---------- bytes ----------

  /** Two decimal digits and the kind of data: dc for video, wb for audio. */
  function ChunkId(tracks: seq<Track>, t: nat): (s: seq<Byte>)
    requires t < |tracks| && t < 100
    ensures |s| == 4
  {
    [48 + t / 10, 48 + t % 10] + if tracks[t].Video? then [0x64, 0x63] else [0x77, 0x62]
  }

  function Padding(n: nat): (s: seq<Byte>)
    ensures |s| == n % 2
  {
    if n % 2 == 1 then [0] else []
  }

  function Header(tracks: seq<Track>, t: nat, size: nat): (s: seq<Byte>)
    requires t < |tracks| && t < 100
    ensures |s| == 8
  {
    ChunkId(tracks, t) + Le32(size)
  }

  predicate PieceOk(tracks: seq<Track>, p: Piece)
  {
    p.track < |tracks| && p.track < 100 && (!p.indexed ==> p.data == [])
  }

  function PieceBytes(tracks: seq<Track>, p: Piece): (s: seq<Byte>)
    requires PieceOk(tracks, p)
    ensures |s| == Extent(|p.data|)
  {
    Header(tracks, p.track, p.sizeField) + p.data + Padding(|p.data|)
  }

  /** What a chunk of n data bytes takes up. */
  function Extent(n: nat): nat
  {
    8 + n + n % 2
  }

  ghost predicate PiecesOk(tracks: seq<Track>, pieces: seq<Piece>)
  {
    forall i :: 0 <= i < |pieces| ==> PieceOk(tracks, pieces[i])
  }

  lemma OnePieceOk(tracks: seq<Track>, pieces: seq<Piece>, k: nat)
    requires PiecesOk(tracks, pieces) && k < |pieces|
    ensures PieceOk(tracks, pieces[k])
  {
  }

  function Layout(tracks: seq<Track>, pieces: seq<Piece>): (s: seq<Byte>)
    requires PiecesOk(tracks, pieces)
  {
    if pieces == [] then []
    else Layout(tracks, pieces[..|pieces| - 1]) + PieceBytes(tracks, pieces[|pieces| - 1])
  }

  /** Where the header of piece k stands, from the start of the first one. */
  function HeaderOffset(pieces: seq<Piece>, k: nat): nat
    requires k <= |pieces|
  {
    if k == 0 then 0 else HeaderOffset(pieces, k - 1) + Extent(|pieces[k - 1].data|)
  }

  // ---------- the index ----------

  /** An entry of the temporary index: what is remembered of a chunk while the file is written. */
  datatype Noted = Noted(track: nat, size: nat, key: bool)

  /** The entries of the pieces that are indexed. */
  function Notes(pieces: seq<Piece>): seq<Noted>
  {
    if pieces == [] then []
    else
      var p := pieces[|pieces| - 1];
      Notes(pieces[..|pieces| - 1]) + if p.indexed then [Noted(p.track, |p.data|, p.key)] else []
  }

  /** How many headers were left behind. */
  function Strays(pieces: seq<Piece>): nat
  {
    if pieces == [] then 0
    else Strays(pieces[..|pieces| - 1]) + if pieces[|pieces| - 1].indexed then 0 else 1
  }

  /** The offset that the index gives for entry j: the sizes of the entries before it add up, starting at 4. */
  function IndexOffset(notes: seq<Noted>, j: nat): nat
    requires j <= |notes|
  {
    if j == 0 then 4 else IndexOffset(notes, j - 1) + Extent(notes[j - 1].size)
  }

  /** The entry that was noted for a piece, and where the index will say its chunk is: too low by one header for each
      one left behind. */
  lemma {:induction false} NotesBefore(pieces: seq<Piece>)
    requires forall i :: 0 <= i < |pieces| ==> !pieces[i].indexed ==> pieces[i].data == []
    ensures IndexOffset(Notes(pieces), |Notes(pieces)|) == 4 + HeaderOffset(pieces, |pieces|) - 8 * Strays(pieces)
  {
    if pieces != [] {
      var init, p := pieces[..|pieces| - 1], pieces[|pieces| - 1];
      NotesBefore(init);
      HeaderOffsetPrefix(pieces, |pieces| - 1);
      if p.indexed {
        IndexOffsetPrefix(Notes(init), [Noted(p.track, |p.data|, p.key)], |Notes(init)|);
      } else {
        assert Notes(pieces) == Notes(init);
      }
    }
  }

  lemma {:induction false} HeaderOffsetPrefix(pieces: seq<Piece>, k: nat)
    requires k <= |pieces|
    ensures HeaderOffset(pieces[..k], k) == HeaderOffset(pieces, k)
  {
    HeaderOffsetUpTo(pieces, k, k);
  }

  lemma {:induction false} HeaderOffsetUpTo(pieces: seq<Piece>, k: nat, n: nat)
    requires k <= n <= |pieces|
    ensures HeaderOffset(pieces[..n], k) == HeaderOffset(pieces, k)
  {
    if k > 0 {
      HeaderOffsetUpTo(pieces, k - 1, n);
    }
  }

  lemma {:induction false} IndexOffsetPrefix(a: seq<Noted>, b: seq<Noted>, j: nat)
    requires j <= |a|
    ensures IndexOffset(a + b, j) == IndexOffset(a, j)
  {
    if j > 0 {
      IndexOffsetPrefix(a, b, j - 1);
    }
  }

  lemma {:induction false} NotesPrefix(pieces: seq<Piece>, k: nat)
    requires k <= |pieces|
    ensures Notes(pieces[..k]) <= Notes(pieces)
    ensures k < |pieces| && pieces[k].indexed ==>
              var j := |Notes(pieces[..k])|;
              j < |Notes(pieces)| && Notes(pieces)[j] == Noted(pieces[k].track, |pieces[k].data|, pieces[k].key)
    decreases |pieces|
  {
    if k < |pieces| {
      var init := pieces[..|pieces| - 1];
      if k < |init| {
        assert init[..k] == pieces[..k];
        NotesPrefix(init, k);
      } else {
        assert init == pieces[..k];
      }
    } else {
      assert pieces[..k] == pieces;
    }
  }

  /** The index entry of a chunk points at its header exactly if no header was left behind in front of it; in general
      it is 8 too low for each one. */
  lemma {:induction false} IndexPointsAtHeader(pieces: seq<Piece>, k: nat)
    requires k < |pieces| && pieces[k].indexed
    requires forall i :: 0 <= i < |pieces| ==> !pieces[i].indexed ==> pieces[i].data == []
    ensures var j := |Notes(pieces[..k])|;
            && j < |Notes(pieces)| && Notes(pieces)[j] == Noted(pieces[k].track, |pieces[k].data|, pieces[k].key)
            && IndexOffset(Notes(pieces), j) == 4 + HeaderOffset(pieces, k) - 8 * Strays(pieces[..k])
            && (IndexOffset(Notes(pieces), j) == 4 + HeaderOffset(pieces, k) <==> Strays(pieces[..k]) == 0)
  {
    NotesPrefix(pieces, k);
    NotesBefore(pieces[..k]);
    HeaderOffsetPrefix(pieces, k);
    var a, n := Notes(pieces[..k]), Notes(pieces);
    assert n == a + n[|a|..];
    IndexOffsetPrefix(a, n[|a|..], |a|);
  }

  /** Every index entry belongs to a chunk. */
  function PieceOf(pieces: seq<Piece>, j: nat): (k: nat)
    requires j < |Notes(pieces)|
    ensures k < |pieces| && pieces[k].indexed && |Notes(pieces[..k])| == j
  {
    var init := pieces[..|pieces| - 1];
    if j < |Notes(init)| then
      var k := PieceOf(init, j);
      assert init[..k] == pieces[..k];
      k
    else |init|
  }

  // ---------- one packet ----------

  predicate Ends(tracks: seq<Track>, p: Packet, written: nat)
    requires p.track < |tracks|
  {
    p.frameEnd || (tracks[p.track] == Audio(true) && written > AUDIO_LIMIT)
  }

  /** Closing the open chunk because another track goes on, or at the end: its size is corrected, it is no keyframe. */
  function Cut(s: Progress): Progress
    requires s.open.Some?
  {
    var o := s.open.value;
    Progress(s.pieces + [Piece(o.track, o.data, |o.data|, false, true)], None)
  }

  function Closed(s: Progress): Progress
  {
    if s.open.Some? then Cut(s) else s
  }

  function Begin(p: Packet): Open
  {
    Open(p.track, [], if p.frameSize != 0 then p.frameSize else |p.data|, p.frameSize != 0)
  }

  /** What was written when the packet's own chunk comes to be continued. */
  function Switch(s: Progress, t: nat): Progress
  {
    if s.open.Some? && s.open.value.track != t then Cut(s) else s
  }

  /** The chunk with the packet's data added to it. */
  function Extended(s: Progress, p: Packet): Open
  {
    var o := if s.open.Some? then s.open.value else Begin(p);
    o.(data := o.data + p.data)
  }

  /** The chunk that the packet goes to stays below 2^31 bytes, so that bit 31 of a noted size is free. */
  predicate Fits(s: Progress, p: Packet)
  {
    |Extended(Switch(s, p.track), p).data| < DELTAFRAME
  }

  function FinalSize(o: Open): nat
  {
    if o.announced then o.sizeField else |o.data|
  }

  /** The chunk that a packet ends. */
  function Ended(o: Open, p: Packet): Piece
  {
    Piece(o.track, o.data, FinalSize(o), p.keyframe && p.frameEnd, true)
  }

  /** A header without data that is neither ended nor continued. */
  function LeftBehind(o: Open): Piece
  {
    Piece(o.track, [], o.sizeField, false, false)
  }

  /** Growing the chunk of the packet's track, and ending it if need be. */
  function Grow(tracks: seq<Track>, s1: Progress, p: Packet): Progress
    requires p.track < |tracks|
  {
    var o := Extended(s1, p);
    if Ends(tracks, p, |o.data|) then
      Progress(s1.pieces + [Ended(o, p)], None)
    else if o.data == [] then Progress(s1.pieces + [LeftBehind(o)], None)
    else Progress(s1.pieces, Some(o))
  }

  /** The effect of one packet. */
  function Step(tracks: seq<Track>, s: Progress, p: Packet): Progress
    requires p.track < |tracks|
  {
    Grow(tracks, Switch(s, p.track), p)
  }

  ghost predicate ForTracks(tracks: seq<Track>, packets: seq<Packet>)
  {
    forall i :: 0 <= i < |packets| ==> packets[i].track < |tracks|
  }

  /** The effect of a run of packets. */
  function Run(tracks: seq<Track>, packets: seq<Packet>): Progress
    requires ForTracks(tracks, packets)
  {
    if packets == [] then Progress([], None)
    else Step(tracks, Run(tracks, packets[..|packets| - 1]), packets[|packets| - 1])
  }

  ghost predicate ProgressOk(tracks: seq<Track>, s: Progress)
  {
    PiecesOk(tracks, s.pieces) && (s.open.Some? ==> s.open.value.track < |tracks| && s.open.value.data != [])
  }

  lemma {:induction false} StepOk(tracks: seq<Track>, s: Progress, p: Packet)
    requires ProgressOk(tracks, s) && p.track < |tracks| <= 100
    ensures ProgressOk(tracks, Step(tracks, s, p))
    ensures s.pieces <= Step(tracks, s, p).pieces
  {
  }

  lemma {:induction false} RunOk(tracks: seq<Track>, packets: seq<Packet>)
    requires ForTracks(tracks, packets) && |tracks| <= 100
    ensures ProgressOk(tracks, Run(tracks, packets))
  {
    if packets != [] {
      RunOk(tracks, packets[..|packets| - 1]);
      StepOk(tracks, Run(tracks, packets[..|packets| - 1]), packets[|packets| - 1]);
    }
  }

  // ---------- nothing is lost ----------

  /** The data of one track in the chunks. */
  function TrackData(pieces: seq<Piece>, t: nat): seq<Byte>
  {
    if pieces == [] then []
    else
      var p := pieces[|pieces| - 1];
      TrackData(pieces[..|pieces| - 1], t) + if p.track == t then p.data else []
  }

  function OpenData(s: Progress, t: nat): seq<Byte>
  {
    if s.open.Some? && s.open.value.track == t then s.open.value.data else []
  }

  function PacketData(packets: seq<Packet>, t: nat): seq<Byte>
  {
    if packets == [] then []
    else
      var p := packets[|packets| - 1];
      PacketData(packets[..|packets| - 1], t) + if p.track == t then p.data else []
  }

  lemma {:induction false} TrackDataOne(pieces: seq<Piece>, p: Piece, t: nat)
    ensures TrackData(pieces + [p], t) == TrackData(pieces, t) + if p.track == t then p.data else []
  {
    assert (pieces + [p])[..|pieces + [p]| - 1] == pieces;
  }

  function Stored(s: Progress, t: nat): seq<Byte>
  {
    TrackData(s.pieces, t) + OpenData(s, t)
  }

  lemma {:induction false} SwitchStores(s: Progress, p: Packet, t: nat)
    ensures Stored(Switch(s, p.track), t) == Stored(s, t)
    ensures Switch(s, p.track).open.Some? ==> Switch(s, p.track).open.value.track == p.track
  {
    if s.open.Some? {
      var o := s.open.value;
      TrackDataOne(s.pieces, Piece(o.track, o.data, |o.data|, false, true), t);
    }
  }

  lemma {:induction false} GrowStores(tracks: seq<Track>, s1: Progress, p: Packet, t: nat)
    requires p.track < |tracks| && (s1.open.Some? ==> s1.open.value.track == p.track)
    ensures Stored(Grow(tracks, s1, p), t) == Stored(s1, t) + if p.track == t then p.data else []
  {
    var o := Extended(s1, p);
    var (d, was) := (TrackData(s1.pieces, t), OpenData(s1, t));
    TrackDataOne(s1.pieces, Ended(o, p), t);
    TrackDataOne(s1.pieces, LeftBehind(o), t);
    hide Ends, TrackData;
    assert o.track == p.track && o.data == OpenData(s1, p.track) + p.data;
    if p.track == t {
      ConcatAssoc(d, was, p.data);
      assert d + o.data + [] == d + o.data;
      assert o.data == [] ==> d + [] + [] == d + o.data;
    } else {
      assert was == [] && d + [] + [] == d + [];
    }
  }

  lemma {:induction false} StepStores(tracks: seq<Track>, s: Progress, p: Packet, t: nat)
    requires p.track < |tracks|
    ensures Stored(Step(tracks, s, p), t) == Stored(s, t) + if p.track == t then p.data else []
  {
    SwitchStores(s, p, t);
    hide Switch, Grow, Stored;
    GrowStores(tracks, Switch(s, p.track), p, t);
  }

  /** For every interleaving of tracks and fragments the chunks of a track, with the open one, hold exactly the data of
      its packets in order. */
  lemma {:induction false} RunStores(tracks: seq<Track>, packets: seq<Packet>, t: nat)
    requires ForTracks(tracks, packets)
    ensures Stored(Run(tracks, packets), t) == PacketData(packets, t)
  {
    if packets != [] {
      var init := packets[..|packets| - 1];
      RunStores(tracks, init, t);
      StepStores(tracks, Run(tracks, init), packets[|packets| - 1], t);
    }
  }

  // ---------- headers left behind, and wrong sizes ----------

  /** An empty packet that would begin a chunk and does not end it. */
  predicate LeavesHeader(s: Progress, p: Packet)
  {
    p.data == [] && !p.frameEnd && !(s.open.Some? && s.open.value.track == p.track)
  }

  /** If the packet ends a chunk whose size was announced, that is the size of its data. */
  predicate AsAnnounced(tracks: seq<Track>, s: Progress, p: Packet)
    requires p.track < |tracks|
  {
    var o := Extended(Switch(s, p.track), p);
    Ends(tracks, p, |o.data|) && o.announced ==> o.sizeField == |o.data|
  }

  ghost predicate SizesRight(pieces: seq<Piece>)
  {
    forall k :: 0 <= k < |pieces| && pieces[k].indexed ==> pieces[k].sizeField == |pieces[k].data|
  }

  lemma {:induction false} StraysOne(pieces: seq<Piece>, p: Piece)
    ensures Strays(pieces + [p]) == Strays(pieces) + if p.indexed then 0 else 1
  {
    assert (pieces + [p])[..|pieces + [p]| - 1] == pieces;
  }

  lemma {:induction false} SizesOne(pieces: seq<Piece>, p: Piece)
    ensures SizesRight(pieces + [p]) <==> SizesRight(pieces) && (p.indexed ==> p.sizeField == |p.data|)
  {
    assert forall k :: 0 <= k < |pieces| ==> (pieces + [p])[k] == pieces[k];
    assert (pieces + [p])[|pieces|] == p;
  }

  lemma {:induction false} SwitchHarmless(s: Progress, t: nat)
    ensures Strays(Switch(s, t).pieces) == Strays(s.pieces)
    ensures SizesRight(Switch(s, t).pieces) <==> SizesRight(s.pieces)
  {
    hide Strays, SizesRight;
    if s.open.Some? && s.open.value.track != t {
      var o := s.open.value;
      StraysOne(s.pieces, Piece(o.track, o.data, |o.data|, false, true));
      SizesOne(s.pieces, Piece(o.track, o.data, |o.data|, false, true));
    }
  }

  lemma {:induction false} GrowHarm(tracks: seq<Track>, s1: Progress, p: Packet)
    requires p.track < |tracks| && (s1.open.Some? ==> s1.open.value.data != [])
    ensures Strays(Grow(tracks, s1, p).pieces)
            == Strays(s1.pieces) + if p.data == [] && !p.frameEnd && s1.open.None? then 1 else 0
    ensures var o := Extended(s1, p);
            SizesRight(Grow(tracks, s1, p).pieces) <==>
            SizesRight(s1.pieces) && (Ends(tracks, p, |o.data|) && o.announced ==> o.sizeField == |o.data|)
  {
    var o := Extended(s1, p);
    var ended := Ended(o, p);
    var left := LeftBehind(o);
    StraysOne(s1.pieces, ended);
    StraysOne(s1.pieces, left);
    SizesOne(s1.pieces, ended);
    SizesOne(s1.pieces, left);
    hide SizesRight, Strays;
  }

  lemma {:induction false} StepHarm(tracks: seq<Track>, s: Progress, p: Packet)
    requires p.track < |tracks| && ProgressOk(tracks, s)
    ensures Strays(Step(tracks, s, p).pieces) == Strays(s.pieces) + if LeavesHeader(s, p) then 1 else 0
    ensures SizesRight(Step(tracks, s, p).pieces) <==> SizesRight(s.pieces) && AsAnnounced(tracks, s, p)
  {
    SwitchHarmless(s, p.track);
    GrowHarm(tracks, Switch(s, p.track), p);
    hide SizesRight, Strays, Grow;
  }

  // ---------- the same, told from the packets alone ----------

  /** How much data the packets from s up to e hold. */
  function DataSize(packets: seq<Packet>, s: nat, e: nat): nat
    requires s <= e <= |packets|
  {
    if s == e then 0 else DataSize(packets, s, e - 1) + |packets[e - 1].data|
  }

  /** That data. */
  function Bytes(packets: seq<Packet>, s: nat, e: nat): (r: seq<Byte>)
    requires s <= e <= |packets|
    ensures |r| == DataSize(packets, s, e)
  {
    if s == e then [] else Bytes(packets, s, e - 1) + packets[e - 1].data
  }

  /** The packet that began the chunk which packet i goes to: the one before, and so on, as long as they are of the same
      track, do not end the chunk, and have given it any data. */
  function Start(tracks: seq<Track>, packets: seq<Packet>, i: nat): (s: nat)
    requires ForTracks(tracks, packets) && i < |packets|
    ensures s <= i
    decreases i, 0
  {
    if i > 0 && packets[i - 1].track == packets[i].track && !EndsAt(tracks, packets, i - 1)
            && DataSize(packets, Start(tracks, packets, i - 1), i) > 0
    then Start(tracks, packets, i - 1) else i
  }

  /** The chunk that packet i goes to ends with it: the frame does, or audio data has passed the limit. */
  predicate EndsAt(tracks: seq<Track>, packets: seq<Packet>, i: nat)
    requires ForTracks(tracks, packets) && i < |packets|
    decreases i, 1
  {
    Ends(tracks, packets[i], DataSize(packets, Start(tracks, packets, i), i + 1))
  }

  /** Packet i begins a chunk, is empty, and does not end it. */
  predicate BeginsEmpty(tracks: seq<Track>, packets: seq<Packet>, i: nat)
    requires ForTracks(tracks, packets) && i < |packets|
  {
    Start(tracks, packets, i) == i && packets[i].data == [] && !packets[i].frameEnd
  }

  /** No empty packet begins a chunk that it does not end. */
  ghost predicate NoHeaderLeft(tracks: seq<Track>, packets: seq<Packet>)
    requires ForTracks(tracks, packets)
  {
    forall i :: 0 <= i < |packets| ==> !BeginsEmpty(tracks, packets, i)
  }

  /** The size that packet i makes wrong, if any: it ends a chunk whose first packet announced another one. */
  predicate RightAt(tracks: seq<Track>, packets: seq<Packet>, i: nat)
    requires ForTracks(tracks, packets) && i < |packets|
  {
    var s := Start(tracks, packets, i);
    EndsAt(tracks, packets, i) && packets[s].frameSize != 0 ==> DataSize(packets, s, i + 1) == packets[s].frameSize
  }

  /** Where a chunk is ended by a packet of its own track and its first packet announced a size, the data from that
      packet to the ending one adds up to it. */
  ghost predicate AllAsAnnounced(tracks: seq<Track>, packets: seq<Packet>)
    requires ForTracks(tracks, packets)
  {
    forall i :: 0 <= i < |packets| ==> RightAt(tracks, packets, i)
  }

  /** What is open in front of packet i. */
  ghost predicate OpenBefore(tracks: seq<Track>, packets: seq<Packet>, i: nat, s: Progress)
    requires ForTracks(tracks, packets) && i < |packets|
  {
    var t := Start(tracks, packets, i);
    if t == i then Switch(s, packets[i].track).open.None?
    else
      && s.open.Some?
      && var o := s.open.value;
      && o.track == packets[i].track && o.data == Bytes(packets, t, i) != []
      && (o.announced <==> packets[t].frameSize != 0) && (o.announced ==> o.sizeField == packets[t].frameSize)
  }

  /** The chunk that packet i goes to, and what remains open behind it. */
  lemma {:induction false} OpenBehind(tracks: seq<Track>, packets: seq<Packet>, i: nat, s: Progress)
    requires ForTracks(tracks, packets) && i < |packets| && OpenBefore(tracks, packets, i, s)
    ensures var (t, o) := (Start(tracks, packets, i), Extended(Switch(s, packets[i].track), packets[i]));
            && o.track == packets[i].track && o.data == Bytes(packets, t, i + 1)
            && (o.announced <==> packets[t].frameSize != 0) && (o.announced ==> o.sizeField == packets[t].frameSize)
            && Step(tracks, s, packets[i]).open
               == if EndsAt(tracks, packets, i) || o.data == [] then None else Some(o)
  {
    hide Start;
    var t := Start(tracks, packets, i);
    assert Bytes(packets, i, i) == [];
    assert Bytes(packets, t, i + 1) == Bytes(packets, t, i) + packets[i].data;
    hide DataSize, Bytes;
  }

  lemma {:induction false} RunOpen(tracks: seq<Track>, packets: seq<Packet>, i: nat)
    requires ForTracks(tracks, packets) && i < |packets|
    ensures OpenBefore(tracks, packets, i, Run(tracks, packets[..i]))
    decreases i
  {
    if i > 0 {
      var s := Run(tracks, packets[..i - 1]);
      assert packets[..i][..i - 1] == packets[..i - 1];
      RunOpen(tracks, packets, i - 1);
      OpenBehind(tracks, packets, i - 1, s);
      hide Step, Ends, DataSize, Bytes, OpenBefore, Extended, Run;
      var o := Extended(Switch(s, packets[i - 1].track), packets[i - 1]);
      OpenNext(tracks, packets, i, Run(tracks, packets[..i]), o);
    }
  }

  lemma OpenNext(tracks: seq<Track>, packets: seq<Packet>, i: nat, s: Progress, o: Open)
    requires ForTracks(tracks, packets) && 0 < i < |packets|
    requires var t := Start(tracks, packets, i - 1);
             && o.track == packets[i - 1].track && o.data == Bytes(packets, t, i)
             && (o.announced <==> packets[t].frameSize != 0) && (o.announced ==> o.sizeField == packets[t].frameSize)
             && s.open == if EndsAt(tracks, packets, i - 1) || o.data == [] then None else Some(o)
    ensures OpenBefore(tracks, packets, i, s)
  {
    hide EndsAt, DataSize, Bytes;
  }

  /** What a packet of a run does, told from the packets. */
  lemma {:induction false} HarmAt(tracks: seq<Track>, packets: seq<Packet>, i: nat)
    requires ForTracks(tracks, packets) && i < |packets|
    ensures var s := Run(tracks, packets[..i]);
            && (LeavesHeader(s, packets[i]) <==> BeginsEmpty(tracks, packets, i))
            && (AsAnnounced(tracks, s, packets[i]) <==> RightAt(tracks, packets, i))
  {
    RunOpen(tracks, packets, i);
    OpenBehind(tracks, packets, i, Run(tracks, packets[..i]));
    hide Run, Step, Ends, DataSize, Bytes, Start, Extended;
  }

  /** How far a run has come without harm. */
  lemma {:induction false} RunHarmUpTo(tracks: seq<Track>, packets: seq<Packet>, n: nat)
    requires ForTracks(tracks, packets) && |tracks| <= 100 && n <= |packets|
    ensures Strays(Run(tracks, packets[..n]).pieces) == 0 <==>
            forall i :: 0 <= i < n ==> !BeginsEmpty(tracks, packets, i)
    ensures SizesRight(Run(tracks, packets[..n]).pieces) <==>
            forall i :: 0 <= i < n ==> RightAt(tracks, packets, i)
  {
    hide *;
    if n == 0 {
      NoHarmYet(tracks, packets);
    } else {
      RunHarmUpTo(tracks, packets, n - 1);
      HarmStep(tracks, packets, n - 1);
    }
  }

  lemma NoHarmYet(tracks: seq<Track>, packets: seq<Packet>)
    requires ForTracks(tracks, packets)
    ensures var pieces := Run(tracks, packets[..0]).pieces;
            Strays(pieces) == 0 && SizesRight(pieces)
  {
  }

  /** One packet more. */
  lemma {:induction false} HarmStep(tracks: seq<Track>, packets: seq<Packet>, i: nat)
    requires ForTracks(tracks, packets) && |tracks| <= 100 && i < |packets|
    ensures var (a, b) := (Run(tracks, packets[..i]).pieces, Run(tracks, packets[..i + 1]).pieces);
            && Strays(b) == Strays(a) + (if BeginsEmpty(tracks, packets, i) then 1 else 0)
            && (SizesRight(b) <==> SizesRight(a) && RightAt(tracks, packets, i))
  {
    var init := packets[..i];
    assert packets[..i + 1][..i] == init;
    assert Run(tracks, packets[..i + 1]) == Step(tracks, Run(tracks, init), packets[i]);
    hide Run, LeavesHeader, AsAnnounced, SizesRight, Strays, Step, RightAt, BeginsEmpty;
    RunOk(tracks, init);
    StepHarm(tracks, Run(tracks, init), packets[i]);
    HarmAt(tracks, packets, i);
  }

  /** Over every run: no header is left behind exactly if no empty packet begins a chunk without ending it, and all
      chunk headers give the right size exactly if the data of every chunk that is ended by its own track adds up to
      what its first packet announced. */
  lemma {:induction false} RunHarm(tracks: seq<Track>, packets: seq<Packet>)
    requires ForTracks(tracks, packets) && |tracks| <= 100
    ensures Strays(Run(tracks, packets).pieces) == 0 <==> NoHeaderLeft(tracks, packets)
    ensures SizesRight(Run(tracks, packets).pieces) <==> AllAsAnnounced(tracks, packets)
  {
    RunHarmUpTo(tracks, packets, |packets|);
    assert packets[..|packets|] == packets;
    hide Run, RightAt, BeginsEmpty, SizesRight, Strays;
  }

  /** An empty unfinished packet leaves a header behind, and audio that is split at the limit gets the announced size in
      the header of its first part. */
  lemma {:induction false} Harmful()
    ensures !NoHeaderLeft([Video], [Packet(0, [], 0, false, false)])
    ensures forall data: seq<Byte> | |data| == 20000 ::
              !AllAsAnnounced([Audio(true)], [Packet(0, data, 40000, false, false)])
  {
    assert BeginsEmpty([Video], [Packet(0, [], 0, false, false)], 0);
    forall data: seq<Byte> | |data| == 20000
      ensures !AllAsAnnounced([Audio(true)], [Packet(0, data, 40000, false, false)])
    {
      assert DataSize([Packet(0, data, 40000, false, false)], 0, 1) == 20000;
      assert !RightAt([Audio(true)], [Packet(0, data, 40000, false, false)], 0);
    }
  }

  /** An announced frame of two bytes that a packet of another track interrupts: the header of its second part gives the
      size of the whole frame. */
  lemma {:induction false} Interrupted()
    ensures var (tracks, packets) := ([Video, Video], [Packet(0, [1], 2, false, false), Packet(1, [2], 1, true, false),
            Packet(0, [3], 2, true, false)]);
            && !AllAsAnnounced(tracks, packets)
            && Run(tracks, packets).pieces[2..] == [Piece(0, [3], 2, false, true)]
  {
    var tracks, p, q, r := [Video, Video], Packet(0, [1], 2, false, false), Packet(1, [2], 1, true, false),
      Packet(0, [3], 2, true, false);
    var a := Progress([], Some(Open(0, [1], 2, true)));
    var b := Progress([Piece(0, [1], 1, false, true), Piece(1, [2], 1, false, true)], None);
    assert [p, q, r][..2] == [p, q] && [p, q][..1] == [p] && [p][..0] == [];
    assert Run(tracks, []) == Progress([], None);
    assert [] + [1] == [1] && [] + [2] == [2] && [] + [3] == [3];
    assert Run(tracks, [p]) == Step(tracks, Progress([], None), p) == a;
    assert Cut(a) == Progress([Piece(0, [1], 1, false, true)], None) && Switch(a, 1) == Cut(a);
    assert Run(tracks, [p, q]) == Step(tracks, a, q) == b;
    assert Run(tracks, [p, q, r]) == Step(tracks, b, r);
    assert DataSize([p, q, r], 2, 3) == 1 && Start(tracks, [p, q, r], 2) == 2;
    assert !RightAt(tracks, [p, q, r], 2);
  }
}
