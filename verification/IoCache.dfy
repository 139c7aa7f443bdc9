/** The cached stream of containers/core/containers_io.c over a seekable file, without the asynchronous writer:
    a window of the file is kept in a memory area, reads and writes go through the window.  The cached stream
    behaves as a flat file with a cursor. */
module IoCache {
  import opened Common

  /** MEM_CACHE_ALIGNMENT: a refilled window starts at this alignment plus a shift. */
  const ALIGNMENT := 1024

  // ---------- writing in pieces ----------

  /** Writing into a window and then writing the window back is writing straight into the file. */
  lemma SpliceWindow(f: seq<Byte>, o: nat, w: seq<Byte>, p: nat, d: seq<Byte>)
    requires p <= |w|
    ensures Splice(Splice(f, o, w), o + p, d) == Splice(f, o, Splice(w, p, d))
  {
  }

  /** Copying d over position p of an area that starts with w leaves an area that starts with the new window. */
  lemma WindowWritten(area: seq<Byte>, w: seq<Byte>, p: nat, d: seq<Byte>)
    requires p <= |w| && d != [] && p + |d| <= |area| && |w| <= |area|
    requires forall i :: 0 <= i < |d| ==> area[p + i] == d[i]
    requires forall i :: 0 <= i < |w| && !(p <= i < p + |d|) ==> area[i] == w[i]
    ensures |Splice(w, p, d)| == Max(|w|, p + |d|)
    ensures area[..Max(|w|, p + |d|)] == Splice(w, p, d)
  {
    var s := Splice(w, p, d);
    forall i | 0 <= i < |s|
      ensures area[i] == s[i]
    {
      if p <= i < p + |d| {
        assert area[p + (i - p)] == d[i - p];
      }
    }
  }

  /** Reading into the part of an area before its window. */
  lemma AreaRefilled(before: seq<Byte>, after: seq<Byte>, r: nat, front: seq<Byte>, w: seq<Byte>)
    requires |before| == |after| && r + |w| <= |before| && |front| == r
    requires before[r..r + |w|] == w && after[0..r] == front && after[r..] == before[r..]
    ensures after[0..r + |w|] == front + w
  {
    SliceOfSlice(before, r, |before|, 0, |w|);
    SliceOfSlice(after, r, |after|, 0, |w|);
    assert after[r..r + |w|] == w;
    JoinSlices(after, 0, r, r + |w|);
  }

  datatype Flat = Flat(bytes: seq<Byte>, cursor: nat)
  {
    /** What a read of n bytes returns. */
    function Next(n: nat): (r: seq<Byte>)
      ensures |r| == Min(n, Max(0, |bytes| - cursor))
    {
      if cursor >= |bytes| then [] else bytes[cursor..Min(cursor + n, |bytes|)]
    }

    /** A read of n bytes is a read of k bytes followed by a read of the others. */
    lemma Advance(acc: seq<Byte>, k: nat, n: nat) returns (rest: seq<Byte>)
      requires k <= n
      ensures rest == Flat(bytes, cursor + |Next(k)|).Next(n - k)
      ensures acc + Next(n) == acc + Next(k) + rest
      ensures |Next(k)| < k ==> rest == [] && Flat(bytes, cursor + |Next(k)|).Next(n - |Next(k)|) == []
    {
      rest := Flat(bytes, cursor + |Next(k)|).Next(n - k);
      assert Next(n) == Next(k) + rest;
    }

    lemma NextAtEnd(n: nat)
      requires n == 0 || cursor >= |bytes|
      ensures Next(n) == []
    {
    }
  }

  /** How much a refill at an offset of a file reads into a memory area: what fits behind the alignment shift. */
  function Filling(memory: nat, length: nat, at: nat): (n: int)
    ensures n <= memory
  {
    Min(memory - at % ALIGNMENT, Max(0, length - at))
  }

  // ---------- writes that go astray ----------

  /** The window, whether it is to be flushed, the place it belongs to, and the file with the place where it stands. */
  datatype Held = Held(dirty: bool, window: seq<Byte>, start: nat, bytes: seq<Byte>, at: nat)
  {
    /** Data goes past the window to where the file stands; the window moves on with it. */
    function Past(data: seq<Byte>): Held
    {
      Held(dirty, window, start + |data|, Splice(bytes, at, data), at + |data|)
    }

    function Within(data: seq<Byte>): Held
    {
      Held(dirty || data != [], Splice(window, 0, data), start, bytes, at)
    }

    /** What becomes of data that a write takes past its memory area where it should not: as many bytes as fill the area
        a number of times go past the window, the others into it. */
    function Strayed(data: seq<Byte>, memory: nat): Held
      requires memory > 0
    {
      var k := |data| / memory * memory;
      Past(data[..k]).Within(data[k..])
    }

    /** The first part of such data, and the rest. */
    lemma StrayedOn(a: seq<Byte>, b: seq<Byte>)
      requires a != []
      ensures Strayed(a + b, |a|) == Past(a).Strayed(b, |a|)
    {
      hide Splice;
      var k := WholeAreas(|b|, |a|);
      CutBehind(a, b, k);
      SpliceMore(bytes, at, a, b[..k]);
    }

    /** The last part is shorter than the memory area. */
    lemma StrayedLast(data: seq<Byte>, memory: nat)
      requires |data| < memory
      ensures Strayed(data, memory) == Within(data) && Within([]) == this
    {
      hide Splice;
      assert data[..0] == [] && data[0..] == data && |data| / memory == 0;
      SpliceNothing(bytes, at);
      SpliceNothing(window, 0);
    }
  }

  lemma WholeAreas(n: nat, m: nat) returns (k: nat)
    requires m > 0
    ensures k == n / m * m <= n && (m + n) / m * m == m + k
  {
    var q, r := n / m, n % m;
    k := q * m;
    assert n == q * m + r;
    DivModUnique(q + 1, r, m);
    assert (q + 1) * m == q * m + m;
    MulOrder(m, 0, q);
  }

  lemma CutBehind(a: seq<Byte>, b: seq<Byte>, k: nat)
    requires k <= |b|
    ensures (a + b)[..|a| + k] == a + b[..k] && (a + b)[|a| + k..] == b[k..]
  {
  }

  datatype Op = Read(n: nat) | Peek(n: nat) | Skip(n: nat) | Seek(to: nat) | Write(data: seq<Byte>)

  datatype Outcome = Data(bytes: seq<Byte>) | Count(n: nat)

  /** One operation on the flat file.  Skipping 8 bytes or more is a seek and may go past the end. */
  function FlatStep(f: Flat, op: Op): (Flat, Outcome)
  {
    match op
    case Read(n) => (f.(cursor := f.cursor + |f.Next(n)|), Data(f.Next(n)))
    case Peek(n) => (f, Data(f.Next(n)))
    case Skip(n) =>
      var k := if n < 8 then |f.Next(n)| else n;
      (f.(cursor := f.cursor + k), Count(k))
    case Seek(to) => (f.(cursor := to), Count(0))
    case Write(d) => (Flat(Splice(f.bytes, f.cursor, d), f.cursor + |d|), Count(|d|))
  }

  /** What a caller knows of the window: Mixed is nothing, Writing that nothing read is left in it, Steady also that a
      write of any length lands right. */
  datatype Mode = Mixed | Writing | Steady

  /** A stream is steady at the start, after writes, after a read that came to the end of the file, and after a seek to
      its end or beyond; any other seek may go back into bytes not yet flushed. */
  function NextMode(f: Flat, op: Op, mode: Mode): Mode
  {
    match op
    case Write(d) => if d != [] then Steady else mode
    case Seek(to) => SeekMode(to >= |f.bytes|, mode)
    case Read(n) => if |f.Next(n)| < n then Steady else if n == 0 then mode else Mixed
    case Peek(n) => if |f.Next(n)| < n then Steady else SeekMode(false, if n == 0 then mode else Mixed)
    case Skip(n) =>
      if n >= 8 then SeekMode(f.cursor + n >= |f.bytes|, mode)
      else if |f.Next(n)| < n then Steady
      else if n == 0 then mode
      else Mixed
  }

  function SeekMode(behind: bool, mode: Mode): Mode
  {
    if behind then Steady else if mode == Mixed then Mixed else Writing
  }

  /** A write that lands right as far as the caller knows. */
  predicate MayWrite(mode: Mode, n: nat, memory: nat)
  {
    mode == Steady || (mode == Writing && n < memory)
  }

  function FlatRun(f: Flat, ops: seq<Op>): (Flat, seq<Outcome>)
  {
    if ops == [] then (f, [])
    else
      var (g, outs) := FlatRun(f, ops[..|ops| - 1]);
      var (h, out) := FlatStep(g, ops[|ops| - 1]);
      (h, outs + [out])
  }

  // ---------- the file below the cache ----------

  /** pf_read, pf_write and pf_seek of a file that always transfers all the bytes it can. */
  class IoFile {
    var bytes: seq<Byte>
    var pos: nat

    constructor (contents: seq<Byte>)
      ensures bytes == contents && pos == 0
    {
      bytes, pos := contents, 0;
    }

    method ReadInto(dst: array<Byte>, at: nat, n: nat) returns (ret: nat)
      requires at + n <= dst.Length
      modifies this`pos, dst
      ensures ret == Min(n, Max(0, |bytes| - old(pos))) && pos == old(pos) + ret
      ensures ret > 0 ==> dst[at..at + ret] == bytes[old(pos)..old(pos) + ret]
      ensures dst[..at + ret] == old(dst[..at]) + Flat(bytes, old(pos)).Next(n)
      ensures forall i :: at + ret <= i < dst.Length ==> dst[i] == old(dst[i])
    {
      ret := Min(n, Max(0, |bytes| - pos));
      if ret > 0 {
        Store(dst, at, bytes[pos..pos + ret]);
      }
      pos := pos + ret;
    }

    method WriteFrom(src: array<Byte>, at: nat, n: nat)
      requires at + n <= src.Length
      modifies this
      ensures bytes == Splice(old(bytes), old(pos), src[at..at + n]) && pos == old(pos) + n
    {
      bytes := Splice(bytes, pos, src[at..at + n]);
      pos := pos + n;
    }

    method SeekTo(o: nat)
      modifies this`pos
      ensures pos == o
    {
      pos := o;
    }
  }

  // ---------- the cached stream ----------

  class ContainerIo {
    const file: IoFile
    const mem: array<Byte>

    var offset: nat        // cursor of the stream
    var start: nat         // offset of the cached data in the file
    var size: nat          // bytes of cached data
    var position: nat      // cursor within the cached data
    var shift: nat         // buffer - mem
    var dirty: bool
    var actualOffset: nat  // where the file is believed to be

    ghost var window: seq<Byte>  // the cached bytes

    /** Cached bytes; during a write the position may be ahead of the size. */
    ghost function Extent(): nat
      reads `position, `size
    {
      Max(position, size)
    }

    ghost predicate Core()
      reads `start, `size, `position, `shift, `dirty, `actualOffset, `window, mem, file
    {
      && mem.Length >= ALIGNMENT && shift < ALIGNMENT
      && |window| == Extent() && shift + |window| <= mem.Length && mem[shift..shift + |window|] == window
      && file.pos == actualOffset
      && (position > size ==> dirty)
      && (!dirty && size > 0 ==> shift <= start && start + size <= |file.bytes|
                                 && window == file.bytes[start..start + size])
    }

    /** The file as a client sees it. */
    ghost function View(): seq<Byte>
      reads `start, `dirty, `window, file
    {
      if dirty then Splice(file.bytes, start, window) else file.bytes
    }

    /** Invariant between client calls: the asserts at the end of cache_read and cache_write. */
    ghost predicate Valid()
      reads this, mem, file
    {
      Core() && position <= size && (dirty ==> size > 0) && start + position == offset
    }

    ghost function Abs(): Flat
      reads this, file
    {
      Flat(View(), offset)
    }

    /** Nothing has been read into the window since the last seek: writing is possible anywhere. */
    ghost predicate Writing()
      reads this
    {
      dirty || size == 0
    }

    /** Also, a write of any length lands right. */
    ghost predicate Steady()
      reads this
    {
      Writing() && !Astray()
    }

    ghost predicate InMode(mode: Mode)
      reads this
    {
      match mode
      case Mixed => true
      case Writing => Writing()
      case Steady => Steady()
    }

    /** The window is empty and the file stands at it. */
    ghost predicate Clear()
      reads this
    {
      size == 0 && actualOffset == start
    }

    constructor (f: IoFile, memSize: nat)
      requires memSize >= ALIGNMENT && f.pos == 0
      ensures Valid() && !dirty && size == 0 && fresh(mem) && file == f && mem.Length == memSize
      ensures Abs() == Flat(f.bytes, 0) && start == shift == position == actualOffset == 0
    {
      file := f;
      mem := new Byte[memSize](_ => 0);
      offset, start, size, position, shift, dirty, actualOffset := 0, 0, 0, 0, 0, false, 0;
      window := [];
    }

    /** Writes the whole window to its place in the file. */
    method WriteBack()
      requires size == |window| > 0 && shift + size <= mem.Length && mem[shift..shift + size] == window
      requires file.pos == actualOffset
      modifies this`actualOffset, file
      ensures file.bytes == Splice(old(file.bytes), start, window) && file.pos == actualOffset == start + size
    {
      hide Splice;
      if actualOffset != start {
        file.SeekTo(start);
      }
      file.WriteFrom(mem, shift, size);
      actualOffset := start + size;
    }

    /** vc_container_io_cache_flush */
    method Flush() returns (ret: int)
      requires Core()
      modifies this, file
      ensures Core() && file.bytes == View() == old(View())
      ensures !dirty && size == 0 && position == 0
      ensures start == old(start + Extent()) && shift == start % ALIGNMENT && offset == old(offset)
      ensures old(dirty) && old(Extent()) > 0 ==> actualOffset == start
      ensures !old(dirty) ==> actualOffset == old(actualOffset)
      ensures ret == if old(dirty) then old(position) - old(Extent()) else 0
    {
      hide Splice;
      SpliceNothing(file.bytes, start);
      ret := 0;
      if position > size {
        size := position;
      }
      if dirty && size > 0 {
        WriteBack();
        ret := position - size;
      }
      dirty := false;
      start := start + size;
      shift := start % ALIGNMENT;
      position, size := 0, 0;
      window := [];
    }

    /** The common start of both refills: drop the window and bring the file to where it ended.  The early exit for
        bytes left unflushed is never taken, all cached data being behind the cursor. */
    method BeginRefill()
      requires Core() && position == size
      modifies this, file
      ensures Core() && file.bytes == View() == old(View()) && offset == old(offset)
      ensures !dirty && size == 0 && position == 0 && window == []
      ensures start == old(start + position) == actualOffset && shift == start % ALIGNMENT <= start
    {
      hide Splice;
      var left := Flush();
      assert left == 0;
      if actualOffset != start {
        file.SeekTo(start);
        actualOffset := start;
      }
    }

    /** The window is the one that a refill at the given offset makes. */
    ghost predicate Filled(at: nat)
      reads this, file
    {
      !dirty && start == at && size == Filling(mem.Length, |View()|, at) && shift == at % ALIGNMENT
    }

    /** The window reaches back to the start of the memory area, and the file stands where the window began. */
    twostate predicate ShiftedBack()
      reads this, file
    {
      start == old(start - shift) && size == old(size + shift) && shift == 0 && actualOffset == old(start)
    }

    /** Only the position in the window has changed. */
    twostate predicate WindowKept()
      reads this, file
    {
      unchanged(file) && unchanged(`start, `size, `shift, `dirty, `actualOffset, `window)
    }

    /** vc_container_io_cache_refill, called with no byte left in the cache */
    method Refill() returns (ret: nat)
      requires Core() && position == size
      modifies this, file, mem
      ensures Core() && View() == old(View()) && offset == old(offset)
      ensures !dirty && position == 0 && size == ret && start == old(start + position) && shift == start % ALIGNMENT
      ensures ret == Filling(mem.Length, |View()|, start) && (ret == 0 ==> start >= |View()| && Clear())
    {
      hide Splice, ContainerIo.Core;
      BeginRefill();
      ret := FillArea();
    }

    /** Reads what the file holds at an empty window into the rest of the memory area. */
    method FillArea() returns (ret: nat)
      requires Core() && !dirty && size == 0 && position == 0 && actualOffset == start >= shift
      modifies this, file, mem
      ensures Core() && View() == old(View()) && offset == old(offset) && start == old(start)
      ensures !dirty && position == 0 && size == ret
      ensures actualOffset == start + size
      ensures shift == old(shift) < mem.Length && ret == Min(mem.Length - shift, Max(0, |View()| - start))
    {
      hide Splice, Flat.Next;
      ret := file.ReadInto(mem, shift, mem.Length - shift);
      size := ret;
      position := 0;
      actualOffset := start + ret;
      window := mem[shift..shift + ret];
    }

    /** vc_container_io_cache_refill_bypass */
    method RefillBypass(dst: array<Byte>, at: nat, n: nat) returns (ret: nat)
      requires Core() && position == size && dst != mem && at + n <= dst.Length
      modifies this, file, dst
      ensures Core() && View() == old(View()) && offset == old(offset)
      ensures !dirty && position == 0 && Clear() && start == old(start + position) + ret
      ensures ret <= n && dst[..at + ret] == old(dst[..at]) + Flat(View(), old(start + position)).Next(n)
      ensures |Flat(View(), old(start + position)).Next(n)| == ret
      ensures forall i :: at + ret <= i < dst.Length ==> dst[i] == old(dst[i])
    {
      hide Splice;
      BeginRefill();
      ret := file.ReadInto(dst, at, n);
      size, position := 0, 0;
      start := start + ret;
      actualOffset := start;
    }

    /** The copying step of vc_container_io_cache_read. */
    method CopyOut(dst: array<Byte>, at: nat, n: nat)
      requires Core() && 0 < n && position + n <= size && dst != mem && at + n <= dst.Length
      modifies this`position, dst
      ensures position == old(position) + n && Core() && View() == old(View())
      ensures dst[..at + n] == old(dst[..at]) + Flat(View(), old(start + position)).Next(n)
      ensures |Flat(View(), old(start + position)).Next(n)| == n
      ensures forall i :: at + n <= i < dst.Length ==> dst[i] == old(dst[i])
    {
      hide Splice;
      CachedData(position, n);
      Store(dst, at, mem[shift + position..shift + position + n]);
      position := position + n;
    }

    /** What one round of the loop of vc_container_io_cache_read must achieve: got has been delivered, rest is still
        due from the new position. */
    ghost predicate Delivered(due: seq<Byte>, got: seq<Byte>, left: nat)
      reads this, file
    {
      due == got + Flat(View(), start + position).Next(left)
    }

    /** The bypassing round, taken when the cache is empty and smaller than the request. */
    method BypassRound(dst: array<Byte>, at: nat, left: nat) returns (ret: nat, more: bool)
      requires Core() && position == size && left > mem.Length && dst != mem && at + left <= dst.Length
      modifies this, file, dst
      ensures Core() && position == size == 0 && !dirty && View() == old(View()) && offset == old(offset)
      ensures ret <= left && start + position == old(start + position) + ret && (more ==> ret > 0)
      ensures !more ==> Flat(View(), start + position).Next(left - ret) == [] && Clear()
      ensures Delivered(old(dst[..at] + Flat(View(), start + position).Next(left)), dst[..at + ret], left - ret)
      ensures forall i :: at + ret <= i < dst.Length ==> dst[i] == old(dst[i])
    {
      hide Splice, Flat.Next;
      ghost var rest := Flat(View(), start + position).Advance(dst[..at], mem.Length, left);
      ret := RefillBypass(dst, at, mem.Length);
      more := ret == mem.Length;
    }

    /** The round through the cache. */
    method CachedRound(dst: array<Byte>, at: nat, left: nat) returns (ret: nat, more: bool)
      requires Core() && position <= size && (dirty ==> size > 0)
      requires left > 0 && dst != mem && at + left <= dst.Length
      modifies this, file, mem, dst
      ensures Core() && position <= size && (dirty ==> size > 0) && View() == old(View()) && offset == old(offset)
      ensures ret <= left && start + position == old(start + position) + ret && (more ==> ret > 0)
      ensures !more ==> Flat(View(), start + position).Next(left - ret) == [] && Clear()
      ensures old(size == position) ==> Filled(old(start + position)) && ret == Min(left, size)
      ensures old(size > position) ==> WindowKept() && ret == Min(left, size - old(position))
      ensures Delivered(old(dst[..at] + Flat(View(), start + position).Next(left)), dst[..at + ret], left - ret)
      ensures forall i :: at + ret <= i < dst.Length ==> dst[i] == old(dst[i])
    {
      hide Splice, Flat.Next, ContainerIo.View, ContainerIo.Core;
      ghost var here := Flat(View(), start + position);
      ghost var before := dst[..at];
      var bytes := size - position;
      if bytes == 0 {
        bytes := Refill();
      }
      if bytes == 0 {
        here.NextAtEnd(left);
        return 0, false;
      }
      if bytes > left {
        bytes := left;
      }
      ghost var rest := here.Advance(before, bytes, left);
      assert dst[..at] == before && Flat(View(), start + position) == here;
      CopyOut(dst, at, bytes);
      assert before + here.Next(left) == dst[..at + bytes] + rest;
      return bytes, true;
    }

    /** One round of the loop of vc_container_io_cache_read. */
    method ReadRound(dst: array<Byte>, at: nat, left: nat) returns (ret: nat, more: bool)
      requires Core() && position <= size && (dirty ==> size > 0)
      requires left > 0 && dst != mem && at + left <= dst.Length
      modifies this, file, mem, dst
      ensures Core() && position <= size && (dirty ==> size > 0) && View() == old(View()) && offset == old(offset)
      ensures ret <= left && start + position == old(start + position) + ret && (more ==> ret > 0)
      ensures !more ==> Flat(View(), start + position).Next(left - ret) == [] && Clear()
      ensures old(size == position) && left <= mem.Length ==> Filled(old(start + position)) && ret == Min(left, size)
      ensures old(size > position) ==> WindowKept() && ret == Min(left, size - old(position))
      ensures Delivered(old(dst[..at] + Flat(View(), start + position).Next(left)), dst[..at + ret], left - ret)
      ensures forall i :: at + ret <= i < dst.Length ==> dst[i] == old(dst[i])
    {
      hide *;
      if size == position && left > mem.Length {
        ret, more := BypassRound(dst, at, left);
      } else {
        ret, more := CachedRound(dst, at, left);
      }
    }

    /** vc_container_io_cache_read */
    method CacheRead(dst: array<Byte>, n: nat) returns (read: nat)
      requires Valid() && dst != mem && n <= dst.Length
      modifies this, file, mem, dst
      ensures Core() && position <= size && (dirty ==> size > 0)
      ensures View() == old(View()) && offset == old(offset)
      ensures start + position == offset + read && read <= n
      ensures (read < n ==> Clear()) && (n == 0 ==> WindowKept() && position == old(position))
      ensures old(size) == 0 && 0 < n <= Filling(mem.Length, |old(View())|, offset) ==> Filled(offset)
      ensures 0 < n <= old(size - position) ==> WindowKept()
      ensures dst[..read] == old(Abs().Next(n)) && forall i :: read <= i < dst.Length ==> dst[i] == old(dst[i])
    {
      hide Splice, Flat.Next, ContainerIo.View, ContainerIo.Core, Filling;
      var left := n;
      read := 0;
      ghost var due := Abs().Next(n);
      ghost var small := size == 0 && 0 < n <= Filling(mem.Length, |View()|, offset);
      assert due == dst[..0] + due;
      while left > 0
        invariant Core() && position <= size && (dirty ==> size > 0)
        invariant View() == old(View()) && offset == old(offset)
        invariant 0 <= left <= n && left + read == n && start + position == offset + read
        invariant Delivered(due, dst[..read], left)
        invariant read == 0 ==> WindowKept() && position == old(position)
        invariant small && read > 0 ==> left == 0 && Filled(offset)
        invariant 0 < n <= old(size - position) && read > 0 ==> left == 0 && WindowKept()
        invariant forall i :: read <= i < dst.Length ==> dst[i] == old(dst[i])
      {
        var ret, more := ReadRound(dst, read, left);
        read := read + ret;
        left := left - ret;
        if !more {
          break;
        }
      }
      Flat(View(), offset + read).NextAtEnd(0);
    }

    /** A stretch of the cached data is that stretch of the file as seen by the client. */
    lemma CachedData(p: nat, n: nat)
      requires Core() && p + n <= size && n > 0
      ensures start + p + n <= |View()|
      ensures mem[shift + p..shift + p + n] == View()[start + p..start + p + n]
    {
      hide Splice;
      ghost var all := mem[..];
      assert window == all[shift..shift + Extent()];
      SliceOfSlice(all, shift, shift + Extent(), p, p + n);
      if dirty {
        SpliceReads(file.bytes, start, window);
        SliceOfSlice(View(), start, start + Extent(), p, p + n);
      } else {
        SliceOfSlice(file.bytes, start, start + size, p, p + n);
      }
    }

    /** The part of vc_container_io_cache_seek that refills the memory area before the window. */
    method ShiftBack()
      requires Core() && !dirty && size > 0 && shift > 0
      modifies this, file, mem
      ensures Core() && !dirty && View() == old(View()) && offset == old(offset)
      ensures position == 0 && ShiftedBack()
    {
      hide Splice, Flat.Next;
      ghost var kept, f := window, file.bytes;
      ghost var front := f[start - shift..start];
      JoinSlices(f, start - shift, start, start + size);
      file.SeekTo(start - shift);
      FillFront(front);
      start := start - shift;
      size := size + shift;
      window := front + kept;
      actualOffset := start + shift;
      shift := 0;
      position := 0;
    }

    /** Reading the part of the file before the window into the part of the memory area before it. */
    method FillFront(ghost front: seq<Byte>)
      requires shift + |window| <= mem.Length && mem[shift..shift + |window|] == window
      requires file.pos + shift <= |file.bytes| && front == file.bytes[file.pos..file.pos + shift] && shift > 0
      modifies file`pos, mem
      ensures file.pos == old(file.pos) + shift && mem[0..shift + |window|] == front + window
    {
      ghost var before := mem[..];
      var ret := file.ReadInto(mem, 0, shift);
      assert ret == shift;  // the refill is always complete
      AreaRefilled(before, mem[..], shift, front, window);
      assert mem[0..shift + |window|] == mem[..][0..shift + |window|];
    }

    /** vc_container_io_cache_seek, including the refill of the part of the memory area before the window */
    method CacheSeek(o: nat)
      requires Core() && position <= size && (dirty ==> size > 0)
      modifies this, file, mem
      ensures Core() && position <= size && (dirty ==> size > 0)
      ensures View() == old(View()) && offset == old(offset) && start + position == o
      ensures (old(Writing()) ==> Writing()) && (o >= |old(View())| || old(size) == 0 ==> Clear())
      ensures old(start) <= o < old(start + size) ==> WindowKept()
      ensures !old(dirty) && old(size > 0 && start - shift <= o < start) ==> ShiftedBack()
      ensures !old(dirty) ==> !dirty
    {
      hide Splice;
      if start <= o < start + size {
        CachedData(0, size);
        position := o - start;
        return;
      }
      if !dirty && shift > 0 && size > 0 && start - shift <= o < start {
        ShiftBack();
        position := o - start;
        return;
      }
      Reposition(o);
    }

    /** The part of vc_container_io_cache_seek that drops the window. */
    method Reposition(o: nat)
      requires Core() && position <= size
      modifies this, file
      ensures Core() && !dirty && Clear() && position == 0 && start == o
      ensures View() == old(View()) && offset == old(offset)
    {
      hide Splice;
      if dirty {
        var _ := Flush();
      }
      file.SeekTo(o);
      actualOffset := o;
      var _ := Flush();
      start := o;
    }

    /** Where the next written byte goes: a clean window is dropped first, even its unread part. */
    function WritePoint(): nat
      reads this
    {
      if size > 0 && !dirty then start + size else start + position
    }

    /** A write that bypasses the memory area here would not land where it should: there are cached bytes, or the file
        stands elsewhere. */
    predicate Astray()
      reads this
    {
      position == 0 && shift == 0 && !(size == 0 && actualOffset == start)
    }

    /** A write of n bytes lands right. */
    predicate CanBypass(n: nat)
      reads this
    {
      n >= mem.Length ==> !Astray()
    }

    /** What CanBypass asks for once a clean window has been dropped. */
    predicate CanWrite(n: nat)
      reads this
    {
      if size > 0 && !dirty
      then n >= mem.Length && (start + size) % ALIGNMENT == 0 ==> actualOffset == start + size
      else CanBypass(n)
    }

    ghost function Now(): Held
      reads this, file
    {
      Held(dirty, window, start, file.bytes, actualOffset)
    }

    /** The same after a clean window has been dropped. */
    ghost function Dropped(): Held
      reads this, file
    {
      if dirty then Now() else Held(false, [], start + size, file.bytes, actualOffset)
    }

    /** One round of a write of this data that goes astray. */
    lemma StrayRound(before: Held, rest: seq<Byte>, ret: nat)
      requires mem.Length > 0 && ret <= |rest| && rest != []
      requires if |rest| < mem.Length then ret == |rest| && Now() == before.Within(rest)
               else ret == mem.Length && Now() == before.Past(rest[..ret])
      ensures before.Strayed(rest, mem.Length) == Now().Strayed(rest[ret..], mem.Length)
    {
      hide Held.Past, Held.Within, Held.Strayed;
      if |rest| < mem.Length {
        before.StrayedLast(rest, mem.Length);
        Now().StrayedLast([], mem.Length);
        assert rest[ret..] == [];
      } else {
        before.StrayedOn(rest[..ret], rest[ret..]);
        assert rest == rest[..ret] + rest[ret..];
      }
    }

    /** A short write stays in the memory area. */
    twostate predicate KeptBack()
      reads this, file
    {
      dirty && file.bytes == old(file.bytes)
      && start == old(start) && shift == old(shift) && actualOffset == old(actualOffset)
    }

    /** One round of the loop of vc_container_io_cache_write. */
    method WriteRound(src: array<Byte>, at: nat, left: nat) returns (ret: nat)
      requires Core() && (dirty || Extent() == 0) && (dirty ==> Extent() > 0)
      requires left > 0 && src != mem && at + left <= src.Length
      modifies this, file, mem
      ensures Core() && (dirty || Extent() == 0) && (dirty ==> Extent() > 0)
      ensures ret <= left && start + position == old(start + position) + ret && offset == old(offset)
      ensures old(CanBypass(left)) ==>
                !Astray() && View() == Splice(old(View()), old(start + position), src[at..at + ret])
      ensures old(Astray()) ==>
                if left < mem.Length then ret == left && Now() == old(Now()).Within(src[at..at + left])
                else ret == mem.Length && Astray() && Now() == old(Now()).Past(src[at..at + ret])
      ensures ret == 0 ==> old(shift + position) == mem.Length && shift + position < mem.Length
      ensures old(shift + position) + left < mem.Length ==>
                ret == left && KeptBack()
    {
      hide Splice;
      ghost var view, here := View(), start + position;
      var bytes := mem.Length - shift - position;
      if bytes == 0 {
        var unflushed := Flush();
        assert unflushed == 0;
        SpliceNothing(view, here);
        assert src[at..at] == [];
        return 0;
      }
      if bytes > left {
        bytes := left;
      }
      if bytes == mem.Length {
        SpliceNothing(file.bytes, start);
        file.WriteFrom(src, at, bytes);
        start := start + bytes;
        actualOffset := actualOffset + bytes;
        SpliceNothing(file.bytes, start);
      } else {
        CopyIn(src, at, bytes);
      }
      return bytes;
    }

    /** The copying step of vc_container_io_cache_write. */
    method CopyIn(src: array<Byte>, at: nat, n: nat)
      requires Core() && (dirty || Extent() == 0) && shift + position + n <= mem.Length
      requires n > 0 && src != mem && at + n <= src.Length
      modifies this`position, this`dirty, this`window, mem
      ensures Core() && dirty && position == old(position) + n
      ensures View() == Splice(old(View()), old(start + position), src[at..at + n])
      ensures window == Splice(old(window), old(position), src[at..at + n])
    {
      hide Splice;
      ghost var data := src[at..at + n];
      ViewWritten(data);
      CopyWindow(src, at, n);
      position := position + n;
      dirty := true;
    }

    lemma ViewWritten(data: seq<Byte>)
      requires (dirty || Extent() == 0) && |window| == Extent()
      ensures Splice(file.bytes, start, Splice(window, position, data)) == Splice(View(), start + position, data)
    {
      hide Splice;
      SpliceNothing(file.bytes, start);
      assert !dirty ==> window == [];
      SpliceWindow(file.bytes, start, window, position, data);
    }

    method CopyWindow(src: array<Byte>, at: nat, n: nat)
      requires |window| == Extent() && shift + |window| <= mem.Length && mem[shift..shift + |window|] == window
      requires shift + position + n <= mem.Length && n > 0 && src != mem && at + n <= src.Length
      modifies this`window, mem
      ensures window == Splice(old(window), position, src[at..at + n]) && |window| == Max(old(|window|), position + n)
      ensures shift + |window| <= mem.Length && mem[shift..shift + |window|] == window
    {
      hide Splice;
      ghost var w, data := window, src[at..at + n];
      Store(mem, shift + position, src[at..at + n]);
      window := Splice(w, position, data);
      WindowWritten(mem[shift..], w, position, data);
    }

    /** The start of vc_container_io_cache_write: a clean window is dropped, with any unread part of it. */
    method DropClean(ghost n: nat)
      requires Valid()
      modifies this, file
      ensures Core() && (dirty || Extent() == 0) && (dirty ==> Extent() > 0) && (CanBypass(n) <==> old(CanWrite(n)))
      ensures View() == old(View()) && offset == old(offset) && start + position == old(WritePoint())
      ensures old(Writing()) ==> dirty == old(dirty) && size == old(size)
      ensures Now() == old(Dropped())
      ensures old(Writing()) ==> unchanged(this) && unchanged(file)
    {
      hide Splice;
      if size > 0 && !dirty {
        var unflushed := Flush();
        assert unflushed == 0;
      }
      assert !dirty ==> window == [];
    }

    /** vc_container_io_cache_write */
    method CacheWrite(src: array<Byte>, n: nat)
      requires Valid() && src != mem && n <= src.Length
      modifies this, file, mem
      ensures Core() && position <= size && (dirty ==> size > 0) && (n > 0 || old(Writing()) ==> Writing())
      ensures old(CanWrite(n)) ==> View() == Splice(old(View()), old(WritePoint()), src[..n])
      ensures old(CanWrite(n)) && n > 0 ==> Steady()
      ensures n == 0 && old(Writing()) ==> Steady() == old(Steady())
      ensures !old(CanWrite(n)) ==> Now() == old(Dropped()).Strayed(src[..n], mem.Length)
      ensures offset == old(offset) && start + position == old(WritePoint()) + n
      ensures n > 0 && old(Writing()) && old(shift + position) + n < mem.Length ==> KeptBack()
    {
      hide Splice, Held.Strayed, ContainerIo.CanBypass, ContainerIo.CanWrite, ContainerIo.Dropped,
           ContainerIo.WritePoint;
      DropClean(n);
      WriteLoop(src, n);
      if position > size {
        size := position;
      }
    }

    lemma HasMemory()
      requires Core()
      ensures mem.Length > 0
    {
    }

    static lemma CutArray(a: array<Byte>, i: nat, k: nat, n: nat)
      requires i + k <= n <= a.Length
      ensures a[i..n][..k] == a[i..i + k] && a[i..n][k..] == a[i + k..n]
    {
    }

    static lemma JoinFront(a: array<Byte>, i: nat, j: nat)
      requires i <= j <= a.Length
      ensures a[..i] + a[i..j] == a[..j]
    {
    }

    /** The loop of vc_container_io_cache_write. */
    method WriteLoop(src: array<Byte>, n: nat)
      requires Core() && (dirty || Extent() == 0) && (dirty ==> Extent() > 0)
      requires src != mem && n <= src.Length
      modifies this, file, mem
      ensures Core() && (dirty || Extent() == 0) && (dirty ==> Extent() > 0)
      ensures old(CanBypass(n)) ==> View() == Splice(old(View()), old(start + position), src[..n])
      ensures old(CanBypass(n)) && n > 0 ==> !Astray()
      ensures !old(CanBypass(n)) ==> Now() == old(Now()).Strayed(src[..n], mem.Length)
      ensures offset == old(offset) && start + position == old(start + position) + n
      ensures n > 0 && old(shift + position) + n < mem.Length ==> KeptBack()
      ensures n == 0 ==> unchanged(this)
    {
      hide Splice, ContainerIo.Core, ContainerIo.View, ContainerIo.Now, ContainerIo.Astray, ContainerIo.Extent,
           Held.Strayed, Held.Past, Held.Within;
      HasMemory();
      ghost var view, here := View(), start + position;
      ghost var lost := Now().Strayed(src[..n], mem.Length);
      var written, left := 0, n;
      SpliceNothing(view, here);
      assert src[..0] == [];
      while left > 0
        invariant Core() && (dirty || Extent() == 0) && (dirty ==> Extent() > 0)
        invariant 0 <= left <= n && written + left == n && offset == old(offset)
        invariant start + position == here + written
        invariant old(CanBypass(n)) ==> CanBypass(left) && View() == Splice(view, here, src[..written])
        invariant old(CanBypass(n)) && left < n ==> !Astray()
        invariant !old(CanBypass(n)) ==>
                    Now().Strayed(src[written..n], mem.Length) == lost && (left > 0 ==> Astray())
        invariant n == 0 ==> unchanged(this)
        invariant old(shift + position) + n < mem.Length ==>
                    if left == n then unchanged(this) && unchanged(file) else left == 0 && KeptBack()
        decreases left, mem.Length - (shift + position) == 0
      {
        ghost var before := Now();
        var ret := WriteRound(src, written, left);
        SpliceMore(view, here, src[..written], src[written..written + ret]);
        JoinFront(src, written, written + ret);
        if !old(CanBypass(n)) {
          CutArray(src, written, ret, n);
          StrayRound(before, src[written..n], ret);
        }
        written := written + ret;
        left := left - ret;
      }
      assert src[written..n] == [];
      Now().StrayedLast([], mem.Length);
    }

    // ---------- client calls ----------

    /** vc_container_io_read */
    method Read(dst: array<Byte>, n: nat) returns (ret: nat)
      requires Valid() && dst != mem && n <= dst.Length
      modifies this, file, mem, dst
      ensures Valid() && ret <= n && dst[..ret] == old(Abs().Next(n))
      ensures forall i :: ret <= i < dst.Length ==> dst[i] == old(dst[i])
      ensures Abs() == FlatStep(old(Abs()), Op.Read(n)).0
      ensures (ret < n ==> Clear()) && (n == 0 ==> WindowKept() && position == old(position))
      ensures old(size) == 0 && 0 < n <= Filling(mem.Length, |old(View())|, old(offset)) ==> Filled(old(offset))
      ensures 0 < n <= old(size - position) ==> WindowKept()
    {
      hide Splice, Filling, Flat.Next, ContainerIo.Core, ContainerIo.View;
      ret := CacheRead(dst, n);
      assert |dst[..ret]| == ret;
      offset := offset + ret;
    }

    /** vc_container_io_peek */
    method Peek(dst: array<Byte>, n: nat) returns (ret: nat)
      requires Valid() && dst != mem && n <= dst.Length
      modifies this, file, mem, dst
      ensures Valid() && ret <= n && dst[..ret] == old(Abs().Next(n))
      ensures forall i :: ret <= i < dst.Length ==> dst[i] == old(dst[i])
      ensures Abs() == old(Abs())
      ensures ret < n ==> Clear()
      ensures n == 0 && old(Writing()) ==> Writing()
    {
      hide Splice;
      var o := offset;
      ret := Read(dst, n);
      Seek(o);
    }

    /** vc_container_io_seek */
    method Seek(o: nat)
      requires Valid()
      modifies this, file, mem
      ensures Valid() && Abs() == old(Abs()).(cursor := o)
      ensures (old(Writing()) ==> Writing()) && (o >= |old(View())| || old(size) == 0 ==> Clear())
      ensures old(start) <= o < old(start + size) ==> WindowKept()
      ensures !old(dirty) && old(size > 0 && start - shift <= o < start) ==> ShiftedBack()
      ensures !old(dirty) ==> !dirty
    {
      hide Splice, ContainerIo.Core, ContainerIo.View;
      CacheSeek(o);
      offset := o;
    }

    /** vc_container_io_skip */
    method Skip(n: nat) returns (ret: nat)
      requires Valid()
      modifies this, file, mem
      ensures Valid() && ret == if n < 8 then |old(Abs().Next(n))| else n
      ensures Abs() == old(Abs()).(cursor := old(offset) + ret)
      ensures forall mode :: old(InMode(mode)) ==> InMode(NextMode(old(Abs()), Op.Skip(n), mode))
    {
      hide Splice, Flat.Next, ContainerIo.Core, ContainerIo.View;
      Abs().NextAtEnd(0);
      if n == 0 {
        return 0;
      }
      if n < 8 {
        var value := new Byte[8](_ => 0);
        ret := Read(value, n);
        assert |value[..ret]| == ret;
        return ret;
      }
      SkipFar(n);
      return n;
    }

    /** Skipping by a seek. */
    method SkipFar(n: nat)
      requires Valid() && n > 0
      modifies this, file, mem
      ensures Valid() && View() == old(View()) && offset == old(offset) + n
      ensures (old(Writing()) ==> Writing()) && (offset >= |View()| ==> Clear())
    {
      hide Splice, ContainerIo.Core, ContainerIo.View;
      CacheSeek(offset + n);
      offset := offset + n;
    }

    /** vc_container_io_write.  The data lands at the write point if it need not bypass the memory area where it should
        not, and that is the cursor exactly when no unread part of a clean window is dropped; otherwise the stream loses
        its cursor. */
    method Write(src: array<Byte>, n: nat)
      requires Valid() && src != mem && n <= src.Length
      modifies this, file, mem
      ensures Core() && offset == old(offset) + n
      ensures old(CanWrite(n)) ==> View() == Splice(old(View()), old(WritePoint()), src[..n])
      ensures old(CanWrite(n)) && n > 0 ==> Steady()
      ensures n == 0 && old(Writing()) ==> Steady() == old(Steady())
      ensures !old(CanWrite(n)) ==> Now() == old(Dropped()).Strayed(src[..n], mem.Length)
      ensures n > 0 && old(Writing()) && old(shift + position) + n < mem.Length ==> KeptBack()
      ensures Valid() <==> old(WritePoint() == offset)
      ensures old(WritePoint() == offset) <==> old(Writing() || position == size)
      ensures n > 0 || old(Writing()) ==> Writing()
    {
      hide Splice;
      CacheWrite(src, n);
      offset := offset + n;
    }

    /** vc_container_io_close: everything written reaches the file. */
    method Close()
      requires Valid()
      modifies this, file
      ensures file.bytes == old(View())
    {
      if dirty {
        var _ := Flush();
      }
    }
  }

  /** Every write comes in steady mode, or where nothing read is left in the window and is shorter than the memory
      area. */
  ghost predicate WritesDefined(f: Flat, ops: seq<Op>, memory: nat, mode: Mode)
    decreases ops
  {
    ops != [] ==>
      && (ops[0].Write? ==> MayWrite(mode, |ops[0].data|, memory))
      && WritesDefined(FlatStep(f, ops[0]).0, ops[1..], memory, NextMode(f, ops[0], mode))
  }

  /** One client call. */
  method Perform(io: ContainerIo, op: Op, ghost mode: Mode) returns (out: Outcome)
    requires io.Valid() && io.InMode(mode) && (op.Write? ==> MayWrite(mode, |op.data|, io.mem.Length))
    modifies io, io.file, io.mem
    ensures io.Valid() && (io.Abs(), out) == FlatStep(old(io.Abs()), op)
    ensures io.InMode(NextMode(old(io.Abs()), op, mode))
  {
    hide Splice, Flat.Next, ContainerIo.Core, ContainerIo.View, ContainerIo.Filled;
    match op {
      case Read(n) =>
        var dst := new Byte[n](_ => 0);
        var ret := io.Read(dst, n);
        out := Data(dst[..ret]);
      case Peek(n) =>
        var dst := new Byte[n](_ => 0);
        var ret := io.Peek(dst, n);
        out := Data(dst[..ret]);
      case Skip(n) =>
        var ret := io.Skip(n);
        out := Count(ret);
      case Seek(to) =>
        io.Seek(to);
        out := Count(0);
      case Write(d) =>
        var src := new Byte[|d|](i requires 0 <= i < |d| => d[i]);
        assert src[..|d|] == d;
        io.Write(src, |d|);
        out := Count(|d|);
    }
  }

  /** A whole session, from open to close: the client sees a flat file with a cursor, and the file ends up
      holding exactly what a flat file would hold.  Reading and writing may alternate at the end of the file. */
  method Session(f: IoFile, memSize: nat, ops: seq<Op>) returns (outs: seq<Outcome>)
    requires memSize >= ALIGNMENT && f.pos == 0
    requires WritesDefined(Flat(f.bytes, 0), ops, memSize, Steady)
    modifies f
    ensures (f.bytes, outs) == (FlatRun(Flat(old(f.bytes), 0), ops).0.bytes, FlatRun(Flat(old(f.bytes), 0), ops).1)
  {
    hide Splice;
    var io := new ContainerIo(f, memSize);
    outs := [];
    ghost var mode := Steady;
    for i := 0 to |ops|
      invariant io.file == f && io.mem.Length == memSize && fresh(io) && fresh(io.mem)
      invariant io.Valid() && io.InMode(mode)
      invariant WritesDefined(io.Abs(), ops[i..], memSize, mode)
      invariant (io.Abs(), outs) == FlatRun(Flat(old(f.bytes), 0), ops[..i])
    {
      assert ops[..i + 1][..i] == ops[..i] && ops[i..][1..] == ops[i + 1..];
      ghost var before := io.Abs();
      var out := Perform(io, ops[i], mode);
      mode := NextMode(before, ops[i], mode);
      outs := outs + [out];
    }
    assert ops[..|ops|] == ops;
    io.Close();
  }

  lemma LandsBehind()
    ensures Splice([1, 2], 2, [3]) == [1, 2, 3] && |Flat([1, 2], 0).Next(1)| == 1 && Filling(ALIGNMENT, 2, 0) == 2
  {
  }

  /** A stream on a two-byte file of which one byte has been read. */
  method ReadOne() returns (io: ContainerIo)
    ensures fresh(io) && fresh(io.file) && fresh(io.mem) && io.mem.Length == ALIGNMENT
    ensures io.Valid() && io.Abs() == Flat([1, 2], 1) && io.start == 0 && io.size == 2 && !io.dirty
  {
    hide Splice, Flat.Next, ContainerIo.Core;
    var f := new IoFile([1, 2]);
    io := new ContainerIo(f, ALIGNMENT);
    var dst := new Byte[1](_ => 0);
    LandsBehind();
    var ret := io.Read(dst, 1);
    assert io.Filled(0) && io.Abs() == Flat([1, 2], 1);
  }

  /** The one-byte write that does not land at the cursor. */
  method WriteOne(io: ContainerIo)
    requires io.Valid() && io.mem.Length == ALIGNMENT && io.View() == [1, 2]
    requires io.start == 0 && io.size == 2 && !io.dirty && io.offset < 2
    modifies io, io.file, io.mem
    ensures io.Core() && !io.Valid() && io.View() == [1, 2, 3] && io.offset == old(io.offset) + 1
  {
    hide Splice, Flat.Next, ContainerIo.Core, ContainerIo.View, ContainerIo.Valid;
    var src := new Byte[1](_ => 3);
    assert src[..1] == [3];
    LandsBehind();
    io.Write(src, 1);
  }

  /** A write after a partial read: of a two-byte file one byte is read, and the byte written next lands behind the
      other one, with the cursor of the stream in between. */
  method WriteAfterRead() returns (io: ContainerIo)
    ensures io.Core() && !io.Valid() && io.View() == [1, 2, 3] && io.offset == 2
  {
    hide ContainerIo.Core, ContainerIo.View, ContainerIo.Valid;
    io := ReadOne();
    WriteOne(io);
  }

  /** Seeking back into the window before the write is no remedy. */
  method WriteAfterSeek() returns (io: ContainerIo)
    ensures io.Core() && !io.Valid() && io.View() == [1, 2, 3] && io.offset == 1
  {
    hide ContainerIo.Core, ContainerIo.View, ContainerIo.Valid;
    io := ReadOne();
    io.Seek(0);
    WriteOne(io);
  }

  /** A stream with one byte that is not flushed yet, and the cursor on it. */
  method OneDirty() returns (io: ContainerIo)
    ensures fresh(io) && fresh(io.file) && fresh(io.mem) && io.mem.Length == ALIGNMENT
    ensures io.Valid() && io.file.bytes == [] && io.dirty && io.window == [7] && io.offset == 0
    ensures io.start == io.shift == io.position == io.actualOffset == 0
  {
    hide Flat.Next;
    var f := new IoFile([]);
    io := new ContainerIo(f, ALIGNMENT);
    var src := new Byte[1](_ => 7);
    assert src[..1] == [7];
    io.Write(src, 1);
    OneByte(io.window);
    io.Seek(0);
  }

  lemma OneByte(window: seq<Byte>)
    ensures Splice([], 0, [7]) == [7] && (window != [] ==> Splice([], 0, window) == window)
  {
  }

  lemma OverOne(data: seq<Byte>)
    requires |data| == ALIGNMENT
    ensures Held(true, [7], 0, [], 0).Strayed(data, ALIGNMENT) == Held(true, [7], ALIGNMENT, data, ALIGNMENT)
    ensures Splice(data, ALIGNMENT, [7]) == data + [7]
  {
    assert data[..ALIGNMENT] == data && data[ALIGNMENT..] == [];
    assert Splice([], 0, data) == data && Splice([7], 0, []) == [7];
  }

  /** A write as long as the memory area over a byte not yet flushed: the data goes straight to the file, and the byte
      is flushed behind it instead of under it. */
  method WriteOverDirty(src: array<Byte>) returns (f: IoFile)
    requires src.Length == ALIGNMENT
    ensures f.bytes == src[..] + [7]
  {
    hide Splice, Flat.Next, Held.Strayed;
    var io := OneDirty();
    f := io.file;
    OverOne(src[..ALIGNMENT]);
    io.Write(src, ALIGNMENT);
    assert src[..ALIGNMENT] == src[..];
    io.Close();
  }

  /** A stream on a file of 1024 bytes that has been read from byte 512 on, from the start, and so to its end: the
      window is the whole file, and the file stands in its middle. */
  method ReadBackwards(contents: seq<Byte>) returns (io: ContainerIo)
    requires |contents| == ALIGNMENT
    ensures fresh(io) && fresh(io.file) && fresh(io.mem) && io.mem.Length == ALIGNMENT
    ensures io.Valid() && io.Abs() == Flat(contents, ALIGNMENT) && io.position == io.size
    ensures io.start == 0 && io.size == ALIGNMENT && !io.dirty && io.actualOffset == 512
  {
    hide Splice, ContainerIo.Core;
    var f := new IoFile(contents);
    io := new ContainerIo(f, ALIGNMENT);
    var dst := new Byte[ALIGNMENT](_ => 0);
    io.Seek(512);
    var ret := io.Read(dst, 1);
    io.Seek(0);
    ret := io.Read(dst, ALIGNMENT);
  }

  /** A write as long as the memory area there: the data goes to the middle of the file instead of behind it. */
  method WriteElsewhere(contents: seq<Byte>, src: array<Byte>) returns (f: IoFile)
    requires |contents| == src.Length == ALIGNMENT
    ensures f.bytes == contents[..512] + src[..]
  {
    hide ContainerIo.Core;
    var io := ReadBackwards(contents);
    f := io.file;
    ghost var data := src[..ALIGNMENT];
    io.Write(src, ALIGNMENT);
    assert data[..ALIGNMENT] == data == src[..] && data[ALIGNMENT..] == [];
    io.Close();
  }
}
