/** The clamped cursor a play serves its bytes through (engine.go): `sizedReader` over the
    torrent client's reader. */
module SizedReader {
  import opened Basics

  type Byte = bv8

  const MAX_INT64 := 0x7fff_ffff_ffff_ffff
  const MIN_INT64 := -0x8000_0000_0000_0000

  /** What a 64-bit sum of two 64-bit values leaves. */
  function Wrap64(x: int): int {
    if x > MAX_INT64 then x - 0x1_0000_0000_0000_0000
    else if x < MIN_INT64 then x + 0x1_0000_0000_0000_0000
    else x
  }

  predicate IsInt64(x: int) { MIN_INT64 <= x <= MAX_INT64 }

  const SEEK_START := 0
  const SEEK_CURRENT := 1
  const SEEK_END := 2

  datatype SeekResult = Moved(pos: int) | BadWhence | NegativeSeek | InnerFailed

  datatype ReadError = NoError | EndOfFile | Fault

  /** The bytes a reader of the given size can ever show. */
  function Window(content: seq<Byte>, size: nat): seq<Byte> {
    if size <= |content| then content[..size] else content
  }

  lemma WindowSlice(content: seq<Byte>, size: nat, a: nat, b: nat)
    requires a <= b <= |content| && b <= size
    ensures b <= |Window(content, size)| && Window(content, size)[a..b] == content[a..b]
  {
  }

  function Base(size: nat, pos: nat, whence: int): int {
    if whence == SEEK_CURRENT then pos else if whence == SEEK_END then size else 0
  }

  predicate KnownWhence(whence: int) {
    whence == SEEK_START || whence == SEEK_CURRENT || whence == SEEK_END
  }

  /** `Seek` when the inner reader cooperates: the target wraps before it is judged. */
  function SeekOf(size: nat, pos: nat, off: int, whence: int): SeekResult {
    if !KnownWhence(whence) then BadWhence
    else
      var target := Wrap64(Base(size, pos, whence) + off);
      if target < 0 then NegativeSeek
      else Moved(if target > size then size else target)
  }

  function ClampedTo(size: nat, target: int): SeekResult {
    if target < 0 then NegativeSeek else Moved(Min(target, size))
  }

  /** A cursor clamped to 0..size, over unbounded integers: from the start, from here, from the end. */
  function ClampedSeek(size: nat, pos: nat, off: int, whence: int): SeekResult {
    if whence == 0 then ClampedTo(size, off)
    else if whence == 1 then ClampedTo(size, pos + off)
    else if whence == 2 then ClampedTo(size, size + off)
    else BadWhence
  }

  /** `Seek` is a clamped cursor exactly as long as the requested offset fits in 64 bits. */
  lemma SeekClampsIffNoOverflow(size: nat, pos: nat, off: int, whence: int)
    requires pos <= size <= MAX_INT64 && IsInt64(off)
    ensures SeekOf(size, pos, off, whence) == ClampedSeek(size, pos, off, whence)
      <==> (KnownWhence(whence) ==> Base(size, pos, whence) + off <= MAX_INT64)
  {
  }

  /** Seeking far past the end from byte 1 is refused as a negative seek, where a clamped
      cursor would stop at the end. */
  lemma FarSeekIsRefused()
    ensures SeekOf(10, 1, MAX_INT64, SEEK_CURRENT) == NegativeSeek
    ensures ClampedSeek(10, 1, MAX_INT64, SEEK_CURRENT) == Moved(10)
  {
  }

  /** `Seek` asks the inner reader to move. */
  predicate AsksInner(size: nat, pos: nat, off: int, whence: int) {
    var aim := SeekOf(size, pos, off, whence);
    aim.Moved? && aim.pos != pos
  }

  /** A size probe, a seek to the end, is answered locally exactly when the cursor is at the end
      already. */
  lemma EndProbeIsLocalIffAtEnd(size: nat, pos: nat)
    requires pos <= size <= MAX_INT64
    ensures SeekOf(size, pos, 0, SEEK_END) == Moved(size)
    ensures !AsksInner(size, pos, 0, SEEK_END) <==> pos == size
  {
  }

  // ---------- what a sequence of calls observes ----------

  datatype Event =
    | DidRead(want: nat, data: seq<Byte>)
    | DidSeek(off: int, whence: int, result: SeekResult)

  /** The event is one a clamped cursor at `pos` over the window may produce. */
  predicate Allowed(w: seq<Byte>, size: nat, pos: nat, e: Event) {
    match e
    case DidRead(want, data) =>
      |data| <= want
      && (data != [] ==> pos + |data| <= |w| && pos + |data| <= size && w[pos..pos + |data|] == data)
    case DidSeek(off, whence, result) =>
      result == SeekOf(size, pos, off, whence) || (result == InnerFailed && SeekOf(size, pos, off, whence).Moved?)
  }

  function PosAfter(pos: nat, e: Event): int {
    match e
    case DidRead(want, data) => pos + |data|
    case DidSeek(off, whence, result) => if result.Moved? then result.pos else pos
  }

  predicate TraceOk(w: seq<Byte>, size: nat, pos: nat, trace: seq<Event>)
    decreases |trace|
  {
    trace == [] ||
    (Allowed(w, size, pos, trace[0]) && PosAfter(pos, trace[0]) >= 0
     && TraceOk(w, size, PosAfter(pos, trace[0]), trace[1..]))
  }

  function EndPos(w: seq<Byte>, size: nat, pos: nat, trace: seq<Event>): nat
    requires TraceOk(w, size, pos, trace)
    decreases |trace|
  {
    if trace == [] then pos else EndPos(w, size, PosAfter(pos, trace[0]), trace[1..])
  }

  /** The bytes handed out, in order. */
  function Output(trace: seq<Event>): seq<Byte> {
    if trace == [] then []
    else (if trace[0].DidRead? then trace[0].data else []) + Output(trace[1..])
  }

  predicate OnlyReads(trace: seq<Event>) {
    forall e :: e in trace ==> e.DidRead?
  }

  /** Whatever the calls, the position stays between 0 and the size. */
  lemma {:induction false} PositionStaysInside(w: seq<Byte>, size: nat, pos: nat, trace: seq<Event>)
    requires pos <= size && TraceOk(w, size, pos, trace)
    ensures EndPos(w, size, pos, trace) <= size
    decreases |trace|
  {
    if trace != [] {
      PositionStaysInside(w, size, PosAfter(pos, trace[0]), trace[1..]);
    }
  }

  /** Consecutive reads, however short each one falls, hand out one contiguous slice. */
  lemma {:induction false} ReadsConcatenate(w: seq<Byte>, size: nat, pos: nat, rs: seq<Event>)
    requires TraceOk(w, size, pos, rs) && OnlyReads(rs)
    ensures var end := EndPos(w, size, pos, rs);
      pos <= end && |Output(rs)| == end - pos && (pos < end ==> end <= |w| && Output(rs) == w[pos..end])
    decreases |rs|
  {
    if rs != [] {
      var next := PosAfter(pos, rs[0]);
      ReadsConcatenate(w, size, next, rs[1..]);
      var end := EndPos(w, size, pos, rs);
      assert end == EndPos(w, size, next, rs[1..]);
      assert Output(rs) == rs[0].data + Output(rs[1..]);
      if pos < next < end {
        SlicesJoin(w, pos, next, end);
      }
    }
  }

  lemma SlicesJoin(w: seq<Byte>, a: nat, b: nat, c: nat)
    requires a <= b <= c <= |w|
    ensures w[a..b] + w[b..c] == w[a..c]
  {
  }

  /** After a seek that reports position k, the reads that follow continue from byte k of the
      file, no matter what was done before the seek. */
  lemma ReadsFollowSeek(w: seq<Byte>, size: nat, pos: nat, off: int, whence: int, k: nat, rs: seq<Event>)
    requires TraceOk(w, size, pos, [DidSeek(off, whence, Moved(k))] + rs) && OnlyReads(rs)
    ensures k <= size
    ensures var n := |Output(rs)|; n > 0 ==> k + n <= |w| && Output(rs) == w[k..k + n]
  {
    assert ([DidSeek(off, whence, Moved(k))] + rs)[1..] == rs;
    ReadsConcatenate(w, size, k, rs);
  }

  /** Reading on until the reader reports its end yields everything from k to the end. */
  lemma ReadingToTheEnd(w: seq<Byte>, k: nat, rs: seq<Event>)
    requires k <= |w| && TraceOk(w, |w|, k, rs) && OnlyReads(rs)
    requires EndPos(w, |w|, k, rs) >= |w|
    ensures Output(rs) == w[k..]
  {
    ReadsConcatenate(w, |w|, k, rs);
    PositionStaysInside(w, |w|, k, rs);
  }

  /** How the inner reader cuts its answers does not matter: of two ways of reading from the
      same place, one has simply got further. */
  lemma ChunkingIsInvisible(w: seq<Byte>, size: nat, pos: nat, a: seq<Event>, b: seq<Event>)
    requires TraceOk(w, size, pos, a) && TraceOk(w, size, pos, b) && OnlyReads(a) && OnlyReads(b)
    ensures |Output(a)| <= |Output(b)| ==> Output(a) <= Output(b)
  {
    ReadsConcatenate(w, size, pos, a);
    ReadsConcatenate(w, size, pos, b);
  }

  // ---------- the readers ----------

  function Left(end: nat, pos: nat): nat {
    if pos < end then end - pos else 0
  }

  /** How many bytes a read gets: what it asks for, what it is given, what there is. */
  function Yield(want: nat, give: nat, left: nat): nat {
    Min(Min(want, give), left)
  }

  /** A read yields as much as it can: everything asked for, or all it is given, or all there is. */
  lemma YieldMeans(want: nat, give: nat, left: nat)
    ensures var n := Yield(want, give, left);
      n <= want && n <= give && n <= left && (n == want || n == give || n == left)
    ensures Left(left, 0) == left && Left(left, want) == Max(0, left - want)
  {
  }

  /** The torrent client's reader, over fixed content. How many bytes a read yields and
      whether it reports an error is up to the swarm: `give` and `fault` say so. */
  class Inner {
    const content: seq<Byte>
    var pos: nat

    /** How often `Seek` has been called. */
    ghost var seeks: nat

    constructor (content: seq<Byte>)
      ensures this.content == content && pos == seeks == 0
    {
      this.content, pos, seeks := content, 0, 0;
    }

    method Read(want: nat, give: nat, fault: bool) returns (data: seq<Byte>, err: ReadError)
      modifies this`pos
      ensures |data| == Yield(want, give, Left(|content|, old(pos))) && pos == old(pos) + |data|
      ensures data != [] ==> pos <= |content| && data == content[old(pos)..pos]
      ensures err == if fault then Fault
                     else if data == [] && old(pos) >= |content| then EndOfFile else NoError
    {
      var left := if pos <= |content| then |content| - pos else 0;
      var n := if want < give then want else give;
      n := if left < n then left else n;
      if n == 0 {
        return [], if fault then Fault else if left == 0 then EndOfFile else NoError;
      }
      data := content[pos..pos + n];
      pos := pos + n;
      err := if fault then Fault else NoError;
    }

    /** A failed seek leaves the position alone. */
    method Seek(target: nat, fault: bool) returns (ok: bool)
      modifies this
      ensures ok == !fault && pos == (if ok then target else old(pos)) && seeks == old(seeks) + 1
    {
      seeks := seeks + 1;
      ok := !fault;
      if ok {
        pos := target;
      }
    }
  }

  class SizedReader {
    const r: Inner
    const size: nat
    var pos: nat

    /** Both cursors are at the same place, inside the file. */
    ghost predicate Valid()
      reads this, r
    {
      pos <= size <= MAX_INT64 && r.pos == pos
    }

    ghost function Visible(): seq<Byte> {
      Window(r.content, size)
    }

    constructor (r: Inner, size: nat)
      requires r.pos == 0 && size <= MAX_INT64
      ensures Valid() && this.r == r && this.size == size && pos == 0
    {
      this.r, this.size, pos := r, size, 0;
    }

    method Read(want: nat, give: nat, fault: bool) returns (data: seq<Byte>, err: ReadError)
      requires Valid()
      modifies this, r
      ensures Valid() && Allowed(Visible(), size, old(pos), DidRead(want, data))
      ensures pos == PosAfter(old(pos), DidRead(want, data)) && r.seeks == old(r.seeks)
      ensures |data| == Yield(want, give, Min(Left(size, old(pos)), Left(|r.content|, old(pos))))
      ensures err == if old(pos) >= size then EndOfFile
                     else if fault then Fault
                     else if data == [] && old(pos) >= |r.content| then EndOfFile else NoError
    {
      if pos >= size {
        return [], EndOfFile;
      }
      var p := want;
      if p > size - pos {
        p := size - pos;
      }
      ghost var from := pos;
      data, err := r.Read(p, give, fault);
      pos := pos + |data|;
      if data != [] {
        WindowSlice(r.content, size, from, pos);
      }
    }

    /** The inner reader moves whenever the position changes, for a seek to the end too. */
    method Seek(off: int, whence: int, fault: bool) returns (result: SeekResult)
      requires Valid() && IsInt64(off)
      modifies this, r
      ensures Valid() && Allowed(Visible(), size, old(pos), DidSeek(off, whence, result))
      ensures pos == PosAfter(old(pos), DidSeek(off, whence, result))
      ensures var aim := SeekOf(size, old(pos), off, whence);
        result == if AsksInner(size, old(pos), off, whence) && fault then InnerFailed else aim
      ensures r.seeks == old(r.seeks) + if AsksInner(size, old(pos), off, whence) then 1 else 0
    {
      var target: int;
      if whence == SEEK_START {
        target := off;
      } else if whence == SEEK_CURRENT {
        target := Wrap64(pos + off);
      } else if whence == SEEK_END {
        target := Wrap64(size + off);
      } else {
        return BadWhence;
      }
      if target < 0 {
        return NegativeSeek;
      }
      if target > size {
        target := size;
      }
      if target != pos {
        var ok := r.Seek(target, fault);
        if !ok {
          return InnerFailed;
        }
        pos := target;
      }
      return Moved(pos);
    }
  }

  /** A probe of a file just opened moves the inner reader to its end. */
  method ProbeFreshReader(content: seq<Byte>, size: nat) returns (reader: SizedReader, result: SeekResult)
    requires 0 < size <= MAX_INT64
    ensures result == Moved(size) && reader.r.seeks == 1 && reader.r.pos == size
  {
    var inner := new Inner(content);
    reader := new SizedReader(inner, size);
    EndProbeIsLocalIffAtEnd(size, 0);
    result := reader.Seek(0, SEEK_END, false);
  }
}
