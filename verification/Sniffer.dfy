/** Telling web traffic from torrent traffic by its first bytes (portmux.go). */
module Sniffer {
  import opened Basics

  /** A byte is written as the character with its code, so that tokens read as strings. */
  type Byte = c: char | c as int < 256 witness 'A'

  datatype Verdict = Web | Torrent | Reject

  const BT_FIRST: char := 19 as char

  /** One length byte and the nineteen bytes of the protocol name. */
  const BT_PREFIX: nat := 20

  const METHODS: seq<string> := [
    "GET ", "HEAD ", "POST ", "PUT ", "PATCH ", "DELETE ", "OPTIONS ", "TRACE ", "CONNECT ", "PRI "]

  /** A connection: what the client sends before it stops or the deadline passes, and how much of
      it has been read. */
  class Conn {
    ghost const stream: seq<Byte>
    var unread: seq<Byte>

    ghost predicate Valid()
      reads this
    {
      |unread| <= |stream| && stream[|stream| - |unread|..] == unread
    }

    ghost function Consumed(): seq<Byte>
      requires Valid()
      reads this
    {
      stream[..|stream| - |unread|]
    }

    constructor (sent: seq<Byte>)
      ensures Valid() && stream == unread == sent
    {
      stream, unread := sent, sent;
    }

    /** One byte, or an error when no more arrive. */
    method ReadOne() returns (b: Option<Byte>)
      requires Valid()
      modifies this
      ensures Valid()
      ensures b == if old(unread) == [] then None else Some(old(unread)[0])
      ensures unread == if old(unread) == [] then [] else old(unread)[1..]
      ensures Consumed() == old(Consumed()) + (if b.None? then [] else [b.value])
    {
      if |unread| == 0 {
        return None;
      }
      b := Some(unread[0]);
      unread := unread[1..];
    }

    /** At most `n` of the bytes that come next; a short read is allowed. */
    method Read(n: nat, short: nat) returns (b: seq<Byte>)
      requires Valid() && short < n
      modifies this
      ensures Valid()
      ensures |b| <= n && b + unread == old(unread)
      ensures b == [] ==> unread == []
    {
      var k := if |unread| < n - short then |unread| else n - short;
      b := unread[..k];
      unread := unread[k..];
    }
  }

  lemma SameLength(a: string, b: string)
    requires a <= b && |a| == |b|
    ensures a == b
  {
  }

  // ---------- what a stream is ----------

  /** Some token opens the stream. */
  ghost predicate StartsWithToken(ms: seq<string>, stream: seq<Byte>) {
    exists m: string :: m in ms && m <= stream
  }

  /** The stream could grow into some token. */
  ghost predicate StartsToken(ms: seq<string>, stream: seq<Byte>) {
    exists m: string :: m in ms && stream <= m
  }

  /** The stream ended while it could still have become one thing or the other. */
  ghost predicate EndsUndecided(ms: seq<string>, stream: seq<Byte>) {
    || stream == []
    || (stream[0] == BT_FIRST && |stream| < BT_PREFIX)
    || (stream !in ms && StartsToken(ms, stream))
  }

  ghost function VerdictFor(ms: seq<string>, stream: seq<Byte>): Verdict {
    if StartsWithToken(ms, stream) then Web
    else if EndsUndecided(ms, stream) then Reject
    else Torrent
  }

  /** The verdict for the tokens of HTTP. */
  ghost function Verdicts(stream: seq<Byte>): Verdict {
    VerdictFor(METHODS, stream)
  }

  ghost predicate ShortTokens(ms: seq<string>) {
    forall m: string :: m in ms ==> 1 <= |m| <= 8 && m[0] != BT_FIRST
  }

  ghost predicate PrefixFree(ms: seq<string>) {
    forall m: string, n: string :: m in ms && n in ms && m <= n ==> m == n
  }

  lemma MethodsAreShort()
    ensures ShortTokens(METHODS)
  {
  }

  /** No method token is the start of another. */
  lemma MethodsAreFree()
    ensures PrefixFree(METHODS)
  {
    forall i | 0 <= i < |METHODS| ensures FreeFrom(METHODS[i]) {
      if METHODS[i][0] == 'P' {
        PostPutPatchPri(METHODS[i]);
      } else {
        OtherMethods(METHODS[i]);
      }
    }
    forall m: string, n: string | m in METHODS && n in METHODS && m <= n ensures m == n {
      assert FreeFrom(m);
    }
  }

  /** This token opens no other one. */
  ghost predicate FreeFrom(m: string) {
    forall n: string :: n in METHODS && m <= n ==> m == n
  }

  lemma PostPutPatchPri(m: string)
    requires m in ["POST ", "PUT ", "PATCH ", "PRI "]
    ensures FreeFrom(m)
  {
    forall n: string | n in METHODS && m <= n ensures m == n {
      assert n[0] == 'P' && n[1] == m[1];
    }
  }

  lemma OtherMethods(m: string)
    requires m in ["GET ", "HEAD ", "DELETE ", "OPTIONS ", "TRACE ", "CONNECT "]
    ensures FreeFrom(m)
  {
    forall n: string | n in METHODS && m <= n ensures m == n {
      assert n[0] == m[0];
    }
  }

  /** So the two readings never compete: a stream that opens with a token is not undecided. */
  lemma WebIsDecided(ms: seq<string>, stream: seq<Byte>)
    requires ShortTokens(ms) && PrefixFree(ms) && StartsWithToken(ms, stream)
    ensures !EndsUndecided(ms, stream)
  {
    var m: string :| m in ms && m <= stream;
    forall n: string | n in ms && stream <= n ensures stream in ms {
      assert m <= n;
      SameLength(m, stream);
    }
  }

  /** The three verdicts, each exactly when. */
  lemma VerdictIff(stream: seq<Byte>)
    ensures Verdicts(stream) == Web <==> StartsWithToken(METHODS, stream)
    ensures Verdicts(stream) == Reject <==> EndsUndecided(METHODS, stream)
    ensures Verdicts(stream) == Torrent <==> !StartsWithToken(METHODS, stream) && !EndsUndecided(METHODS, stream)
  {
    MethodsAreShort();
    MethodsAreFree();
    if StartsWithToken(METHODS, stream) {
      WebIsDecided(METHODS, stream);
    }
  }

  /** The request-line tokens of HTTP, the preface of its second version among them. */
  predicate IsToken(s: string) {
    || s == "GET " || s == "HEAD " || s == "POST " || s == "PUT " || s == "PATCH " || s == "DELETE "
    || s == "OPTIONS " || s == "TRACE " || s == "CONNECT " || s == "PRI "
  }

  /** What the verdict on a stream is: web when it opens with a token; nothing at all, fewer than the
      twenty bytes of a handshake, or the mere start of a token is rejected; all else is for the torrent
      client. */
  lemma VerdictMeans(stream: seq<Byte>)
    ensures var web := exists n :: 0 <= n <= |stream| && IsToken(stream[..n]);
      var cut := || stream == []
                 || (stream[0] as int == 19 && |stream| < 20)
                 || exists m: string :: IsToken(m) && stream < m;
      Verdicts(stream) == if web then Web else if cut then Reject else Torrent
  {
    VerdictIff(stream);
    OpensWithToken(stream);
    if !StartsWithToken(METHODS, stream) {
      CutShort(stream);
    }
  }

  lemma OpensWithToken(stream: seq<Byte>)
    ensures StartsWithToken(METHODS, stream) <==> exists n :: 0 <= n <= |stream| && IsToken(stream[..n])
  {
    if m: string :| m in METHODS && m <= stream {
      TokensAreMethods(m);
      assert stream[..|m|] == m;
    }
    if n :| 0 <= n <= |stream| && IsToken(stream[..n]) {
      var m: string := stream[..n];
      TokensAreMethods(m);
      assert m in METHODS && m <= stream;
    }
  }

  lemma CutShort(stream: seq<Byte>)
    requires !StartsWithToken(METHODS, stream)
    ensures stream !in METHODS && StartsToken(METHODS, stream) <==> exists m: string :: IsToken(m) && stream < m
  {
    if m: string :| m in METHODS && stream <= m {
      TokensAreMethods(m);
      assert stream != m;
    }
    if m: string :| IsToken(m) && stream < m {
      TokensAreMethods(m);
      assert m in METHODS && stream <= m;
    }
    assert stream in METHODS ==> stream <= stream;
  }

  lemma TokensAreMethods(m: string)
    ensures IsToken(m) <==> m in METHODS
  {
    assert METHODS[0] == "GET " && METHODS[1] == "HEAD " && METHODS[2] == "POST " && METHODS[3] == "PUT ";
    assert METHODS[4] == "PATCH " && METHODS[5] == "DELETE " && METHODS[6] == "OPTIONS " && METHODS[7] == "TRACE ";
    assert METHODS[8] == "CONNECT " && METHODS[9] == "PRI ";
  }

  // ---------- sniffing ----------

  lemma StartsTokenAt(ms: seq<string>, buf: seq<Byte>, k: nat)
    requires k < |ms| && buf <= ms[k]
    ensures StartsToken(ms, buf)
  {
    var m := ms[k];
    assert m in ms && buf <= m;
  }

  /** What the bytes read so far say: a whole token, the start of one, or neither. */
  method Look(ms: seq<string>, buf: seq<Byte>) returns (whole: bool, possible: bool)
    ensures whole <==> buf in ms
    ensures possible <==> StartsToken(ms, buf)
  {
    whole, possible := false, false;
    for i := 0 to |ms|
      invariant !whole
      invariant forall k :: 0 <= k < i ==> ms[k] != buf
      invariant possible <==> exists k :: 0 <= k < i && buf <= ms[k]
    {
      if buf == ms[i] {
        StartsTokenAt(ms, buf, i);
        return true, true;
      }
      if buf <= ms[i] {
        possible := true;
      }
    }
    if possible {
      ghost var k :| 0 <= k < |ms| && buf <= ms[k];
      StartsTokenAt(ms, buf, k);
    }
    if StartsToken(ms, buf) {
      ghost var m: string :| m in ms && buf <= m;
      ghost var k :| 0 <= k < |ms| && ms[k] == m;
      assert buf <= ms[k];
    }
  }

  /** The bytes read so far open the stream, and no shorter token does. */
  ghost predicate StillOpen(ms: seq<string>, stream: seq<Byte>, buf: seq<Byte>) {
    && ShortTokens(ms) && 0 < |buf| && buf <= stream && buf[0] != BT_FIRST
    && forall m: string :: m in ms && m <= stream ==> |buf| <= |m|
  }

  lemma DecidedTorrent(ms: seq<string>, stream: seq<Byte>, buf: seq<Byte>)
    requires StillOpen(ms, stream, buf) && buf !in ms
    requires |buf| >= 8 || !StartsToken(ms, buf)
    ensures VerdictFor(ms, stream) == Torrent
  {
    forall m: string | m in ms ensures !(m <= stream) && !(stream <= m) {
      if m <= stream || stream <= m {
        assert buf <= m;
        SameLength(buf, m);
      }
    }
  }

  lemma DecidedReject(ms: seq<string>, stream: seq<Byte>)
    requires StillOpen(ms, stream, stream) && stream !in ms && StartsToken(ms, stream)
    ensures VerdictFor(ms, stream) == Reject
  {
    forall m: string | m in ms ensures !(m <= stream) {
      if m <= stream {
        SameLength(m, stream);
      }
    }
  }

  lemma StaysOpen(ms: seq<string>, stream: seq<Byte>, buf: seq<Byte>, more: seq<Byte>)
    requires StillOpen(ms, stream, buf) && buf !in ms
    requires buf <= more <= stream && |more| == |buf| + 1
    ensures StillOpen(ms, stream, more)
  {
    forall m: string | m in ms && m <= stream ensures |more| <= |m| {
      if |m| == |buf| {
        SameLength(m, buf);
      }
    }
  }

  lemma HandshakeVerdict(ms: seq<string>, stream: seq<Byte>)
    requires ShortTokens(ms) && stream != [] && stream[0] == BT_FIRST
    ensures VerdictFor(ms, stream) == if |stream| < BT_PREFIX then Reject else Torrent
  {
  }

  /** `sniff`: the side a connection belongs to, and the bytes that had to be read to tell. */
  method Sniff(c: Conn) returns (v: Verdict, buf: seq<Byte>)
    requires c.Valid() && c.unread == c.stream
    modifies c
    ensures c.Valid()
    ensures v == Verdicts(c.stream)
    ensures buf == c.Consumed() && |buf| <= BT_PREFIX
    ensures v == Web ==> buf in METHODS
  {
    MethodsAreShort();
    v, buf := SniffFor(METHODS, c);
  }

  method SniffFor(ms: seq<string>, c: Conn) returns (v: Verdict, buf: seq<Byte>)
    requires ShortTokens(ms)
    requires c.Valid() && c.unread == c.stream
    modifies c
    ensures c.Valid()
    ensures v == VerdictFor(ms, c.stream)
    ensures buf == c.Consumed() && |buf| <= BT_PREFIX
    ensures v == Web ==> buf in ms
  {
    buf := [];
    var b := c.ReadOne();
    if b.None? {
      return Reject, buf;
    }
    buf := [b.value];
    if buf[0] == BT_FIRST {
      v, buf := SniffHandshake(ms, c, buf);
    } else {
      v, buf := SniffMethod(ms, c, buf);
    }
  }

  method SniffHandshake(ghost ms: seq<string>, c: Conn, first: seq<Byte>) returns (v: Verdict, buf: seq<Byte>)
    requires ShortTokens(ms)
    requires c.Valid() && c.stream != [] && first == c.Consumed() == [BT_FIRST]
    modifies c
    ensures c.Valid()
    ensures v == VerdictFor(ms, c.stream)
    ensures buf == c.Consumed() && |buf| <= BT_PREFIX && v != Web
  {
    HandshakeVerdict(ms, c.stream);
    buf := first;
    while |buf| < BT_PREFIX
      invariant c.Valid() && buf == c.Consumed() && |buf| <= BT_PREFIX
    {
      var b := c.ReadOne();
      if b.None? {
        return Reject, buf;
      }
      buf := buf + [b.value];
    }
    v := Torrent;
  }

  method SniffMethod(ms: seq<string>, c: Conn, first: seq<Byte>) returns (v: Verdict, buf: seq<Byte>)
    requires ShortTokens(ms)
    requires c.Valid() && first == c.Consumed() && |first| == 1 && first[0] != BT_FIRST
    modifies c
    ensures c.Valid()
    ensures v == VerdictFor(ms, c.stream)
    ensures buf == c.Consumed() && |buf| <= BT_PREFIX
    ensures v == Web ==> buf in ms
  {
    buf := first;
    while true
      invariant c.Valid() && buf == c.Consumed() && 0 < |buf| <= 8
      invariant StillOpen(ms, c.stream, buf)
      decreases |c.unread|
    {
      var whole, possible := Look(ms, buf);
      if whole {
        return Web, buf;
      }
      if !possible || |buf| >= 8 {
        DecidedTorrent(ms, c.stream, buf);
        return Torrent, buf;
      }
      var b := c.ReadOne();
      if b.None? {
        SameLength(buf, c.stream);
        DecidedReject(ms, c.stream);
        return Reject, buf;
      }
      StaysOpen(ms, c.stream, buf, buf + [b.value]);
      buf := buf + [b.value];
    }
  }

  // ---------- replaying what was read ----------

  /** The connection handed on: the bytes already read first, then the connection's own. */
  class PrefixConn {
    var prefix: seq<Byte>
    const conn: Conn

    ghost function Remaining(): seq<Byte>
      reads this, conn
    {
      prefix + conn.unread
    }

    constructor (prefix: seq<Byte>, conn: Conn)
      ensures this.conn == conn && Remaining() == prefix + conn.unread
    {
      this.prefix, this.conn := prefix, conn;
    }

    method Read(n: nat, short: nat) returns (b: seq<Byte>)
      requires conn.Valid() && short < n
      modifies this, conn
      ensures conn.Valid()
      ensures |b| <= n && b + Remaining() == old(Remaining())
      ensures b == [] ==> Remaining() == []
    {
      if |prefix| > 0 {
        var k := if |prefix| < n then |prefix| else n;
        b := prefix[..k];
        prefix := prefix[k..];
      } else {
        b := conn.Read(n, short);
      }
    }
  }

  /** Sniffing and handing on, then reading to the end with any sizes: the receiver sees exactly
      what the client sent. */
  method SniffThenReadAll(c: Conn, sizes: seq<nat>) returns (v: Verdict, seen: seq<Byte>)
    requires c.Valid() && c.unread == c.stream
    requires forall k :: 0 <= k < |sizes| ==> sizes[k] > 0
    modifies c
    ensures v == Verdicts(c.stream)
    ensures seen <= c.stream
    ensures |sizes| >= |c.stream| ==> seen == c.stream
  {
    var buf;
    v, buf := Sniff(c);
    var pc := new PrefixConn(buf, c);
    assert pc.Remaining() == c.stream;
    seen := ReadAll(pc, sizes);
    ghost var rest := pc.Remaining();
    assert seen + rest == c.stream;
  }

  method ReadAll(pc: PrefixConn, sizes: seq<nat>) returns (seen: seq<Byte>)
    requires pc.conn.Valid()
    requires forall k :: 0 <= k < |sizes| ==> sizes[k] > 0
    modifies pc, pc.conn
    ensures pc.conn.Valid()
    ensures seen + pc.Remaining() == old(pc.Remaining())
    ensures |seen| >= |sizes| || pc.Remaining() == []
  {
    seen := [];
    for i := 0 to |sizes|
      invariant pc.conn.Valid()
      invariant seen + pc.Remaining() == old(pc.Remaining())
      invariant |seen| >= i || pc.Remaining() == []
    {
      var b := pc.Read(sizes[i], 0);
      seen := seen + b;
    }
  }
}
