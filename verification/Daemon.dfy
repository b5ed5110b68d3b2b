/** The readiness report a daemon child sends its launcher over a pipe (internal/cli/daemon.go). */
module Daemon {

  type Byte = b: int | 0 <= b < 256

  const READY: Byte := 1
  const FAILED: Byte := 2
  const HEADER_SIZE := 9
  const MAX_BODY_SIZE := 16 * 1024 * 1024

  // The frame

  /** The big-endian digits of n, in `width` bytes; binary.BigEndian.PutUint64 for width 8. */
  function BigEndian(n: nat, width: nat): (s: seq<Byte>)
    ensures |s| == width
  {
    if width == 0 then [] else BigEndian(n / 256, width - 1) + [n % 256]
  }

  /** binary.BigEndian.Uint64. */
  function FromBigEndian(s: seq<Byte>): nat {
    if s == [] then 0 else 256 * FromBigEndian(s[..|s| - 1]) + s[|s| - 1]
  }

  function Pow256(k: nat): nat {
    if k == 0 then 1 else 256 * Pow256(k - 1)
  }

  lemma {:induction false} BigEndianValue(n: nat, width: nat)
    requires n < Pow256(width)
    ensures FromBigEndian(BigEndian(n, width)) == n
  {
    if width > 0 {
      var s := BigEndian(n, width);
      BigEndianValue(n / 256, width - 1);
      assert s[..|s| - 1] == BigEndian(n / 256, width - 1);
    }
  }

  lemma {:induction false} BigEndianUnique(s: seq<Byte>)
    ensures BigEndian(FromBigEndian(s), |s|) == s
  {
    if s != [] {
      var n := |s| - 1;
      BigEndianUnique(s[..n]);
      assert FromBigEndian(s) / 256 == FromBigEndian(s[..n]) && FromBigEndian(s) % 256 == s[n];
      assert s == s[..n] + [s[n]];
    }
  }

  lemma DivDiv(n: nat, k: nat)
    requires k > 0
    ensures n / 256 / k == n / (256 * k)
  {
    var q, r, b := n / 256 / k, n / 256 % k, n % 256;
    assert n == 256 * (q * k + r) + b;
    assert n == q * (256 * k) + (256 * r + b);
    assert 0 <= 256 * r + b < 256 * k;
    Quotient(n, 256 * k, q, 256 * r + b);
  }

  lemma Quotient(n: nat, d: nat, q: nat, r: nat)
    requires n == q * d + r && r < d
    ensures n / d == q
  {
    AtLeast(n / d - q, d);
    AtLeast(q - n / d, d);
    assert (n / d - q) * d == r - n % d;
  }

  lemma AtLeast(x: int, d: nat)
    ensures x >= 1 ==> x * d >= d
  {
    if x >= 1 {
      assert x * d == (x - 1) * d + d;
    }
  }

  /** Byte i is the digit of weight 256 to the power of the bytes behind it: the most significant byte comes first. */
  lemma {:induction false} BigEndianAt(n: nat, width: nat, i: nat)
    requires i < width
    ensures Pow256(width - 1 - i) > 0 && BigEndian(n, width)[i] == n / Pow256(width - 1 - i) % 256
  {
    if i < width - 1 {
      BigEndianAt(n / 256, width - 1, i);
      DivDiv(n, Pow256(width - 2 - i));
    }
  }

  function Frame(status: Byte, body: seq<Byte>): seq<Byte> {
    [status] + BigEndian(|body|, 8) + body
  }

  // The writing side

  /** One call of writer.Write: so many bytes were taken, or it failed after so many. */
  datatype Write = Took(n: nat) | Broke(n: nat)

  datatype WriteResult = Written | ShortWrite | WriteError | Unfinished

  /** Every write takes something. */
  predicate Taking(writes: seq<Write>) {
    forall k | 0 <= k < |writes| :: writes[k].Took? && writes[k].n >= 1
  }

  /**
    writeDaemonStatusBytes against any pattern of short and failing writes.  It gives up only for a reason: a write that
    failed, one that took nothing, or no more writes to come.
   */
  method WriteBytes(data: seq<Byte>, writes: seq<Write>) returns (sent: seq<Byte>, rest: seq<Write>, r: WriteResult)
    ensures sent <= data && |rest| <= |writes| && rest == writes[|writes| - |rest|..]
    ensures match r
            case Written => sent == data
            case WriteError => exists k :: 0 <= k < |writes| && writes[k].Broke?
            case ShortWrite => exists k :: 0 <= k < |writes| && writes[k] == Took(0)
            case Unfinished => rest == [] && sent < data
    ensures !r.Written? && (forall k | 0 <= k < |writes| :: writes[k].Took?) ==> sent < data
    ensures Taking(writes) ==> |writes| - |rest| <= |sent|
  {
    sent, rest := [], writes;
    var left := data;
    while |left| > 0
      invariant data == sent + left && |rest| <= |writes| && rest == writes[|writes| - |rest|..]
      invariant Taking(writes) ==> |writes| - |rest| <= |sent|
      decreases |rest|
    {
      if rest == [] {
        return sent, rest, Unfinished;
      }
      var w := rest[0];
      assert writes[|writes| - |rest|] == w;
      rest := rest[1..];
      var n := if w.n <= |left| then w.n else |left|;
      sent := sent + left[..n];
      if w.Broke? {
        return sent, rest, WriteError;
      }
      if n == 0 {
        return sent, rest, ShortWrite;
      }
      left := left[n..];
    }
    r := Written;
  }

  /** writeDaemonStatus; as many taking writes as the frame has bytes are always enough. */
  method WriteStatus(status: Byte, body: seq<Byte>, writes: seq<Write>) returns (sent: seq<Byte>, r: WriteResult)
    ensures sent <= Frame(status, body)
    ensures r.Written? ==> sent == Frame(status, body)
    ensures Taking(writes) && |writes| >= HEADER_SIZE + |body| ==> r.Written?
  {
    hide BigEndian;
    var header := [status] + BigEndian(|body|, 8);
    var first, rest, result := WriteBytes(header, writes);
    if !result.Written? {
      return first, result;
    }
    assert Taking(writes) ==> Taking(rest);
    var second, left, result2 := WriteBytes(body, rest);
    return first + second, result2;
  }

  // The reading side

  /** How the stream ends: the writing end was closed, or reading fails. */
  datatype End = EOF | Broken

  datatype Report =
    | Ready
    | StartupFailed(body: seq<Byte>)
    | NothingReported            // the child exited before it reported
    | ReadFailed                 // the frame broke off, or reading failed
    | Malformed
    | TooLong

  /** readDaemonStatus on everything the stream will ever deliver. */
  function Read(stream: seq<Byte>, end: End): Report {
    if |stream| < HEADER_SIZE then if stream == [] && end.EOF? then NothingReported else ReadFailed
    else
      var size := FromBigEndian(stream[1..HEADER_SIZE]);
      if stream[0] == READY then
        if size != 0 || |stream| > HEADER_SIZE then Malformed
        else if end.EOF? then Ready else ReadFailed
      else if stream[0] == FAILED then
        if size > MAX_BODY_SIZE then TooLong
        else if |stream| < HEADER_SIZE + size then ReadFailed
        else if |stream| > HEADER_SIZE + size then Malformed
        else if end.EOF? then StartupFailed(stream[HEADER_SIZE..]) else ReadFailed
      else Malformed
  }

  lemma Pow256Of8()
    ensures Pow256(8) == 0x1_0000_0000_0000_0000
  {
    assert Pow256(2) == 0x1_0000;
    assert Pow256(4) == 0x1_0000_0000;
    assert Pow256(6) == 0x1_0000_0000_0000;
  }

  lemma FrameParts(status: Byte, body: seq<Byte>)
    requires |body| <= MAX_BODY_SIZE
    ensures var f := Frame(status, body);
            && |f| == HEADER_SIZE + |body| && f[0] == status
            && FromBigEndian(f[1..HEADER_SIZE]) == |body| && f[HEADER_SIZE..] == body
  {
    var f := Frame(status, body);
    Pow256Of8();
    BigEndianValue(|body|, 8);
    assert f[1..HEADER_SIZE] == BigEndian(|body|, 8);
  }

  /** A stream whose header announces exactly the bytes that follow is a frame. */
  lemma FrameOf(stream: seq<Byte>)
    requires |stream| >= HEADER_SIZE && |stream| == HEADER_SIZE + FromBigEndian(stream[1..HEADER_SIZE])
    ensures stream == Frame(stream[0], stream[HEADER_SIZE..])
  {
    BigEndianUnique(stream[1..HEADER_SIZE]);
    assert stream == [stream[0]] + stream[1..HEADER_SIZE] + stream[HEADER_SIZE..];
  }

  /**
    The reader's verdict is exact: it reports readiness for the nine-byte ready frame and nothing else, and a
    startup failure with a given body for that body's frame and nothing else.
   */
  lemma ReadExact(stream: seq<Byte>, end: End)
    ensures Read(stream, end) == Ready <==> stream == Frame(READY, []) && end.EOF?
    ensures forall body :: Read(stream, end) == StartupFailed(body) <==>
              stream == Frame(FAILED, body) && |body| <= MAX_BODY_SIZE && end.EOF?
    ensures Read(stream, end) == NothingReported <==> stream == [] && end.EOF?
  {
    hide FromBigEndian, BigEndian, Frame;
    FrameParts(READY, []);
    if Read(stream, end) == Ready || Read(stream, end).StartupFailed? {
      FrameOf(stream);
      assert stream[0] == READY ==> stream[HEADER_SIZE..] == [];
    }
    forall body | stream == Frame(FAILED, body) && |body| <= MAX_BODY_SIZE && end.EOF?
      ensures Read(stream, end) == StartupFailed(body)
    {
      FrameParts(FAILED, body);
    }
  }

  /** A frame that broke off, or that has bytes after it, is never taken for a report. */
  lemma NoPartialReport(status: Byte, body: seq<Byte>, stream: seq<Byte>, end: End)
    requires |body| <= MAX_BODY_SIZE
    requires stream < Frame(status, body) || Frame(status, body) < stream
    ensures !Read(stream, end).Ready? && !Read(stream, end).StartupFailed?
  {
    hide FromBigEndian, BigEndian, Frame;
    var f := Frame(status, body);
    FrameParts(status, body);
    if |stream| >= HEADER_SIZE {
      assert stream[1..HEADER_SIZE] == f[1..HEADER_SIZE];
      assert stream[0] == f[0];
    }
  }

  /**
    End to end: whatever the pattern of writes, if the launcher gets a report at all it is the one the child
    made; and a child whose write went through is always heard.
   */
  lemma ReportDelivered(status: Byte, body: seq<Byte>, sent: seq<Byte>, complete: bool)
    requires status == READY || status == FAILED
    requires |body| <= MAX_BODY_SIZE && (status == READY ==> body == [])
    requires sent <= Frame(status, body) && (complete ==> sent == Frame(status, body))
    ensures var report := Read(sent, EOF); var told := if status == READY then Ready else StartupFailed(body);
            && (complete ==> report == told)
            && (report.Ready? || report.StartupFailed? ==> report == told && sent == Frame(status, body))
  {
    hide Read, Frame;
    ReadExact(sent, EOF);
    if sent != Frame(status, body) {
      NoPartialReport(status, body, sent, EOF);
    }
  }
}
