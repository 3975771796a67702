/**
 ps2netfs requests and replies on a byte stream (netfsproto_core.c, with the packet layouts of
 linkproto_core.h, which are packed). Integers travel big endian.
*/
module NetFs {
  import opened Bytes

  const OPEN_CMD: u32 := 0xbeef8011
  const OPEN_RLY: u32 := 0xbeef8012
  const CLOSE_CMD: u32 := 0xbeef8021
  const CLOSE_RLY: u32 := 0xbeef8022
  const READ_CMD: u32 := 0xbeef8031
  const READ_RLY: u32 := 0xbeef8032
  const WRITE_CMD: u32 := 0xbeef8041
  const WRITE_RLY: u32 := 0xbeef8042
  const LSEEK_CMD: u32 := 0xbeef8051
  const LSEEK_RLY: u32 := 0xbeef8052
  const MKDIR_RLY: u32 := 0xbeef8082
  const RMDIR_RLY: u32 := 0xbeef8092
  const DOPEN_RLY: u32 := 0xbeef80A2
  const DCLOSE_RLY: u32 := 0xbeef80B2
  const DREAD_RLY: u32 := 0xbeef80C2
  const DEVLIST_RLY: u32 := 0xbeef8F22
  const MOUNT_RLY: u32 := 0xbeef8142

  const PACKET_MAXSIZE: nat := 4096
  const MAX_PATH: nat := 256
  const HDR: nat := 6           // sizeof(pkt_hdr)
  const FILE_RLY: nat := 10     // sizeof(pkt_file_rly)
  const FILE_REQ: nat := 266    // sizeof(pkt_file_req)
  const CLOSE_REQ: nat := 10    // sizeof(pkt_close_req), sizeof(pkt_dread_req)
  const READ_REQ: nat := 14     // sizeof(pkt_read_req), sizeof(pkt_write_req), sizeof(pkt_read_rly)
  const LSEEK_REQ: nat := 18    // sizeof(pkt_lseek_req)
  const DREAD_LEN: nat := 306   // sizeof(pkt_dread_rly)
  const DEVLIST_LEN: nat := 270 // sizeof(pkt_devlist_rly)
  const MOUNT_REQ: nat := 782   // sizeof(pkt_mount_req), which the code also takes for the length of the reply

  const O_RDONLY: i32 := 0x0001
  const O_WRONLY: i32 := 0x0002
  const O_CREAT: i32 := 0x0200
  const O_TRUNC: i32 := 0x0400
  const SEEK_SET: i32 := 0
  const SEEK_END: i32 := 2

  /** s with b written over it from offset `at`. */
  function Splice(s: seq<byte>, at: nat, b: seq<byte>): (r: seq<byte>)
    requires at + |b| <= |s|
    ensures |r| == |s|
  {
    s[..at] + b + s[at + |b|..]
  }

  function Int32At(b: seq<byte>, at: nat): i32
    requires at + 4 <= |b|
  {
    ToI32(GetBE32(b[at..]))
  }

  function PutInt32(x: int): (b: seq<byte>)
    ensures |b| == 4
  {
    PutBE32(ToU32(x))
  }

  lemma Int32RoundTrip(b: seq<byte>, at: nat, x: i32)
    requires at + 4 <= |b| && b[at..at + 4] == PutInt32(x)
    ensures Int32At(b, at) == x
  {
    BE32RoundTrip(ToU32(x));
    SignedUnsigned(x);
    assert forall i :: 0 <= i < 4 ==> b[at..][i] == b[at..at + 4][i];
  }

  // ---- pko_recv_bytes ----

  datatype Received = Received(ret: int, buf: seq<byte>, rx: seq<byte>)

  /** Receives n bytes to offset `at`. When the stream ends first, what there is has been stored
      and the result is 0 at an orderly end and -1 after a connection error. */
  function RecvBytes(buf: seq<byte>, at: nat, rx: seq<byte>, n: int, broken: bool): (r: Received)
    requires at + n <= |buf|
    ensures |r.buf| == |buf|
  {
    if n <= 0 then Received(n, buf, rx)
    else if n <= |rx| then Received(n, Splice(buf, at, rx[..n]), rx[n..])
    else Received(if broken then -1 else 0, Splice(buf, at, rx), [])
  }

  // ---- ps2netfs_accept_pkt ----

  function KindOf(frame: seq<byte>): u32
    requires |frame| >= HDR
  {
    GetBE32(frame)
  }

  function LengthOf(frame: seq<byte>): u16
    requires |frame| >= HDR
  {
    GetBE16(frame[4..])
  }

  datatype Accepted = Accepted(ret: int, buf: seq<byte>, rx: seq<byte>, dropped: bool)

  function Accept(buf: seq<byte>, rx: seq<byte>, cap: nat, kind: u32, broken: bool): (r: Accepted)
    requires HDR <= cap <= |buf|
    ensures |r.buf| == |buf|
  {
    var h := RecvBytes(buf, 0, rx, HDR, broken);
    // the result is kept in an unsigned int, so an error of -1 is not caught here
    if h.ret == 0 then Accepted(-1, h.buf, h.rx, false) else AcceptBody(h.buf, h.rx, cap, kind, broken)
  }

  /** The rest of accept_pkt, once there is a header in the buffer. */
  function AcceptBody(buf: seq<byte>, rx: seq<byte>, cap: nat, kind: u32, broken: bool): (r: Accepted)
    requires HDR <= cap <= |buf|
    ensures |r.buf| == |buf|
  {
    if KindOf(buf) != kind then Accepted(0, buf, rx, true)
    else if LengthOf(buf) > cap then Accepted(0, buf, rx, false)
    else
      var b := RecvBytes(buf, HDR, rx, LengthOf(buf) - HDR, broken);
      Accepted(if b.ret == 0 then 0 else 1, b.buf, b.rx, false)
  }

  /** What a request function returns: -1 if accept_pkt returns 0, otherwise the retval field of
      whatever is in the receive buffer. */
  function Result(a: Accepted): i32
    requires |a.buf| >= FILE_RLY
  {
    if a.ret == 0 then -1 else Int32At(a.buf, HDR)
  }

  /** The stream starts with a frame that has been received in full. */
  predicate StartsWithFrame(rx: seq<byte>) {
    |rx| >= HDR && |rx| >= LengthOf(rx)
  }

  lemma SpliceMore(s: seq<byte>, at: nat, x: seq<byte>, y: seq<byte>)
    requires at + |x| + |y| <= |s|
    ensures Splice(Splice(s, at, x), at + |x|, y) == Splice(s, at, x + y)
  {
  }

  lemma SplicePrefix(s: seq<byte>, b: seq<byte>)
    requires |b| <= |s|
    ensures Splice(s, 0, b)[..|b|] == b
  {
  }

  lemma HeaderPrefix(a: seq<byte>, b: seq<byte>)
    requires |a| >= HDR && |b| >= HDR && a[..HDR] == b[..HDR]
    ensures KindOf(a) == KindOf(b) && LengthOf(a) == LengthOf(b)
  {
    assert forall i :: 0 <= i < HDR ==> a[i] == a[..HDR][i] && b[i] == b[..HDR][i];
  }

  /** Header, then body. */
  lemma FrameStored(buf: seq<byte>, rx: seq<byte>, n: nat)
    requires HDR < n <= |rx| && n <= |buf|
    ensures var h := Splice(buf, 0, rx[..HDR]);
            && Splice(h, HDR, rx[HDR..][..n - HDR])[..n] == rx[..n]
            && rx[HDR..][n - HDR..] == rx[n..]
  {
    var h := Splice(buf, 0, rx[..HDR]);
    assert rx[HDR..][..n - HDR] == rx[HDR..n];
    assert Splice(h, HDR, rx[HDR..n])[..n] == h[..HDR] + rx[HDR..n];
    assert rx[..HDR] + rx[HDR..n] == rx[..n];
  }

  lemma BodyIff(h: seq<byte>, rest: seq<byte>, cap: nat, kind: u32, broken: bool)
    requires HDR <= cap <= |h| && LengthOf(h) - HDR <= |rest|
    ensures var a, n := AcceptBody(h, rest, cap, kind, broken), LengthOf(h);
            && (a.ret == 1 <==> KindOf(h) == kind && n <= cap && n != HDR) && a.ret != -1
            && (a.dropped <==> KindOf(h) != kind)
            && (a.ret == 1 && HDR < n ==> a.buf == Splice(h, HDR, rest[..n - HDR]) && a.rx == rest[n - HDR..])
            && (a.ret == 1 && n < HDR ==> |a.rx| == |rest|)
            && a.buf[..HDR] == h[..HDR]
  {
  }

  /** For a frame that arrives in full, accept_pkt returns 1 and takes exactly the frame, byte for
      byte, if and only if its type is the expected one and it is longer than its header and no
      longer than the reply expected. A bare header of the right type is answered with 0. */
  lemma AcceptIff(buf: seq<byte>, rx: seq<byte>, cap: nat, kind: u32, broken: bool)
    requires HDR <= cap <= |buf| && StartsWithFrame(rx)
    ensures var a, n := Accept(buf, rx, cap, kind, broken), LengthOf(rx);
            && ((a.ret == 1 && a.rx == rx[n..] && a.buf[..n] == rx[..n]) <==>
                 (KindOf(rx) == kind && HDR < n <= cap))
            && (a.dropped <==> KindOf(rx) != kind)
            && a.ret != -1
            && a.buf[..HDR] == rx[..HDR]
  {
    var h, n := Splice(buf, 0, rx[..HDR]), LengthOf(rx);
    SplicePrefix(buf, rx[..HDR]);
    HeaderPrefix(h, rx);
    BodyIff(h, rx[HDR..], cap, kind, broken);
    if HDR < n <= cap {
      FrameStored(buf, rx, n);
    }
  }

  /** accept_pkt returns -1 exactly when the connection ends in an orderly way inside a header. */
  lemma AcceptEndIff(buf: seq<byte>, rx: seq<byte>, cap: nat, kind: u32, broken: bool)
    requires HDR <= cap <= |buf|
    ensures Accept(buf, rx, cap, kind, broken).ret == -1 <==> |rx| < HDR && !broken
  {
  }

  /** When accept_pkt reports something other than 0, which all callers take for success. */
  lemma AcceptSucceedsIff(buf: seq<byte>, rx: seq<byte>, cap: nat, kind: u32, broken: bool)
    requires HDR <= cap <= |buf|
    ensures Accept(buf, rx, cap, kind, broken).ret != 0 <==>
              if |rx| < HDR then
                // the header in the buffer is then partly or wholly that of an earlier reply
                var h := Splice(buf, 0, rx);
                !broken || (KindOf(h) == kind && LengthOf(h) <= cap && LengthOf(h) != HDR)
              else
                && KindOf(rx) == kind && LengthOf(rx) <= cap && LengthOf(rx) != HDR
                && (LengthOf(rx) <= |rx| || broken)
  {
    var h := RecvBytes(buf, 0, rx, HDR, broken);
    if |rx| >= HDR {
      SplicePrefix(buf, rx[..HDR]);
      HeaderPrefix(h.buf, rx);
    }
  }

  /** The buffer holds a frame of the stream from its first to its last byte, its retval included, and the
      stream goes on behind it. */
  predicate FrameTaken(a: Accepted, rx: seq<byte>) {
    && |rx| >= HDR && FILE_RLY <= LengthOf(rx) <= |rx| && LengthOf(rx) <= |a.buf|
    && a.buf[..LengthOf(rx)] == rx[..LengthOf(rx)] && a.rx == rx[LengthOf(rx)..]
  }

  /** For every stream: a reported success means a frame received in full if and only if the header has
      arrived, and the length it gives covers the retval and has arrived too. A stream that ends inside a
      header, one that breaks inside a body, and a length too short for a retval all pass for success. */
  lemma SuccessIsFrameIff(buf: seq<byte>, rx: seq<byte>, cap: nat, kind: u32, broken: bool)
    requires FILE_RLY <= cap <= |buf| && Accept(buf, rx, cap, kind, broken).ret != 0
    ensures FrameTaken(Accept(buf, rx, cap, kind, broken), rx) <==>
              |rx| >= HDR && FILE_RLY <= LengthOf(rx) <= |rx|
    ensures FrameTaken(Accept(buf, rx, cap, kind, broken), rx) ==>
              Result(Accept(buf, rx, cap, kind, broken)) == Int32At(rx, HDR)
  {
    var a := Accept(buf, rx, cap, kind, broken);
    if |rx| >= HDR && FILE_RLY <= LengthOf(rx) <= |rx| {
      AcceptSucceedsIff(buf, rx, cap, kind, broken);
      AcceptIff(buf, rx, cap, kind, broken);
      var n := LengthOf(rx);
      assert forall i :: 0 <= i < n ==> a.buf[i] == a.buf[..n][i] && rx[i] == rx[..n][i];
    }
  }

  /** How many bytes of the stream have reached the buffer when success is reported. */
  function Stored(rx: seq<byte>): nat {
    if |rx| < HDR then |rx| else if LengthOf(rx) <= HDR then HDR else if LengthOf(rx) <= |rx| then LengthOf(rx) else |rx|
  }

  /** What is returned then: the retval as far as its bytes have arrived, the previous reply's beyond that.
      A request on a connection that has been closed returns the previous result. */
  lemma StaleReply(buf: seq<byte>, rx: seq<byte>, cap: nat, kind: u32, broken: bool)
    requires FILE_RLY <= cap <= |buf| && Accept(buf, rx, cap, kind, broken).ret != 0
    ensures Stored(rx) <= |buf|
    ensures var a := Accept(buf, rx, cap, kind, broken);
            && a.buf == Splice(buf, 0, rx[..Stored(rx)])
            && (Stored(rx) <= HDR ==> Result(a) == Int32At(buf, HDR))
  {
    AcceptSucceedsIff(buf, rx, cap, kind, broken);
    if |rx| < HDR {
      CutHeader(buf, rx, cap, kind, broken);
    } else {
      HeaderStored(buf, rx, cap, kind, broken);
    }
    if Stored(rx) <= HDR {
      assert Splice(buf, 0, rx[..Stored(rx)])[HDR..] == buf[HDR..];
    }
  }

  lemma CutHeader(buf: seq<byte>, rx: seq<byte>, cap: nat, kind: u32, broken: bool)
    requires FILE_RLY <= cap <= |buf| && |rx| < HDR && Accept(buf, rx, cap, kind, broken).ret != 0
    ensures Accept(buf, rx, cap, kind, broken).buf == Splice(buf, 0, rx[..Stored(rx)])
  {
    var h := Splice(buf, 0, rx);
    assert rx[..|rx|] == rx && Splice(h, HDR, []) == h;
  }

  lemma HeaderStored(buf: seq<byte>, rx: seq<byte>, cap: nat, kind: u32, broken: bool)
    requires FILE_RLY <= cap <= |buf| && |rx| >= HDR && KindOf(rx) == kind && LengthOf(rx) <= cap
    ensures Accept(buf, rx, cap, kind, broken).buf == Splice(buf, 0, rx[..Stored(rx)])
  {
    var h, n := Splice(buf, 0, rx[..HDR]), Stored(rx);
    SplicePrefix(buf, rx[..HDR]);
    HeaderPrefix(h, rx);
    BodyStored(buf, rx, n);
  }

  lemma BodyStored(buf: seq<byte>, rx: seq<byte>, n: nat)
    requires HDR <= n <= |rx| && n <= |buf|
    ensures var h := Splice(buf, 0, rx[..HDR]);
            && Splice(h, HDR, rx[HDR..][..n - HDR]) == Splice(buf, 0, rx[..n])
            && (n == HDR ==> h == Splice(buf, 0, rx[..n]))
            && (n == |rx| ==> rx[HDR..][..n - HDR] == rx[HDR..])
  {
    assert rx[..n] == rx[..HDR] + rx[HDR..][..n - HDR];
    SpliceMore(buf, 0, rx[..HDR], rx[HDR..][..n - HDR]);
  }

  /** For instance a reply cut off by a connection error right behind its header. */
  lemma CutBodyPasses(buf: seq<byte>, kind: u32)
    requires |buf| == PACKET_MAXSIZE
    ensures var a := Accept(buf, PutBE32(kind) + PutBE16(FILE_RLY), FILE_RLY, kind, true);
            a.ret == 1 && Result(a) == Int32At(buf, HDR)
  {
    var rx := PutBE32(kind) + PutBE16(FILE_RLY);
    BE32RoundTrip(kind);
    BE16RoundTrip(FILE_RLY);
    assert rx[4..] == PutBE16(FILE_RLY);
    AcceptSucceedsIff(buf, rx, FILE_RLY, kind, true);
    AcceptEndIff(buf, rx, FILE_RLY, kind, true);
    StaleReply(buf, rx, FILE_RLY, kind, true);
  }

  // ---- Sequences of exchanges ----

  /** What one request expects: type and capacity of the reply, and whether `retval` data bytes
      follow it, as they do for a read. */
  datatype Expect = Expect(kind: u32, cap: nat, data: bool)

  /** The request functions with a well-formed request, and the reply each one waits for. */
  datatype Operation =
    | OpenOp | CloseOp | ReadOp | WriteOp | LseekOp | MkdirOp | RmdirOp | DopenOp | DcloseOp | DreadOp | DevlistOp | MountOp

  function Expected(op: Operation): Expect {
    match op
    case OpenOp => Expect(OPEN_RLY, FILE_RLY, false)
    case CloseOp => Expect(CLOSE_RLY, FILE_RLY, false)
    case ReadOp => Expect(READ_RLY, READ_REQ, true)
    case WriteOp => Expect(WRITE_RLY, FILE_RLY, false)
    case LseekOp => Expect(LSEEK_RLY, FILE_RLY, false)
    case MkdirOp => Expect(MKDIR_RLY, FILE_RLY, false)
    case RmdirOp => Expect(RMDIR_RLY, FILE_RLY, false)
    case DopenOp => Expect(DOPEN_RLY, FILE_RLY, false)
    case DcloseOp => Expect(DCLOSE_RLY, FILE_RLY, false)
    case DreadOp => Expect(DREAD_RLY, DREAD_LEN, false)
    case DevlistOp => Expect(DEVLIST_RLY, DEVLIST_LEN, false)
    case MountOp => Expect(MOUNT_RLY, MOUNT_REQ, false)
  }

  /** A reply as the server emits it. */
  datatype Reply = Reply(frame: seq<byte>, payload: seq<byte>)

  /** A frame of the right type and a length accept_pkt takes. */
  predicate FrameFor(frame: seq<byte>, kind: u32, cap: nat) {
    && FILE_RLY <= |frame| <= cap <= PACKET_MAXSIZE
    && LengthOf(frame) == |frame|
    && KindOf(frame) == kind
  }

  predicate Answers(r: Reply, e: Expect) {
    && FrameFor(r.frame, e.kind, e.cap)
    && var v := Int32At(r.frame, HDR);
       if e.data && v > 0 then |r.payload| == v else r.payload == []
  }

  function Stream(replies: seq<Reply>): seq<byte> {
    if replies == [] then [] else replies[0].frame + replies[0].payload + Stream(replies[1..])
  }

  datatype Answer = Answer(result: i32, data: seq<byte>)

  /** One request function: accept_pkt, then the data of a read. */
  function Exchange(buf: seq<byte>, rx: seq<byte>, e: Expect): (r: (Answer, seq<byte>, seq<byte>))
    requires FILE_RLY <= e.cap <= |buf|
    ensures |r.1| == |buf|
  {
    var a := Accept(buf, rx, e.cap, e.kind, false);
    var v := Result(a);
    if a.ret != 0 && e.data && v > 0 then
      var n := if v <= |a.rx| then v else |a.rx|;
      (Answer(v, a.rx[..n]), a.buf, a.rx[n..])
    else (Answer(v, []), a.buf, a.rx)
  }

  function Exchanges(buf: seq<byte>, rx: seq<byte>, ops: seq<Operation>): (r: (seq<Answer>, seq<byte>))
    requires |buf| == PACKET_MAXSIZE
    decreases |ops|
  {
    if ops == [] then ([], rx)
    else
      var (answer, buf', rx') := Exchange(buf, rx, Expected(ops[0]));
      var (answers, end) := Exchanges(buf', rx', ops[1..]);
      ([answer] + answers, end)
  }

  lemma RetvalPrefix(buf: seq<byte>, frame: seq<byte>)
    requires FILE_RLY <= |frame| <= |buf| && buf[..|frame|] == frame
    ensures Int32At(buf, HDR) == Int32At(frame, HDR)
  {
    assert buf[HDR..] == frame[HDR..] + buf[|frame|..];
  }

  lemma FrameAccepted(buf: seq<byte>, frame: seq<byte>, rest: seq<byte>, cap: nat, kind: u32, broken: bool)
    requires |buf| == PACKET_MAXSIZE && FrameFor(frame, kind, cap)
    ensures var a := Accept(buf, frame + rest, cap, kind, broken);
            && a.ret == 1 && a.rx == rest && !a.dropped
            && a.buf[..|frame|] == frame
            && Result(a) == Int32At(frame, HDR)
  {
    var rx, n := frame + rest, |frame|;
    assert rx[..HDR] == frame[..HDR] && rx[..n] == frame && rx[n..] == rest;
    HeaderPrefix(rx, frame);
    AcceptIff(buf, rx, cap, kind, broken);
    RetvalPrefix(Accept(buf, rx, cap, kind, broken).buf, frame);
  }

  lemma ExchangeAligned(buf: seq<byte>, r: Reply, rest: seq<byte>, e: Expect)
    requires |buf| == PACKET_MAXSIZE && Answers(r, e)
    ensures var x := Exchange(buf, r.frame + (r.payload + rest), e);
            x.0 == Answer(Int32At(r.frame, HDR), r.payload) && x.2 == rest
  {
    FrameAccepted(buf, r.frame, r.payload + rest, e.cap, e.kind, false);
    if r.payload == [] {
      assert r.payload + rest == rest;
    } else {
      assert (r.payload + rest)[..|r.payload|] == r.payload && (r.payload + rest)[|r.payload|..] == rest;
    }
  }

  /** replies[i] is a well-formed reply to request i. */
  predicate Matched(replies: seq<Reply>, ops: seq<Operation>) {
    && |ops| == |replies|
    && forall i :: 0 <= i < |ops| ==> |replies[i].frame| >= FILE_RLY && Answers(replies[i], Expected(ops[i]))
  }

  /** Stream alignment: against any sequence of well-formed replies each request gets the reply
      made for it, with its data, and the next request finds the stream at a frame boundary. */
  lemma {:induction false} StreamStaysAligned(buf: seq<byte>, replies: seq<Reply>, rest: seq<byte>, ops: seq<Operation>)
    requires |buf| == PACKET_MAXSIZE && Matched(replies, ops)
    ensures var x := Exchanges(buf, Stream(replies) + rest, ops);
            && |x.0| == |ops|
            && (forall i :: 0 <= i < |ops| ==> x.0[i] == Answer(Int32At(replies[i].frame, HDR), replies[i].payload))
            && x.1 == rest
    decreases |ops|
  {
    if ops == [] {
      assert Stream(replies) + rest == rest;
    } else {
      var r, tail := replies[0], Stream(replies[1..]) + rest;
      assert Stream(replies) + rest == r.frame + (r.payload + tail);
      ExchangeAligned(buf, r, tail, Expected(ops[0]));
      var buf' := Exchange(buf, r.frame + (r.payload + tail), Expected(ops[0])).1;
      StreamStaysAligned(buf', replies[1..], rest, ops[1..]);
    }
  }
}
