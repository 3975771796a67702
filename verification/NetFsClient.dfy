/**
 The ps2netfs request functions (netfsproto_core.c) over one connection. The global packet
 buffers are arrays that each request overwrites; what the server has sent and the client has not
 received is `rx`.
*/
module NetFsClient {
  import opened Bytes
  import opened NetFs
  import opened FileServer

  /** What a server makes of one request: how much of a read or write it serves, and whether its whole reply arrives.
      With Cut only the given number of bytes arrives, no more than the header, and the connection is over. */
  datatype Deal = Whole(most: int) | Cut(most: int, bytes: nat)

  /** A file server; one that serves parts of reads and writes and goes away when it has no more deals; or a peer that
      answers each send with bytes of its own choosing. */
  datatype Server = Files(disk: Disk) | Flaky(disk: Disk, deals: seq<Deal>) | Scripted(output: seq<seq<byte>>)

  datatype Reaction = Reaction(server: Server, unserved: seq<byte>, output: seq<byte>)

  /** What happens at the far end once the bytes in p have arrived. */
  function React(s: Server, p: seq<byte>): Reaction {
    match s
    case Files(d) =>
      (match Serve(d, p, ALL)
       case Wait => Reaction(s, p, [])
       case Served(d', rest, reply) => Reaction(Files(d'), rest, reply))
    case Flaky(d, deals) =>
      if deals == [] then Reaction(s, [], [])
      else
        (match Serve(d, p, deals[0].most)
         case Wait => Reaction(s, p, [])
         case Served(d', rest, reply) => Reaction(Flaky(d', After(deals)), rest, Arriving(deals[0], reply)))
    case Scripted(output) =>
      if output == [] then Reaction(s, [], []) else Reaction(Scripted(output[1..]), [], output[0])
  }

  /** What is left to deal out. */
  function After(deals: seq<Deal>): seq<Deal>
    requires deals != []
  {
    if deals[0].Cut? then [] else deals[1..]
  }

  function Arriving(deal: Deal, reply: seq<byte>): seq<byte> {
    match deal
    case Whole(_) => reply
    case Cut(_, bytes) => var n := if bytes <= HDR then bytes else HDR; if n <= |reply| then reply[..n] else reply
  }

  /** The client's end of a connection and what is at the other. */
  datatype Connection = Connection(server: Server, unserved: seq<byte>, rx: seq<byte>, buf: seq<byte>, connected: bool)

  /** A write request on a connection, and its result. */
  function Written(c: Connection, broken: bool, fd: int, data: seq<byte>): (r: (Connection, i32))
    requires |c.buf| == PACKET_MAXSIZE
    ensures |r.0.buf| == PACKET_MAXSIZE
  {
    var s1 := React(c.server, c.unserved + TransferRequest(WRITE_CMD, fd, |data|));
    var s := React(s1.server, s1.unserved + data);
    var a := Accept(c.buf, c.rx + s1.output + s.output, FILE_RLY, WRITE_RLY, broken);
    (Connection(s.server, s.unserved, a.rx, a.buf, !a.dropped), Result(a))
  }

  /** The data of a read: into the buffer as far as it goes, and off the stream. */
  function Fill(buf: seq<byte>, rx: seq<byte>, v: nat): (r: (seq<byte>, seq<byte>))
    ensures |r.0| == |buf|
  {
    var n := if v <= |rx| then v else |rx|;
    (Splice(buf, 0, rx[..if n <= |buf| then n else |buf|]), rx[n..])
  }

  lemma MoreStored(a0: seq<byte>, at: nat, rx0: seq<byte>, got: nat, len: nat)
    requires got + len <= |rx0| && at + got + len <= |a0|
    ensures Splice(Splice(a0, at, rx0[..got]), at + got, rx0[got..][..len]) == Splice(a0, at, rx0[..got + len])
    ensures rx0[got..][len..] == rx0[got + len..]
  {
    SpliceMore(a0, at, rx0[..got], rx0[got..][..len]);
    assert rx0[..got] + rx0[got..][..len] == rx0[..got + len];
  }

  /** What the peer sends for each request. */
  function Outputs(replies: seq<Reply>): seq<seq<byte>> {
    if replies == [] then [] else [replies[0].frame + replies[0].payload] + Outputs(replies[1..])
  }

  lemma ReplyTaken(buf: seq<byte>, r: Reply, e: Expect)
    requires |buf| == PACKET_MAXSIZE && Answers(r, e)
    ensures var rx := [] + (r.frame + r.payload);
            var x := Exchange(buf, rx, e);
            && x.0 == Answer(Int32At(r.frame, HDR), r.payload) && x.2 == []
            && !Accept(buf, rx, e.cap, e.kind, false).dropped
  {
    assert [] + (r.frame + r.payload) == r.frame + (r.payload + []);
    ExchangeAligned(buf, r, [], e);
    FrameAccepted(buf, r.frame, r.payload + [], e.cap, e.kind, false);
  }

  class Client {
    const sendPacket: array<byte>
    const recvPacket: array<byte>
    const broken: bool            // a connection that runs dry fails with an error, not with an end of file
    var rx: seq<byte>
    var unserved: seq<byte>       // bytes of an incomplete request at the server
    var server: Server
    var connected: bool           // ps2_netfs_fd is open

    ghost predicate Valid()
      reads this
    {
      sendPacket.Length == PACKET_MAXSIZE && recvPacket.Length == PACKET_MAXSIZE && sendPacket != recvPacket
    }

    /** Nothing is in transit. */
    ghost predicate Quiet()
      reads this
    {
      Valid() && rx == [] && unserved == [] && connected
    }

    /** And a file server is at the other end. */
    ghost predicate InSync()
      reads this
    {
      Quiet() && server.Files?
    }

    /** Or one that will answer the next request in full, but may serve only part of it. */
    ghost predicate Dealing()
      reads this
    {
      Quiet() && server.Flaky? && server.deals != [] && server.deals[0].Whole?
    }

    ghost function View(): Connection
      reads this, recvPacket
    {
      Connection(server, unserved, rx, recvPacket[..], connected)
    }

    constructor (server: Server, broken: bool)
      ensures Valid() && fresh(sendPacket) && fresh(recvPacket)
      ensures rx == [] && unserved == [] && this.server == server && connected && this.broken == broken
    {
      sendPacket, recvPacket := new byte[PACKET_MAXSIZE](_ => 0), new byte[PACKET_MAXSIZE](_ => 0);
      rx, unserved, this.server, this.broken, connected := [], [], server, broken, true;
      new;
      assert sendPacket != recvPacket;
    }

    method Send(b: seq<byte>)
      modifies this`rx, this`unserved, this`server
      ensures var r := React(old(server), old(unserved) + b);
              server == r.server && unserved == r.unserved && rx == old(rx) + r.output
    {
      var r := React(server, unserved + b);
      server, unserved, rx := r.server, r.unserved, rx + r.output;
    }

    /** recv: some of what is there, 0 at the end of the stream, or an error. */
    method Recv(a: array<byte>, at: nat, left: nat) returns (len: int)
      requires 0 < left && at + left <= a.Length
      modifies a, this`rx
      ensures if old(rx) == [] then len == (if broken then -1 else 0) && a[..] == old(a[..]) && rx == []
              else
                && 1 <= len <= left && len <= |old(rx)|
                && a[..] == Splice(old(a[..]), at, old(rx)[..len]) && rx == old(rx)[len..]
    {
      if rx == [] {
        return if broken then -1 else 0;
      }
      len :| 1 <= len <= left && len <= |rx|;
      forall i | 0 <= i < len {
        a[at + i] := rx[i];
      }
      rx := rx[len..];
    }

    /** recv, of a stream rx0 of which `got` bytes have been stored before. */
    method RecvMore(a: array<byte>, at: nat, got: nat, left: nat, ghost a0: seq<byte>, ghost rx0: seq<byte>) returns (len: int)
      requires 0 < left && at + got + left <= a.Length && got <= |rx0| && |a0| == a.Length
      requires a[..] == Splice(a0, at, rx0[..got]) && rx == rx0[got..]
      modifies a, this`rx
      ensures if got == |rx0| then len == (if broken then -1 else 0) else 1 <= len <= left && got + len <= |rx0|
      ensures var n := if len > 0 then got + len else got; a[..] == Splice(a0, at, rx0[..n]) && rx == rx0[n..]
    {
      len := Recv(a, at + got, left);
      if len > 0 {
        MoreStored(a0, at, rx0, got, len);
      }
    }

    /** pko_recv_bytes */
    method RecvBytes(a: array<byte>, at: nat, bytes: int) returns (ret: int)
      requires at + bytes <= a.Length && at <= a.Length
      modifies a, this`rx
      ensures var r := NetFs.RecvBytes(old(a[..]), at, old(rx), bytes, broken);
              ret == r.ret && a[..] == r.buf && rx == r.rx
    {
      ghost var a0, rx0 := a[..], rx;
      var left := bytes;
      var got := 0;
      assert Splice(a0, at, rx0[..0]) == a0;
      while left > 0
        invariant got + left == bytes && 0 <= got <= |rx0| && (got > 0 ==> left >= 0)
        invariant a[..] == Splice(a0, at, rx0[..got]) && rx == rx0[got..]
      {
        var len := RecvMore(a, at, got, left, a0, rx0);
        if len <= 0 {
          assert rx0[..got] == rx0;
          return len;
        }
        left, got := left - len, got + len;
      }
      ret := bytes;
    }

    method AcceptPkt(len: nat, kind: u32) returns (ret: int)
      requires Valid() && HDR <= len <= PACKET_MAXSIZE
      modifies recvPacket, this`rx, this`connected
      ensures var r := Accept(old(recvPacket[..]), old(rx), len, kind, broken);
              ret == r.ret && recvPacket[..] == r.buf && rx == r.rx && connected == (old(connected) && !r.dropped)
    {
      var length := RecvBytes(recvPacket, 0, HDR);
      if ToU32(length) <= 0 {
        return -1;
      }
      ret := FinishAccept(len, kind);
    }

    method FinishAccept(len: nat, kind: u32) returns (ret: int)
      requires Valid() && HDR <= len <= PACKET_MAXSIZE
      modifies recvPacket, this`rx, this`connected
      ensures var r := AcceptBody(old(recvPacket[..]), old(rx), len, kind, broken);
              ret == r.ret && recvPacket[..] == r.buf && rx == r.rx && connected == (old(connected) && !r.dropped)
    {
      var hcmd, hlen := KindOf(recvPacket[..]), LengthOf(recvPacket[..]);
      if hcmd != kind {
        connected := false;
        return 0;
      }
      if hlen > len {
        return 0;
      }
      var length := RecvBytes(recvPacket, HDR, hlen - HDR);
      ret := if ToU32(length) <= 0 then 0 else 1;
    }

    /** Builds a request at the start of send_packet; the bytes beyond it stay as they were. */
    method Build(request: seq<byte>)
      requires Valid() && |request| <= PACKET_MAXSIZE
      modifies sendPacket
      ensures sendPacket[..] == Splice(old(sendPacket[..]), 0, request)
    {
      forall i | 0 <= i < |request| {
        sendPacket[i] := request[i];
      }
    }

    /** The part every request function shares: send the request, take the reply. */
    method Request(request: seq<byte>, len: nat, kind: u32) returns (ok: bool, r: i32)
      requires Valid() && connected && |request| <= PACKET_MAXSIZE && FILE_RLY <= len <= PACKET_MAXSIZE
      modifies this`rx, this`unserved, this`server, this`connected, sendPacket, recvPacket
      ensures sendPacket[..] == Splice(old(sendPacket[..]), 0, request)
      ensures var s := React(old(server), old(unserved) + request);
              var a := Accept(old(recvPacket[..]), old(rx) + s.output, len, kind, broken);
              && server == s.server && unserved == s.unserved
              && rx == a.rx && recvPacket[..] == a.buf && connected == !a.dropped
              && ok == (a.ret != 0) && r == Result(a)
    {
      Build(request);
      assert sendPacket[..|request|] == request;
      Send(sendPacket[..|request|]);
      var got := AcceptPkt(len, kind);
      ok := got != 0;
      r := -1;
      if ok {
        r := Int32At(recvPacket[..], HDR);
      }
    }

    /** A request the file server answers with a plain reply, from and to a connection in sync. */
    ghost predicate Refines(d: Disk, r: i32, op: (Disk, i32))
      reads this
    {
      InSync() && server == Files(op.0) && r == op.1
    }

    method ReqOpen(path: seq<byte>, mode: i32) returns (r: i32)
      requires Valid() && connected
      modifies this`rx, this`unserved, this`server, this`connected, sendPacket, recvPacket
      ensures sendPacket[..] == Splice(old(sendPacket[..]), 0, FileRequest(OPEN_CMD, PutInt32(mode), path))
      ensures var s := React(old(server), old(unserved) + FileRequest(OPEN_CMD, PutInt32(mode), path));
              var a := Accept(old(recvPacket[..]), old(rx) + s.output, FILE_RLY, OPEN_RLY, broken);
              && server == s.server && unserved == s.unserved && rx == a.rx && connected == !a.dropped
              && recvPacket[..] == a.buf && r == Result(a)
      ensures old(InSync()) ==> Refines(old(server).disk, r, Open(old(server).disk, Name(path), mode))
    {
      ghost var buf := recvPacket[..];
      var request := FileRequest(OPEN_CMD, PutInt32(mode), path);
      assert [] + request == request;
      var ok;
      ok, r := Request(request, FILE_RLY, OPEN_RLY);
      if old(InSync()) {
        var d := old(server).disk;
        ServeOpen(d, path, mode, ALL);
        PlainReply(buf, OPEN_RLY, Open(d, Name(path), mode).1, broken);
      }
    }

    method ReqClose(fd: i32) returns (r: i32)
      requires Valid() && connected
      modifies this`rx, this`unserved, this`server, this`connected, sendPacket, recvPacket
      ensures sendPacket[..] == Splice(old(sendPacket[..]), 0, CloseRequest(CLOSE_CMD, fd))
      ensures var s := React(old(server), old(unserved) + CloseRequest(CLOSE_CMD, fd));
              var a := Accept(old(recvPacket[..]), old(rx) + s.output, FILE_RLY, CLOSE_RLY, broken);
              && server == s.server && unserved == s.unserved && rx == a.rx && connected == !a.dropped
              && recvPacket[..] == a.buf && r == Result(a)
      ensures old(InSync()) ==> Refines(old(server).disk, r, Close(old(server).disk, fd))
    {
      ghost var buf := recvPacket[..];
      var request := CloseRequest(CLOSE_CMD, fd);
      assert [] + request == request;
      var ok;
      ok, r := Request(request, FILE_RLY, CLOSE_RLY);
      if old(InSync()) {
        ServeClose(old(server).disk, fd, ALL);
        PlainReply(buf, CLOSE_RLY, Close(old(server).disk, fd).1, broken);
      }
    }

    method ReqLseek(fd: i32, offset: i32, whence: i32) returns (r: i32)
      requires Valid() && connected
      modifies this`rx, this`unserved, this`server, this`connected, sendPacket, recvPacket
      ensures sendPacket[..] == Splice(old(sendPacket[..]), 0, LseekRequest(fd, offset, whence))
      ensures var s := React(old(server), old(unserved) + LseekRequest(fd, offset, whence));
              var a := Accept(old(recvPacket[..]), old(rx) + s.output, FILE_RLY, LSEEK_RLY, broken);
              && server == s.server && unserved == s.unserved && rx == a.rx && connected == !a.dropped
              && recvPacket[..] == a.buf && r == Result(a)
      ensures old(InSync()) ==> Refines(old(server).disk, r, Lseek(old(server).disk, fd, offset, whence))
    {
      ghost var buf := recvPacket[..];
      var request := LseekRequest(fd, offset, whence);
      assert [] + request == request;
      var ok;
      ok, r := Request(request, FILE_RLY, LSEEK_RLY);
      if old(InSync()) {
        ServeLseek(old(server).disk, fd, offset, whence, ALL);
        PlainReply(buf, LSEEK_RLY, Lseek(old(server).disk, fd, offset, whence).1, broken);
      }
    }

    /** Receives the r data bytes of a read reply. */
    method TakeData(ptr: array<byte>, r: nat)
      modifies this`rx, ptr
      ensures ptr[..] == Fill(old(ptr[..]), old(rx), r).0 && rx == Fill(old(ptr[..]), old(rx), r).1
    {
      ghost var was, stream := ptr[..], rx;
      var n := if r <= ptr.Length then r else ptr.Length;
      var _ := RecvBytes(ptr, 0, n);
      ghost var got := NetFs.RecvBytes(was, 0, stream, n, broken);
      assert ptr[..] == got.buf && rx == got.rx;
      assert n == 0 ==> Splice(was, 0, []) == was;
      if n <= |stream| {
        assert rx == stream[n..];
      } else {
        assert stream[..|stream|] == stream;
      }
      Discard(r - n);
    }

    method ReqRead(fd: i32, ptr: array<byte>, size: i32) returns (r: i32)
      requires Valid() && connected && ptr != sendPacket && ptr != recvPacket
      modifies this`rx, this`unserved, this`server, this`connected, sendPacket, recvPacket, ptr
      ensures sendPacket[..] == Splice(old(sendPacket[..]), 0, TransferRequest(READ_CMD, fd, size))
      ensures var s := React(old(server), old(unserved) + TransferRequest(READ_CMD, fd, size));
              var a := Accept(old(recvPacket[..]), old(rx) + s.output, READ_REQ, READ_RLY, broken);
              var f := if a.ret != 0 && r > 0 then Fill(old(ptr[..]), a.rx, r) else (old(ptr[..]), a.rx);
              && server == s.server && unserved == s.unserved && connected == !a.dropped
              && recvPacket[..] == a.buf && r == Result(a)
              && ptr[..] == f.0 && rx == f.1
      ensures old(InSync()) ==>
                var (d', v, b) := Read(old(server).disk, fd, size);
                && InSync() && server == Files(d') && r == v
                && (|b| <= ptr.Length ==> ptr[..] == Splice(old(ptr[..]), 0, b))
    {
      ghost var buf, was := recvPacket[..], ptr[..];
      var ok;
      ok, r := Request(TransferRequest(READ_CMD, fd, size), READ_REQ, READ_RLY);
      // the field is compared as unsigned, but pko_recv_bytes receives nothing for a negative count
      if ok && r > 0 {
        TakeData(ptr, r);
      }
      if old(InSync()) {
        ReadInSync(buf, old(server).disk, fd, size, was, broken);
      }
    }

    /** What all request functions but the write have in common: request, reply, and the data of a read. */
    method Call(op: Operation, request: seq<byte>, ptr: array<byte>) returns (ghost answer: Answer)
      requires Valid() && connected && !broken && |request| <= PACKET_MAXSIZE && ptr != sendPacket && ptr != recvPacket
      modifies this`rx, this`unserved, this`server, this`connected, sendPacket, recvPacket, ptr
      ensures var s := React(old(server), old(unserved) + request);
              var x := Exchange(old(recvPacket[..]), old(rx) + s.output, Expected(op));
              && server == s.server && unserved == s.unserved
              && answer == x.0 && recvPacket[..] == x.1 && rx == x.2
              && connected == !Accept(old(recvPacket[..]), old(rx) + s.output, Expected(op).cap, Expected(op).kind, false).dropped
    {
      ghost var out := React(server, unserved + request).output;
      ghost var a := Accept(recvPacket[..], rx + out, Expected(op).cap, Expected(op).kind, false);
      var ok, r := Request(request, Expected(op).cap, Expected(op).kind);
      if ok && Expected(op).data && r > 0 {
        TakeData(ptr, r);
        answer := Answer(r, a.rx[..if r <= |a.rx| then r else |a.rx|]);
      } else {
        answer := Answer(r, []);
      }
    }

    /** A call to a peer whose next output is a well-formed reply. */
    method AnsweredCall(op: Operation, request: seq<byte>, ptr: array<byte>, ghost reply: Reply, ghost more: seq<seq<byte>>)
        returns (ghost answer: Answer)
      requires Valid() && connected && !broken && rx == [] && ptr != sendPacket && ptr != recvPacket
      requires |request| <= PACKET_MAXSIZE && Answers(reply, Expected(op))
      requires server == Scripted([reply.frame + reply.payload] + more)
      modifies this`rx, this`unserved, this`server, this`connected, sendPacket, recvPacket, ptr
      ensures answer == Answer(Int32At(reply.frame, HDR), reply.payload)
      ensures connected && rx == [] && server == Scripted(more)
    {
      ReplyTaken(recvPacket[..], reply, Expected(op));
      assert ([reply.frame + reply.payload] + more)[1..] == more;
      answer := Call(op, request, ptr);
    }

    /** A sequence of requests on one connection, each answered by a well-formed reply when it has been sent:
        every request gets its own reply and data, and nothing is left on the stream. */
    method Calls(ops: seq<Operation>, requests: seq<seq<byte>>, ptr: array<byte>, ghost replies: seq<Reply>)
        returns (ghost answers: seq<Answer>)
      requires Valid() && connected && !broken && rx == [] && ptr != sendPacket && ptr != recvPacket
      requires |requests| == |ops| && forall i :: 0 <= i < |ops| ==> |requests[i]| <= PACKET_MAXSIZE
      requires Matched(replies, ops) && server == Scripted(Outputs(replies))
      modifies this`rx, this`unserved, this`server, this`connected, sendPacket, recvPacket, ptr
      ensures |answers| == |ops| && connected && rx == []
      ensures forall i :: 0 <= i < |ops| ==> answers[i] == Answer(Int32At(replies[i].frame, HDR), replies[i].payload)
    {
      answers := [];
      assert replies[0..] == replies;
      for i := 0 to |ops|
        invariant connected && rx == [] && server == Scripted(Outputs(replies[i..]))
        invariant |answers| == i
        invariant forall k :: 0 <= k < i ==> answers[k] == Answer(Int32At(replies[k].frame, HDR), replies[k].payload)
      {
        assert replies[i..][1..] == replies[i + 1..];
        ghost var answer := AnsweredCall(ops[i], requests[i], ptr, replies[i], Outputs(replies[i + 1..]));
        answers := answers + [answer];
      }
    }

    /** Bytes of a reply beyond the caller's buffer. */
    method Discard(n: nat)
      modifies this`rx
      ensures rx == if n <= |old(rx)| then old(rx)[n..] else []
    {
      rx := if n <= |rx| then rx[n..] else [];
    }

    method ReqWrite(fd: i32, data: seq<byte>) returns (r: i32)
      requires Valid() && connected && |data| < 0x8000_0000
      modifies this`rx, this`unserved, this`server, this`connected, sendPacket, recvPacket
      ensures sendPacket[..] == Splice(old(sendPacket[..]), 0, TransferRequest(WRITE_CMD, fd, |data|))
      ensures var s1 := React(old(server), old(unserved) + TransferRequest(WRITE_CMD, fd, |data|));
              var s := React(s1.server, s1.unserved + data);
              var a := Accept(old(recvPacket[..]), old(rx) + s1.output + s.output, FILE_RLY, WRITE_RLY, broken);
              && server == s.server && unserved == s.unserved && connected == !a.dropped
              && rx == a.rx && recvPacket[..] == a.buf && r == Result(a)
      ensures old(InSync()) ==> Refines(old(server).disk, r, Write(old(server).disk, fd, data))
    {
      ghost var buf := recvPacket[..];
      SendWrite(TransferRequest(WRITE_CMD, fd, |data|), data);
      var got := AcceptPkt(FILE_RLY, WRITE_RLY);
      r := -1;
      if got != 0 {
        r := Int32At(recvPacket[..], HDR);
      }
      if old(InSync()) {
        WriteInSync(buf, old(server).disk, fd, data, broken);
      }
    }

    method SendWrite(request: seq<byte>, data: seq<byte>)
      requires Valid() && |request| <= PACKET_MAXSIZE
      modifies this`rx, this`unserved, this`server, sendPacket
      ensures sendPacket[..] == Splice(old(sendPacket[..]), 0, request)
      ensures var s1 := React(old(server), old(unserved) + request);
              var s := React(s1.server, s1.unserved + data);
              server == s.server && unserved == s.unserved && rx == old(rx) + s1.output + s.output
    {
      Build(request);
      assert sendPacket[..|request|] == request;
      Send(sendPacket[..|request|]);
      Send(data);
    }
  }

  /** A plain reply alone on the stream is taken whole and yields its value. */
  lemma PlainReply(buf: seq<byte>, kind: u32, v: i32, broken: bool)
    requires |buf| == PACKET_MAXSIZE
    ensures var a := Accept(buf, [] + FileReply(kind, v), FILE_RLY, kind, broken);
            a.ret == 1 && a.rx == [] && !a.dropped && Result(a) == v
  {
    var f := FileReply(kind, v);
    HeadFields(f, kind, FILE_RLY, PutInt32(v));
    Int32RoundTrip(f, HDR, v);
    assert f + [] == f && [] + f == f;
    FrameAccepted(buf, f, [], FILE_RLY, kind, broken);
  }

  lemma DataReply(buf: seq<byte>, v: i32, data: seq<byte>, broken: bool)
    requires |buf| == PACKET_MAXSIZE
    ensures var a := Accept(buf, [] + (ReadReply(v) + data), READ_REQ, READ_RLY, broken);
            a.ret == 1 && a.rx == data && !a.dropped && Result(a) == v
  {
    var f := ReadReply(v);
    assert f == Head(READ_RLY, READ_REQ) + (PutInt32(v) + PutInt32(v));
    HeadFields(f, READ_RLY, READ_REQ, PutInt32(v) + PutInt32(v));
    Int32RoundTrip(f, HDR, v);
    assert [] + (f + data) == f + data;
    FrameAccepted(buf, f, data, READ_REQ, READ_RLY, broken);
  }

  /** Reading n <= |buf| bytes that are all on the stream. */
  lemma FillExact(buf: seq<byte>, b: seq<byte>)
    ensures Fill(buf, b, |b|).1 == []
    ensures |b| <= |buf| ==> Fill(buf, b, |b|).0 == Splice(buf, 0, b)
  {
    assert b[..|b|] == b;
  }

  lemma ReadInSync(buf: seq<byte>, d: Disk, fd: i32, size: i32, ptr: seq<byte>, broken: bool)
    requires |buf| == PACKET_MAXSIZE
    ensures var s := React(Files(d), [] + TransferRequest(READ_CMD, fd, size));
            var a := Accept(buf, [] + s.output, READ_REQ, READ_RLY, broken);
            var f := if a.ret != 0 && Result(a) > 0 then Fill(ptr, a.rx, Result(a)) else (ptr, a.rx);
            var (d', v, b) := Read(d, fd, size);
            && s.server == Files(d') && s.unserved == [] && !a.dropped && Result(a) == v
            && a.rx == b && (a.ret != 0 && v > 0 ==> v == |b|) && (a.ret == 0 || v <= 0 ==> b == [])
            && f.1 == [] && (|b| <= |ptr| ==> f.0 == Splice(ptr, 0, b))
  {
    var request := TransferRequest(READ_CMD, fd, size);
    var (d', v, b) := Read(d, fd, size);
    assert [] + request == request;
    ServeRead(d, fd, size, ALL);
    DataReply(buf, v, b, broken);
    FillExact(ptr, b);
    assert Splice(ptr, 0, []) == ptr;
  }

  /** The same for a server that serves at most `most` bytes. */
  lemma ReadPartInSync(buf: seq<byte>, d: Disk, deals: seq<Deal>, fd: i32, size: i32, ptr: seq<byte>, broken: bool)
    requires |buf| == PACKET_MAXSIZE && deals != [] && deals[0].Whole?
    ensures var s := React(Flaky(d, deals), [] + TransferRequest(READ_CMD, fd, size));
            var a := Accept(buf, [] + s.output, READ_REQ, READ_RLY, broken);
            var f := if a.ret != 0 && Result(a) > 0 then Fill(ptr, a.rx, Result(a)) else (ptr, a.rx);
            var (d', v, b) := ReadPart(d, fd, size, deals[0].most);
            && s.server == Flaky(d', deals[1..]) && s.unserved == [] && !a.dropped && Result(a) == v
            && a.rx == b && (a.ret != 0 && v > 0 ==> v == |b|) && (a.ret == 0 || v <= 0 ==> b == [])
            && f.1 == [] && (|b| <= |ptr| ==> f.0 == Splice(ptr, 0, b))
  {
    var request := TransferRequest(READ_CMD, fd, size);
    var (d', v, b) := ReadPart(d, fd, size, deals[0].most);
    assert [] + request == request;
    ServeRead(d, fd, size, deals[0].most);
    DataReply(buf, v, b, broken);
    FillExact(ptr, b);
    assert Splice(ptr, 0, []) == ptr;
  }

  lemma WriteInSync(buf: seq<byte>, d: Disk, fd: i32, data: seq<byte>, broken: bool)
    requires |buf| == PACKET_MAXSIZE && |data| < 0x8000_0000
    ensures var s1 := React(Files(d), [] + TransferRequest(WRITE_CMD, fd, |data|));
            var s := React(s1.server, s1.unserved + data);
            var a := Accept(buf, [] + s1.output + s.output, FILE_RLY, WRITE_RLY, broken);
            && s.server == Files(Write(d, fd, data).0) && s.unserved == []
            && a.rx == [] && !a.dropped && Result(a) == Write(d, fd, data).1
  {
    var request := TransferRequest(WRITE_CMD, fd, |data|);
    assert [] + request == request;
    WriteReaction(d, fd, data);
    var s1 := React(Files(d), request);
    assert [] + s1.output + React(s1.server, s1.unserved + data).output
        == [] + FileReply(WRITE_RLY, Write(d, fd, data).1);
    PlainReply(buf, WRITE_RLY, Write(d, fd, data).1, broken);
  }

  lemma WriteReaction(d: Disk, fd: i32, data: seq<byte>)
    requires |data| < 0x8000_0000
    ensures var s1 := React(Files(d), TransferRequest(WRITE_CMD, fd, |data|));
            var s := React(s1.server, s1.unserved + data);
            && s.server == Files(Write(d, fd, data).0) && s.unserved == []
            && s1.output + s.output == FileReply(WRITE_RLY, Write(d, fd, data).1)
  {
    ServeWrite(d, fd, data, ALL);
    var request := TransferRequest(WRITE_CMD, fd, |data|);
    if data == [] {
      assert request + data == request && [] + data == [];
    }
  }

  /** The replies of a file server are those the stream theorem expects. */
  lemma ServerAnswers(r: i32, data: seq<byte>)
    ensures Answers(Reply(FileReply(OPEN_RLY, r), []), Expected(OpenOp))
    ensures Answers(Reply(FileReply(CLOSE_RLY, r), []), Expected(CloseOp))
    ensures Answers(Reply(FileReply(LSEEK_RLY, r), []), Expected(LseekOp))
    ensures Answers(Reply(FileReply(WRITE_RLY, r), []), Expected(WriteOp))
    ensures (if r > 0 then |data| == r else data == []) ==> Answers(Reply(ReadReply(r), data), Expected(ReadOp))
  {
    PlainFields(OPEN_RLY, r);
    PlainFields(CLOSE_RLY, r);
    PlainFields(LSEEK_RLY, r);
    PlainFields(WRITE_RLY, r);
    assert ReadReply(r) == Head(READ_RLY, READ_REQ) + (PutInt32(r) + PutInt32(r));
    HeadFields(ReadReply(r), READ_RLY, READ_REQ, PutInt32(r) + PutInt32(r));
    Int32RoundTrip(ReadReply(r), HDR, r);
  }

  lemma PlainFields(kind: u32, r: i32)
    ensures KindOf(FileReply(kind, r)) == kind && LengthOf(FileReply(kind, r)) == FILE_RLY
    ensures Int32At(FileReply(kind, r), HDR) == r
  {
    HeadFields(FileReply(kind, r), kind, FILE_RLY, PutInt32(r));
    Int32RoundTrip(FileReply(kind, r), HDR, r);
  }
}
