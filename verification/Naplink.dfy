/**
 The NapLink RPC engine (naplink.c): recv_and_process_packet, the nested receive loops of
 get_return and do_benchmark, and the pending-command slot.

 The peer is a queue of packets that have not been received yet. Receiving from an empty queue
 blocks for ever, which ends the run: such calls return None and nothing after the point of
 blocking happens. Every arriving packet carries the answers the operating system gives while
 that packet is being handled.
*/
module Naplink {
  import opened Bytes
  import opened Lists
  import opened Wire

  // ---- The environment ----

  datatype OpenFlag = WriteOnly | Append | Create | Truncate

  datatype ReadResult = ReadError | ReadBytes(data: seq<byte>)

  datatype Os = Os(
    open: (string, set<OpenFlag>) -> int,
    close: int -> int,
    read: (int, int) -> ReadResult,
    write: (int, seq<byte>) -> int,
    lseek: (int, int, int) -> int,
    heap: nat -> byte)               // contents of freshly allocated memory

  datatype Arrival = Arrival(packet: Packet, os: Os)

  datatype Event = Got(p: Packet) | Sent(p: Packet)

  // ---- Packet bodies ----

  /** Byte i of a body; the host reads on past the end of a body that is too short. */
  function ByteAt(b: seq<byte>, i: nat): byte {
    if i < |b| then b[i] else 0
  }

  function FieldAt(b: seq<byte>, at: nat): i32 {
    ToI32(GetLE32([ByteAt(b, at), ByteAt(b, at + 1), ByteAt(b, at + 2), ByteAt(b, at + 3)]))
  }

  function BytesAt(b: seq<byte>, at: nat, n: int): (r: seq<byte>)
    ensures |r| == if n < 0 then 0 else n
  {
    if n < 0 then [] else seq<byte>(n, i requires i >= 0 => ByteAt(b, at + i))
  }

  /** The NUL-terminated string that starts at offset `at`. */
  function CStringAt(b: seq<byte>, at: nat): string
    decreases |b| - at
  {
    if at >= |b| || b[at] == 0 then "" else [b[at] as char] + CStringAt(b, at + 1)
  }

  /** do_return: a negative count sends no payload. */
  function ReturnPacket(rv: int, data: seq<byte>, count: int): (p: Packet)
    requires count <= |data|
  {
    Packet(PACKET_RETURN, PutLE32(ToU32(rv)) + if count < 0 then [] else data[..count])
  }

  /** get_return: the value and the payload of a packet, -1 and nothing if it is not a RETURN. */
  function ReturnValue(p: Packet): int {
    if p.kind != PACKET_RETURN then -1 else FieldAt(p.body, 0)
  }

  function ReturnData(p: Packet): seq<byte> {
    if p.kind == PACKET_RETURN && |p.body| > 4 then p.body[4..] else []
  }

  // ---- Opening files along the search path ----

  const TTY := "/dev/tty"

  predicate HasBit(x: int, bit: int)
    requires bit > 0
  {
    ToU32(x) / bit % 2 == 1
  }

  /** O_RDONLY is zero on the host, so bit 0 contributes nothing. */
  function HostFlags(ps2: int): set<OpenFlag> {
    (if HasBit(ps2, 2) then {WriteOnly} else {})
    + (if HasBit(ps2, 0x100) then {Append} else {})
    + (if HasBit(ps2, 0x200) then {Create} else {})
    + (if HasBit(ps2, 0x400) then {Truncate} else {})
  }

  /** The names PACKET_OPEN tries, in order. */
  function Candidates(path: string, dirs: seq<string>): seq<string> {
    [path] + seq(|dirs|, i requires 0 <= i < |dirs| => dirs[i] + "/" + path)
  }

  /** rv is the result of the first attempt that succeeds, or -1 if none does. */
  ghost predicate FirstSuccess(open: string -> int, names: seq<string>, rv: int) {
    || (rv == -1 && forall i :: 0 <= i < |names| ==> open(names[i]) == -1)
    || (rv != -1 && exists i :: 0 <= i < |names| && open(names[i]) == rv
                                && forall j :: 0 <= j < i ==> open(names[j]) == -1)
  }

  function TryAll(open: string -> int, names: seq<string>): (rv: int)
    ensures FirstSuccess(open, names, rv)
  {
    if names == [] then -1
    else if open(names[0]) != -1 then open(names[0])
    else
      var rv := TryAll(open, names[1..]);
      assert rv != -1 ==> forall i :: 0 <= i < |names[1..]| ==> names[1..][i] == names[i + 1];
      rv
  }

  /** Opening a name on the host with these flags. */
  function Opener(os: Os, flags: set<OpenFlag>): string -> int {
    name => os.open(name, flags)
  }

  lemma FirstSuccessUnique(open: string -> int, names: seq<string>, a: int, b: int)
    requires FirstSuccess(open, names, a) && FirstSuccess(open, names, b)
    ensures a == b
  {
  }

  // ---- Specification of one dispatch ----

  datatype Engine = Engine(
    command: u32,                    // commandWaiting
    buffer: Option<seq<byte>>,       // commandBuffer, without its terminating NUL
    benchmarking: bool,
    counter: u32,
    processing: bool,
    paths: List)

  datatype Outcome = Outcome(
    engine: Engine,
    inbox: seq<Arrival>,
    events: seq<Event>,
    result: Option<u32>)             // type of the packet processed; None if the call blocks

  predicate FileRequest(kind: u32) {
    kind == PACKET_OPEN || kind == PACKET_CLOSE || kind == PACKET_READ || kind == PACKET_WRITE || kind == PACKET_LSEEK
  }

  function OpenResult(e: Engine, b: seq<byte>, os: Os): int {
    var path := CStringAt(b, 4);
    if path == TTY then 1
    else TryAll(Opener(os, HostFlags(FieldAt(b, 0))), Candidates(path, ToSeq(e.paths)))
  }

  function ReadReply(e: Engine, b: seq<byte>, os: Os): Packet {
    var fd, count := FieldAt(b, 0), FieldAt(b, 4);
    if e.benchmarking then
      ReturnPacket(count, seq<byte>(if count < 0 then 0 else count, i requires i >= 0 => os.heap(i)), count)
    else
      match os.read(fd, count)
      case ReadError => ReturnPacket(-1, [], -1)
      case ReadBytes(data) => ReturnPacket(|data|, data, |data|)
  }

  /** The RETURN a file request is answered with. */
  function FileReply(e: Engine, p: Packet, os: Os): Packet
    requires FileRequest(p.kind)
  {
    var b := p.body;
    if p.kind == PACKET_OPEN then ReturnPacket(OpenResult(e, b, os), [], 0)
    else if p.kind == PACKET_CLOSE then
      ReturnPacket(if FieldAt(b, 0) <= 2 then 0 else os.close(FieldAt(b, 0)), [], 0)
    else if p.kind == PACKET_READ then ReadReply(e, b, os)
    else if p.kind == PACKET_WRITE then
      ReturnPacket(
        if e.benchmarking then FieldAt(b, 4) else os.write(FieldAt(b, 0), BytesAt(b, 8, FieldAt(b, 4))), [], 0)
    else
      ReturnPacket(os.lseek(FieldAt(b, 0), FieldAt(b, 4), FieldAt(b, 8)), [], 0)
  }

  function AfterFile(e: Engine, kind: u32): Engine {
    e.(counter := 0,
       processing := if kind == PACKET_OPEN then true else if kind == PACKET_CLOSE then false else e.processing)
  }

  /** An idle poll counts unless a file transfer is in progress. */
  function Polled(e: Engine): Engine {
    if e.processing then e else e.(counter := (e.counter + 1) % 0x1_0000_0000)
  }

  predicate BareCommand(kind: u32) {
    kind == PACKET_RESET || kind == PACKET_QUIT || kind == PACKET_BENCHMARK
  }

  predicate ExecCommand(kind: u32) {
    kind == PACKET_EXECPS2 || kind == PACKET_EXECIOP
  }

  /** The single packet that goes out on a WAZZUP, if any. */
  function PollReply(e: Engine): Option<Packet> {
    if e.command == 0 then Some(ReturnPacket(0, [], 0))
    else if BareCommand(e.command) then Some(Packet(e.command, []))
    else if ExecCommand(e.command) && e.buffer.Some? then
      Some(Packet(e.command, e.buffer.value + [0]))
    else None
  }

  /** recv_and_process_packet. */
  function Process(e: Engine, inbox: seq<Arrival>): (o: Outcome)
    ensures |o.inbox| + (if o.result.Some? then 1 else 0) <= |inbox|
    decreases |inbox|, 0
  {
    if inbox == [] then Outcome(e, inbox, [], None)
    else
      var p, os, rest := inbox[0].packet, inbox[0].os, inbox[1..];
      if FileRequest(p.kind) then
        Outcome(AfterFile(e, p.kind), rest, [Got(p), Sent(FileReply(e, p, os))], Some(p.kind))
      else if p.kind == PACKET_WAZZUP then
        var o := AnswerPoll(Polled(e), rest);
        o.(events := [Got(p)] + o.events, result := if o.result.None? then None else Some(p.kind))
      else Outcome(e, rest, [Got(p)], Some(p.kind))
  }

  /** The reply to a WAZZUP, up to and including the peer's RETURN for a command. */
  function AnswerPoll(e: Engine, inbox: seq<Arrival>): (o: Outcome)
    ensures |o.inbox| <= |inbox|
    decreases |inbox|, 2
  {
    var reply, free := PollReply(e), e.(command := 0);
    if reply.None? then Outcome(free, inbox, [], Some(0))
    else if e.command == 0 then Outcome(free, inbox, [Sent(reply.value)], Some(0))
    else if e.command == PACKET_BENCHMARK then
      var o := Benchmark(e.(benchmarking := true), inbox);
      o.(engine := if o.result.None? then o.engine else o.engine.(benchmarking := false, command := 0),
         events := [Sent(reply.value)] + o.events)
    else if inbox == [] then Outcome(e, inbox, [Sent(reply.value)], None)
    else Outcome(free, inbox[1..], [Sent(reply.value), Got(inbox[0].packet)], Some(0))
  }

  /** The loop of do_benchmark: process packets until one of them is a RETURN. */
  function Benchmark(e: Engine, inbox: seq<Arrival>): (o: Outcome)
    ensures |o.inbox| <= |inbox|
    decreases |inbox|, 1
  {
    var o := Process(e, inbox);
    if o.result.None? || o.result.value == PACKET_RETURN then o
    else
      var next := Benchmark(o.engine, o.inbox);
      next.(events := o.events + next.events)
  }

  lemma BenchmarkUnfold(e: Engine, inbox: seq<Arrival>)
    ensures var o, b := Process(e, inbox), Benchmark(e, inbox);
            if o.result.None? || o.result.value == PACKET_RETURN then b == o
            else
              var next := Benchmark(o.engine, o.inbox);
              b.engine == next.engine && b.inbox == next.inbox && b.result == next.result
              && b.events == o.events + next.events
  {
  }

  // ---- The engine itself ----

  class Link {
    var commandWaiting: u32
    var commandBuffer: Option<seq<byte>>
    var benchmarking: bool
    var counter: u32
    var processing: bool
    var pathList: List
    var inbox: seq<Arrival>          // packets the peer has yet to deliver
    var trace: seq<Event>            // packets received and sent so far

    ghost function View(): Engine
      reads this
    {
      Engine(commandWaiting, commandBuffer, benchmarking, counter, processing, pathList)
    }

    /** This state follows from having had engine state e, queue q and trace t by the outcome o. */
    ghost predicate Reached(o: Outcome, t: seq<Event>)
      reads this
    {
      View() == o.engine && inbox == o.inbox && trace == t + o.events
    }

    constructor (pending: seq<Arrival>)
      ensures View() == Engine(0, None, false, 0, false, Nil) && inbox == pending && trace == []
    {
      commandWaiting, commandBuffer, benchmarking := 0, None, false;
      counter, processing, pathList := 0, false, Nil;
      inbox, trace := pending, [];
    }

    method SetCommand(c: u32)
      modifies this`commandWaiting
      ensures View() == old(View()).(command := c)
    {
      commandWaiting := c;
    }

    method SetCmdbuf(cmd: seq<byte>)
      modifies this`commandBuffer
      ensures View() == old(View()).(buffer := Some(cmd))
    {
      commandBuffer := Some(cmd);
    }

    method SetCounter(n: u32)
      modifies this`counter
      ensures View() == old(View()).(counter := n)
    {
      counter := n;
    }

    method SetProcessing(on: bool)
      modifies this`processing
      ensures View() == old(View()).(processing := on)
    {
      processing := on;
    }

    method SetPath(l: List)
      modifies this`pathList
      ensures View() == old(View()).(paths := l)
    {
      pathList := l;
    }

    method RecvPacket() returns (r: Option<Arrival>)
      modifies this`inbox, this`trace
      ensures old(inbox) == [] ==> r.None? && inbox == [] && trace == old(trace)
      ensures old(inbox) != [] ==>
                && r == Some(old(inbox)[0]) && inbox == old(inbox)[1..]
                && trace == old(trace) + [Got(old(inbox)[0].packet)]
    {
      if inbox == [] {
        return None;
      }
      r := Some(inbox[0]);
      trace := trace + [Got(inbox[0].packet)];
      inbox := inbox[1..];
    }

    method SendPacket(p: Packet)
      modifies this`trace
      ensures trace == old(trace) + [Sent(p)]
    {
      trace := trace + [Sent(p)];
    }

    method DoReturn(rv: int, data: seq<byte>, count: int)
      requires count <= |data|
      modifies this`trace
      ensures trace == old(trace) + [Sent(ReturnPacket(rv, data, count))]
    {
      var n := count;
      if n < 0 {
        n := 0;
      }
      SendPacket(Packet(PACKET_RETURN, PutLE32(ToU32(rv)) + data[..n]));
    }

    method GetReturn() returns (rv: Option<int>)
      modifies this`inbox, this`trace
      ensures old(inbox) == [] ==> rv.None? && inbox == [] && trace == old(trace)
      ensures old(inbox) != [] ==>
                && rv == Some(ReturnValue(old(inbox)[0].packet)) && inbox == old(inbox)[1..]
                && trace == old(trace) + [Got(old(inbox)[0].packet)]
    {
      var r := RecvPacket();
      if r.None? {
        return None;
      }
      if r.value.packet.kind != PACKET_RETURN {
        return Some(-1);
      }
      rv := Some(FieldAt(r.value.packet.body, 0));
    }

    /** do_reset, do_quit, and do_execps2 / do_execiop with a buffer: send, then wait for the RETURN. */
    method DoCommand(p: Packet) returns (rv: Option<int>)
      modifies this`inbox, this`trace
      ensures old(inbox) == [] ==> rv.None? && inbox == [] && trace == old(trace) + [Sent(p)]
      ensures old(inbox) != [] ==>
                && rv == Some(ReturnValue(old(inbox)[0].packet)) && inbox == old(inbox)[1..]
                && trace == old(trace) + [Sent(p), Got(old(inbox)[0].packet)]
    {
      SendPacket(p);
      rv := GetReturn();
    }

    method DoExec(kind: u32, filename: Option<seq<byte>>) returns (rv: Option<int>)
      modifies this`inbox, this`trace
      ensures filename.None? ==> rv == Some(-1) && inbox == old(inbox) && trace == old(trace)
      ensures filename.Some? && old(inbox) == [] ==>
                rv.None? && inbox == [] && trace == old(trace) + [Sent(Packet(kind, filename.value + [0]))]
      ensures filename.Some? && old(inbox) != [] ==>
                && rv == Some(ReturnValue(old(inbox)[0].packet)) && inbox == old(inbox)[1..]
                && trace == old(trace) + [Sent(Packet(kind, filename.value + [0])), Got(old(inbox)[0].packet)]
    {
      if filename.Some? {
        rv := DoCommand(Packet(kind, filename.value + [0]));
      } else {
        rv := Some(-1);
      }
    }

    /** The loop of PACKET_OPEN over the directories of the list. */
    method SearchPaths(path: string, flags: set<OpenFlag>, os: Os) returns (rv: int)
      ensures rv == TryAll(Opener(os, flags), Candidates(path, ToSeq(pathList))[1..])
    {
      ghost var open := Opener(os, flags);
      ghost var names := Candidates(path, ToSeq(pathList))[1..];
      rv := -1;
      var l := pathList;
      ghost var i := 0;
      while l.Cons?
        invariant 0 <= i <= |names|
        invariant ToSeq(l) == ToSeq(pathList)[i..]
        invariant rv == -1
        invariant forall j :: 0 <= j < i ==> open(names[j]) == -1
        decreases l
      {
        assert names[i] == l.dir + "/" + path;
        rv := os.open(l.dir + "/" + path, flags);
        assert open(names[i]) == rv;
        if rv != -1 {
          break;
        }
        l := l.next;
        i := i + 1;
      }
      assert FirstSuccess(open, names, rv);
      FirstSuccessUnique(open, names, rv, TryAll(open, names));
    }

    /** PACKET_OPEN: the bare name first, then each directory of the list. */
    method Open(b: seq<byte>, os: Os) returns (rv: int)
      ensures rv == OpenResult(View(), b, os)
    {
      var path := CStringAt(b, 4);
      if path == TTY {
        return 1;
      }
      var flags := HostFlags(FieldAt(b, 0));
      rv := os.open(path, flags);
      if rv == -1 {
        rv := SearchPaths(path, flags, os);
      }
    }

    method DoBenchmark() returns (blocked: bool)
      modifies this
      ensures var o := Benchmark(old(View()).(benchmarking := true), old(inbox));
              && blocked == o.result.None?
              && Reached(o.(engine := if blocked then o.engine else o.engine.(benchmarking := false)),
                         old(trace) + [Sent(Packet(PACKET_BENCHMARK, []))])
      decreases |inbox|, 2
    {
      SendPacket(Packet(PACKET_BENCHMARK, []));
      benchmarking := true;
      ghost var goal, t := Benchmark(View(), inbox), trace;
      var i: u32 := 0;
      ghost var rest := goal;
      while i != PACKET_RETURN
        invariant |inbox| <= |old(inbox)|
        invariant i != PACKET_RETURN ==> rest == Benchmark(View(), inbox)
        invariant i == PACKET_RETURN ==> rest == Outcome(View(), inbox, [], goal.result) && goal.result.Some?
        invariant goal.engine == rest.engine && goal.inbox == rest.inbox && goal.result == rest.result
        invariant trace + rest.events == t + goal.events
        decreases |inbox| + if i != PACKET_RETURN then 1 else 0
      {
        ghost var o, before := Process(View(), inbox), trace;
        BenchmarkUnfold(View(), inbox);
        var r := RecvAndProcessPacket();
        if r.None? {
          return true;
        }
        i := r.value;
        rest := if i == PACKET_RETURN then Outcome(View(), inbox, [], goal.result) else Benchmark(View(), inbox);
        assert before + (o.events + rest.events) == (before + o.events) + rest.events;
      }
      benchmarking := false;
      blocked := false;
    }

    method Read(b: seq<byte>, os: Os)
      modifies this`trace
      ensures trace == old(trace) + [Sent(ReadReply(View(), b, os))]
    {
      var fd, count := FieldAt(b, 0), FieldAt(b, 4);
      if !benchmarking {
        match os.read(fd, count) {
          case ReadError => DoReturn(-1, [], -1);
          case ReadBytes(data) => DoReturn(|data|, data, |data|);
        }
      } else {
        DoReturn(count, seq<byte>(if count < 0 then 0 else count, i requires i >= 0 => os.heap(i)), count);
      }
    }

    /** The five file requests of the dispatch. */
    method ServeFile(packet: Packet, os: Os)
      requires FileRequest(packet.kind)
      modifies this`counter, this`processing, this`trace
      ensures View() == AfterFile(old(View()), packet.kind)
      ensures trace == old(trace) + [Sent(FileReply(old(View()), packet, os))]
    {
      var b := packet.body;
      SetCounter(0);
      if packet.kind == PACKET_OPEN {
        processing := true;
        var rv := Open(b, os);
        DoReturn(rv, [], 0);
      } else if packet.kind == PACKET_CLOSE {
        processing := false;
        var rv := 0;
        if FieldAt(b, 0) > 2 {
          rv := os.close(FieldAt(b, 0));
        }
        DoReturn(rv, [], 0);
      } else if packet.kind == PACKET_READ {
        Read(b, os);
      } else if packet.kind == PACKET_WRITE {
        var rv := FieldAt(b, 4);
        if !benchmarking {
          rv := os.write(FieldAt(b, 0), BytesAt(b, 8, rv));
        }
        DoReturn(rv, [], 0);
      } else {
        DoReturn(os.lseek(FieldAt(b, 0), FieldAt(b, 4), FieldAt(b, 8)), [], 0);
      }
    }

    method RecvAndProcessPacket() returns (kind: Option<u32>)
      modifies this
      ensures var o := Process(old(View()), old(inbox));
              Reached(o, old(trace)) && kind == o.result
      decreases |inbox|, 0
    {
      var r := RecvPacket();
      if r.None? {
        return None;
      }
      var packet := r.value.packet;
      if FileRequest(packet.kind) {
        ServeFile(packet, r.value.os);
      } else if packet.kind == PACKET_WAZZUP {
        var blocked := Wazzup();
        if blocked {
          return None;
        }
      }
      kind := Some(packet.kind);
    }

    method Wazzup() returns (blocked: bool)
      modifies this
      ensures var o := AnswerPoll(Polled(old(View())), old(inbox));
              Reached(o, old(trace)) && blocked == o.result.None?
      decreases |inbox|, 4
    {
      if !processing {
        counter := (counter + 1) % 0x1_0000_0000;
      }
      assert View() == Polled(old(View()));
      blocked := Answer();
      if !blocked {
        commandWaiting := 0;
      }
    }

    /** The switch on commandWaiting. */
    method Answer() returns (blocked: bool)
      modifies this
      ensures var o := AnswerPoll(old(View()), old(inbox));
              && Reached(o.(engine := if blocked then o.engine else o.engine.(command := commandWaiting)), old(trace))
              && blocked == o.result.None?
      decreases |inbox|, 3
    {
      blocked := false;
      if commandWaiting == 0 {
        DoReturn(0, [], 0);
      } else if commandWaiting == PACKET_RESET {
        var rv := DoCommand(Packet(PACKET_RESET, []));
        blocked := rv.None?;
      } else if commandWaiting == PACKET_EXECPS2 {
        var rv := DoExec(PACKET_EXECPS2, commandBuffer);
        blocked := rv.None?;
      } else if commandWaiting == PACKET_EXECIOP {
        var rv := DoExec(PACKET_EXECIOP, commandBuffer);
        blocked := rv.None?;
      } else if commandWaiting == PACKET_QUIT {
        var rv := DoCommand(Packet(PACKET_QUIT, []));
        blocked := rv.None?;
      } else if commandWaiting == PACKET_BENCHMARK {
        blocked := DoBenchmark();
      }
    }
  }
}
