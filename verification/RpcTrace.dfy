/**
 What the packets of a NapLink session look like (naplink.c), for every peer and every sequence
 of user commands. The legal sessions are given twice, as a grammar of exchanges and as an
 automaton over single packets that also says which side breaks the protocol.
*/
module RpcTrace {
  import opened Bytes
  import opened Lists
  import opened Wire
  import opened Naplink

  // ---- The grammar ----

  datatype Exchange =
    | FileOp(request: Packet, reply: Packet)
    | Idle(wazzup: Packet, reply: Packet)
    | Command(wazzup: Packet, cmd: Packet, answer: Packet)
    | Bench(wazzup: Packet, cmd: Packet, ops: seq<(Packet, Packet)>, answer: Packet)

  predicate IsCommandKind(kind: u32) {
    BareCommand(kind) || ExecCommand(kind)
  }

  predicate IsFileOp(request: Packet, reply: Packet) {
    FileRequest(request.kind) && reply.kind == PACKET_RETURN
  }

  predicate WellFormed(x: Exchange) {
    match x
    case FileOp(req, reply) => IsFileOp(req, reply)
    case Idle(w, reply) => w.kind == PACKET_WAZZUP && reply.kind == PACKET_RETURN
    case Command(w, cmd, answer) =>
      w.kind == PACKET_WAZZUP && IsCommandKind(cmd.kind) && cmd.kind != PACKET_BENCHMARK && answer.kind == PACKET_RETURN
    case Bench(w, cmd, ops, answer) =>
      && w.kind == PACKET_WAZZUP && cmd.kind == PACKET_BENCHMARK && answer.kind == PACKET_RETURN
      && forall i :: 0 <= i < |ops| ==> IsFileOp(ops[i].0, ops[i].1)
  }

  function ExpandOps(ops: seq<(Packet, Packet)>): seq<Event> {
    if ops == [] then [] else [Got(ops[0].0), Sent(ops[0].1)] + ExpandOps(ops[1..])
  }

  function Expand(x: Exchange): seq<Event> {
    match x
    case FileOp(req, reply) => [Got(req), Sent(reply)]
    case Idle(w, reply) => [Got(w), Sent(reply)]
    case Command(w, cmd, answer) => [Got(w), Sent(cmd), Got(answer)]
    case Bench(w, cmd, ops, answer) => [Got(w), Sent(cmd)] + ExpandOps(ops) + [Got(answer)]
  }

  function ExpandAll(xs: seq<Exchange>): seq<Event> {
    if xs == [] then [] else Expand(xs[0]) + ExpandAll(xs[1..])
  }

  ghost predicate Session(t: seq<Event>) {
    exists xs: seq<Exchange> :: (forall i :: 0 <= i < |xs| ==> WellFormed(xs[i])) && ExpandAll(xs) == t
  }

  // ---- The automaton ----

  datatype Phase =
    | Ready         // between exchanges
    | Owing         // a file request waits for its RETURN
    | Asked         // a WAZZUP waits for a RETURN or a command
    | Awaiting      // a command waits for the peer's RETURN
    | Benching      // inside a benchmark, between its file operations
    | BenchOwing    // a file request of the benchmark waits for its RETURN
    | PeerFault     // the peer sent something out of turn
    | HostFault     // the host sent something out of turn

  function Next(ph: Phase, ev: Event): Phase {
    if ph.PeerFault? || ph.HostFault? then ph
    else
      match ev
      case Got(p) =>
        if ph.Ready? && FileRequest(p.kind) then Owing
        else if ph.Ready? && p.kind == PACKET_WAZZUP then Asked
        else if ph.Awaiting? && p.kind == PACKET_RETURN then Ready
        else if ph.Benching? && FileRequest(p.kind) then BenchOwing
        else if ph.Benching? && p.kind == PACKET_RETURN then Ready
        else if ph.Owing? || ph.Asked? || ph.BenchOwing? then HostFault   // took a packet before answering
        else PeerFault
      case Sent(p) =>
        if (ph.Owing? || ph.Asked?) && p.kind == PACKET_RETURN then Ready
        else if ph.BenchOwing? && p.kind == PACKET_RETURN then Benching
        else if ph.Asked? && p.kind == PACKET_BENCHMARK then Benching
        else if ph.Asked? && IsCommandKind(p.kind) then Awaiting
        else HostFault
  }

  function Phases(ph: Phase, t: seq<Event>): Phase
    decreases |t|
  {
    if t == [] then ph else Phases(Next(ph, t[0]), t[1..])
  }

  lemma {:induction false} Phases1(ph: Phase, a: Event)
    ensures Phases(ph, [a]) == Next(ph, a)
  {
  }

  lemma {:induction false} Phases2(ph: Phase, a: Event, b: Event)
    ensures Phases(ph, [a, b]) == Next(Next(ph, a), b)
  {
    assert [a, b][1..] == [b];
    Phases1(Next(ph, a), b);
  }

  lemma {:induction false} PhasesConcat(ph: Phase, a: seq<Event>, b: seq<Event>)
    ensures Phases(ph, a + b) == Phases(Phases(ph, a), b)
    decreases |a|
  {
    if a == [] {
      assert a + b == b;
    } else {
      assert (a + b)[1..] == a[1..] + b;
      PhasesConcat(Next(ph, a[0]), a[1..], b);
    }
  }

  lemma {:induction false} FaultsStay(ph: Phase, t: seq<Event>)
    requires ph.PeerFault? || ph.HostFault?
    ensures Phases(ph, t) == ph
    decreases |t|
  {
    if t != [] {
      FaultsStay(ph, t[1..]);
    }
  }

  // ---- The two descriptions agree ----

  lemma {:induction false} OpsPhases(ops: seq<(Packet, Packet)>)
    requires forall i :: 0 <= i < |ops| ==> IsFileOp(ops[i].0, ops[i].1)
    ensures Phases(Benching, ExpandOps(ops)) == Benching
  {
    if ops != [] {
      var first := [Got(ops[0].0), Sent(ops[0].1)];
      Phases2(Benching, first[0], first[1]);
      PhasesConcat(Benching, first, ExpandOps(ops[1..]));
      OpsPhases(ops[1..]);
    }
  }

  lemma ExchangePhases(x: Exchange)
    requires WellFormed(x)
    ensures Phases(Ready, Expand(x)) == Ready
  {
    match x
    case FileOp(req, reply) => Phases2(Ready, Got(req), Sent(reply));
    case Idle(w, reply) => Phases2(Ready, Got(w), Sent(reply));
    case Command(w, cmd, answer) =>
      assert Expand(x) == [Got(w), Sent(cmd)] + [Got(answer)];
      PhasesConcat(Ready, [Got(w), Sent(cmd)], [Got(answer)]);
      Phases2(Ready, Got(w), Sent(cmd));
    case Bench(w, cmd, ops, answer) =>
      var head := [Got(w), Sent(cmd)];
      Phases2(Ready, Got(w), Sent(cmd));
      PhasesConcat(Ready, head, ExpandOps(ops));
      PhasesConcat(Ready, head + ExpandOps(ops), [Got(answer)]);
      OpsPhases(ops);
  }

  lemma {:induction false} SessionsAccepted(xs: seq<Exchange>)
    requires forall i :: 0 <= i < |xs| ==> WellFormed(xs[i])
    ensures Phases(Ready, ExpandAll(xs)) == Ready
  {
    if xs != [] {
      ExchangePhases(xs[0]);
      PhasesConcat(Ready, Expand(xs[0]), ExpandAll(xs[1..]));
      SessionsAccepted(xs[1..]);
    }
  }

  /** Splits off the file operations of a benchmark, up to the peer's RETURN. */
  lemma {:induction false} ParseOps(t: seq<Event>) returns (ops: seq<(Packet, Packet)>, answer: Packet, rest: seq<Event>)
    requires Phases(Benching, t) == Ready
    ensures forall i :: 0 <= i < |ops| ==> IsFileOp(ops[i].0, ops[i].1)
    ensures answer.kind == PACKET_RETURN
    ensures t == ExpandOps(ops) + [Got(answer)] + rest
    ensures Phases(Ready, rest) == Ready
    decreases |t|
  {
    var ph := Next(Benching, t[0]);
    if ph.PeerFault? || ph.HostFault? {
      FaultsStay(ph, t[1..]);
    }
    if ph.Ready? {
      ops, answer, rest := [], t[0].p, t[1..];
    } else {
      var ph2 := Next(ph, t[1]);
      if ph2.HostFault? {
        FaultsStay(ph2, t[1..][1..]);
      }
      assert t[1..][1..] == t[2..];
      var tail;
      tail, answer, rest := ParseOps(t[2..]);
      ops := [(t[0].p, t[1].p)] + tail;
      assert t == [t[0], t[1]] + t[2..];
      assert ops[1..] == tail;
    }
  }

  /** The first exchange of an accepted trace. */
  lemma {:induction false} ParseOne(t: seq<Event>) returns (x: Exchange, rest: seq<Event>)
    requires t != [] && Phases(Ready, t) == Ready
    ensures WellFormed(x) && t == Expand(x) + rest && |rest| < |t|
    ensures Phases(Ready, rest) == Ready
  {
    var ph := Next(Ready, t[0]);
    if ph.PeerFault? || ph.HostFault? {
      FaultsStay(ph, t[1..]);
    }
    var ph2 := Next(ph, t[1]);
    assert t[1..][1..] == t[2..];
    if ph2.HostFault? {
      FaultsStay(ph2, t[2..]);
    }
    assert t == [t[0], t[1]] + t[2..];
    if ph2.Ready? {
      x := if ph.Owing? then FileOp(t[0].p, t[1].p) else Idle(t[0].p, t[1].p);
      rest := t[2..];
    } else if ph2.Awaiting? {
      assert Phases(Awaiting, t[2..]) == Ready;
      rest := t[3..];
      assert t[2..][0] == t[2] && t[2..][1..] == rest;
      var ph3 := Next(ph2, t[2]);
      if ph3.PeerFault? || ph3.HostFault? {
        FaultsStay(ph3, rest);
      }
      x := Command(t[0].p, t[1].p, t[2].p);
    } else {
      var ops, answer;
      ops, answer, rest := ParseOps(t[2..]);
      x := Bench(t[0].p, t[1].p, ops, answer);
    }
  }

  lemma {:induction false} Parse(t: seq<Event>) returns (xs: seq<Exchange>)
    requires Phases(Ready, t) == Ready
    ensures forall i :: 0 <= i < |xs| ==> WellFormed(xs[i])
    ensures ExpandAll(xs) == t
    decreases |t|
  {
    if t == [] {
      xs := [];
    } else {
      var x, rest := ParseOne(t);
      var tail := Parse(rest);
      xs := [x] + tail;
      assert xs[1..] == tail;
    }
  }

  /** The automaton returns to Ready exactly on the sequences of well-formed exchanges. */
  lemma GrammarIsAutomaton(t: seq<Event>)
    ensures Session(t) <==> Phases(Ready, t) == Ready
  {
    if Phases(Ready, t) == Ready {
      var xs := Parse(t);
    }
    if Session(t) {
      var xs :| (forall i :: 0 <= i < |xs| ==> WellFormed(xs[i])) && ExpandAll(xs) == t;
      SessionsAccepted(xs);
    }
  }

  // ---- One dispatch, whatever the peer does ----

  /** The command slot holds something the engine can send. */
  predicate HostOk(e: Engine) {
    && (e.command == 0 || IsCommandKind(e.command))
    && (ExecCommand(e.command) ==> e.buffer.Some?)
  }

  predicate IsCommand(ev: Event) {
    ev.Sent? && IsCommandKind(ev.p.kind)
  }

  ghost predicate AnyCommand(t: seq<Event>, from: nat) {
    exists i :: from <= i < |t| && IsCommand(t[i])
  }

  /** The packet a full slot stands for. */
  function StoredPacket(e: Engine): Packet
    requires HostOk(e) && e.command != 0
  {
    PollReply(e).value
  }

  /** Event i is the host's reply to a WAZZUP. */
  predicate PollAnswered(t: seq<Event>, i: nat) {
    1 <= i < |t| && t[i].Sent? && t[i - 1].Got? && t[i - 1].p.kind == PACKET_WAZZUP
  }

  ghost predicate AnyPoll(t: seq<Event>, from: nat) {
    exists i :: from <= i && PollAnswered(t, i)
  }

  /** A WAZZUP is answered in the middle of a dispatch, which only the loop of do_benchmark does. */
  ghost predicate Nested(t: seq<Event>) {
    AnyPoll(t, 2)
  }

  /** If event i is sent, it answers the packet received just before it: a file request by a RETURN, a
      WAZZUP by a RETURN or a command. */
  predicate Answers(t: seq<Event>, i: nat)
    requires i < |t|
  {
    t[i].Sent? ==>
      && i > 0 && t[i - 1].Got?
      && if FileRequest(t[i - 1].p.kind) then t[i].p.kind == PACKET_RETURN
         else t[i - 1].p.kind == PACKET_WAZZUP && (t[i].p.kind == PACKET_RETURN || IsCommandKind(t[i].p.kind))
  }

  ghost predicate OnlyAnswers(t: seq<Event>) {
    forall i :: 0 <= i < |t| ==> Answers(t, i)
  }

  lemma AnswersConcat(a: seq<Event>, b: seq<Event>)
    requires OnlyAnswers(a) && OnlyAnswers(b)
    ensures OnlyAnswers(a + b)
  {
    var t := a + b;
    forall i | 0 <= i < |t| ensures Answers(t, i) {
      if i < |a| {
        assert Answers(a, i);
      } else {
        assert Answers(b, i - |a|);
      }
    }
  }

  /** What a dispatch leaves alone, and that it sends nothing but answers. */
  ghost predicate Proper(e: Engine, o: Outcome) {
    && OnlyAnswers(o.events)
    && o.engine.buffer == e.buffer && (o.engine.command == e.command || o.engine.command == 0)
  }

  /** For every peer, all the host sends is answers. */
  lemma {:induction false} DispatchAnswers(e: Engine, inbox: seq<Arrival>)
    ensures Proper(e, Process(e, inbox))
    decreases |inbox|, 0
  {
    if inbox != [] && inbox[0].packet.kind == PACKET_WAZZUP {
      if e.command == PACKET_BENCHMARK {
        var e1 := Polled(e).(benchmarking := true);
        BenchShape(e, inbox);
        BenchmarkAnswers(e1, inbox[1..]);
        AnswersConcat([Got(inbox[0].packet), Sent(Packet(PACKET_BENCHMARK, []))], Benchmark(e1, inbox[1..]).events);
      } else {
        PlainPoll(e, inbox);
      }
    }
  }

  lemma {:induction false} BenchmarkAnswers(e: Engine, inbox: seq<Arrival>)
    ensures Proper(e, Benchmark(e, inbox))
    decreases |inbox|, 1
  {
    var o := Process(e, inbox);
    BenchmarkUnfold(e, inbox);
    DispatchAnswers(e, inbox);
    if o.result.Some? && o.result.value != PACKET_RETURN {
      BenchmarkAnswers(o.engine, o.inbox);
      AnswersConcat(o.events, Benchmark(o.engine, o.inbox).events);
    }
  }

  /** A dispatched WAZZUP with anything but BENCHMARK in the slot. */
  lemma {:induction false} PlainPoll(e: Engine, inbox: seq<Arrival>)
    requires e.command != PACKET_BENCHMARK
    requires inbox != [] && inbox[0].packet.kind == PACKET_WAZZUP
    ensures var o, got, reply := Process(e, inbox), [Got(inbox[0].packet)], PollReply(e);
            && o.events == (if reply.None? then got
                            else if e.command == 0 || |inbox| == 1 then got + [Sent(reply.value)]
                            else got + [Sent(reply.value), Got(inbox[1].packet)])
            && o.engine.buffer == e.buffer && o.engine.counter == Polled(e).counter
            && (o.engine.command == 0 || (o.result.None? && o.engine.command == e.command))
  {
    var o, a := Process(e, inbox), AnswerPoll(Polled(e), inbox[1..]);
    assert o.events == [Got(inbox[0].packet)] + a.events;
    assert PollReply(Polled(e)) == PollReply(e);
  }

  /** A dispatched benchmark: WAZZUP, the BENCHMARK packet, and the loop. */
  lemma {:induction false} BenchShape(e: Engine, inbox: seq<Arrival>)
    requires inbox != [] && inbox[0].packet.kind == PACKET_WAZZUP && e.command == PACKET_BENCHMARK
    ensures var o := Process(e, inbox);
            var b := Benchmark(Polled(e).(benchmarking := true), inbox[1..]);
            && o.events == [Got(inbox[0].packet), Sent(Packet(PACKET_BENCHMARK, []))] + b.events
            && o.engine.counter == b.engine.counter && o.engine.buffer == b.engine.buffer
            && o.inbox == b.inbox && o.result == (if b.result.None? then None else Some(PACKET_WAZZUP))
            && o.engine.command == (if o.result.Some? then 0 else b.engine.command)
            && o.engine.processing == b.engine.processing
  {
    var o, a := Process(e, inbox), AnswerPoll(Polled(e), inbox[1..]);
    var b := Benchmark(Polled(e).(benchmarking := true), inbox[1..]);
    var head := [Got(inbox[0].packet), Sent(Packet(PACKET_BENCHMARK, []))];
    assert PollReply(Polled(e)) == Some(head[1].p);
    assert o.events == [head[0]] + a.events && a.events == [head[1]] + b.events;
    assert o.events == head + b.events;
  }

  // ---- Polls and commands ----

  lemma PollsConcat(a: seq<Event>, b: seq<Event>)
    requires OnlyAnswers(b)
    ensures AnyPoll(a + b, 1) <==> AnyPoll(a, 1) || AnyPoll(b, 1)
    ensures AnyCommand(a + b, 0) <==> AnyCommand(a, 0) || AnyCommand(b, 0)
  {
    var t := a + b;
    forall i | 0 <= i < |b| ensures PollAnswered(t, |a| + i) <==> PollAnswered(b, i) {
      assert Answers(b, i);
    }
    forall i | 0 <= i < |a| ensures PollAnswered(t, i) <==> PollAnswered(a, i) {
    }
    if AnyPoll(t, 1) {
      var i :| 1 <= i && PollAnswered(t, i);
      assert if i < |a| then PollAnswered(a, i) else PollAnswered(b, i - |a|);
    }
    if AnyPoll(b, 1) {
      var i :| 1 <= i && PollAnswered(b, i);
      assert PollAnswered(t, |a| + i);
    }
    if AnyCommand(t, 0) {
      var i :| 0 <= i < |t| && IsCommand(t[i]);
      assert if i < |a| then IsCommand(a[i]) else IsCommand(b[i - |a|]);
    }
    if AnyCommand(a, 0) {
      var i :| 0 <= i < |a| && IsCommand(a[i]);
      assert IsCommand(t[i]);
    }
    if AnyCommand(b, 0) {
      var i :| 0 <= i < |b| && IsCommand(b[i]);
      assert IsCommand(t[|a| + i]);
    }
  }

  /** While BENCHMARK is in the slot, the loop of do_benchmark sends a command exactly if it answers a
      WAZZUP; if it answers none, the slot and the idle counter stay as they are or the counter is reset. */
  lemma {:induction false} BenchmarkPolls(e: Engine, inbox: seq<Arrival>)
    requires e.command == PACKET_BENCHMARK
    ensures var b := Benchmark(e, inbox);
            && (AnyPoll(b.events, 1) <==> AnyCommand(b.events, 0))
            && (!AnyPoll(b.events, 1) ==> b.engine.command == PACKET_BENCHMARK && b.engine.counter <= e.counter)
    decreases |inbox|
  {
    BenchmarkUnfold(e, inbox);
    var b := Benchmark(e, inbox);
    if inbox != [] {
      var p, o := inbox[0].packet, Process(e, inbox);
      if p.kind == PACKET_WAZZUP {
        BenchShape(e, inbox);
        assert PollAnswered(b.events, 1) && IsCommand(b.events[1]);
      } else if p.kind != PACKET_RETURN {
        BenchmarkPolls(o.engine, o.inbox);
        BenchmarkAnswers(o.engine, o.inbox);
        PollsConcat(o.events, Benchmark(o.engine, o.inbox).events);
      }
    }
  }

  /** Whatever the peer does: the packet that answers the opening WAZZUP is the stored one and the slot is
      then empty; a further command goes out exactly if a WAZZUP arrives inside a benchmark; and without
      one the idle counter rises by at most one. */
  lemma {:induction false} DispatchCommands(e: Engine, inbox: seq<Arrival>)
    requires HostOk(e)
    ensures var o := Process(e, inbox);
            var polled := inbox != [] && inbox[0].packet.kind == PACKET_WAZZUP;
            && (|o.events| > 1 && IsCommand(o.events[1]) <==> polled && e.command != 0)
            && (polled && e.command != 0 ==> o.events[1].p == StoredPacket(e))
            && (Nested(o.events) <==> AnyCommand(o.events, 2))
            && (Nested(o.events) ==> polled && e.command == PACKET_BENCHMARK)
            && (o.result.Some? ==> o.engine.command == if polled then 0 else e.command)
            && (!Nested(o.events) ==> o.engine.counter <= e.counter + 1)
  {
    if inbox != [] && inbox[0].packet.kind == PACKET_WAZZUP {
      if e.command == PACKET_BENCHMARK {
        BenchShape(e, inbox);
        NestedInBenchmark(e, inbox);
      } else {
        PlainPoll(e, inbox);
      }
    }
  }

  lemma {:induction false} NestedInBenchmark(e: Engine, inbox: seq<Arrival>)
    requires inbox != [] && inbox[0].packet.kind == PACKET_WAZZUP && e.command == PACKET_BENCHMARK
    ensures var o := Process(e, inbox);
            && (Nested(o.events) <==> AnyCommand(o.events, 2))
            && (!Nested(o.events) ==> o.engine.counter <= e.counter + 1)
  {
    var e1 := Polled(e).(benchmarking := true);
    BenchShape(e, inbox);
    BenchmarkPolls(e1, inbox[1..]);
    BenchmarkAnswers(e1, inbox[1..]);
    BehindTwo(Got(inbox[0].packet), Sent(Packet(PACKET_BENCHMARK, [])), Benchmark(e1, inbox[1..]).events);
  }

  lemma BehindTwo(x: Event, y: Event, b: seq<Event>)
    requires OnlyAnswers(b)
    ensures Nested([x, y] + b) <==> AnyPoll(b, 1)
    ensures AnyCommand([x, y] + b, 2) <==> AnyCommand(b, 0)
  {
    var t := [x, y] + b;
    assert b != [] ==> Answers(b, 0);
    if Nested(t) {
      var i :| 2 <= i && PollAnswered(t, i);
      assert PollAnswered(b, i - 2);
    }
    if AnyPoll(b, 1) {
      var i :| 1 <= i && PollAnswered(b, i);
      assert PollAnswered(t, i + 2);
    }
    if AnyCommand(t, 2) {
      var i :| 2 <= i < |t| && IsCommand(t[i]);
      assert IsCommand(b[i - 2]);
    }
    if AnyCommand(b, 0) {
      var i :| 0 <= i < |b| && IsCommand(b[i]);
      assert IsCommand(t[i + 2]);
    }
  }

  // ---- The idle counter ----

  /** WAZZUPs answered since the last file request was answered, where n had been answered before t. */
  function IdleAfter(n: nat, t: seq<Event>): nat
    decreases |t|
  {
    if |t| < 2 then n
    else if t[0].Got? && t[1].Sent? then
      IdleAfter(if FileRequest(t[0].p.kind) then 0 else if t[0].p.kind == PACKET_WAZZUP then n + 1 else n, t[2..])
    else IdleAfter(n, t[1..])
  }

  lemma {:induction false} IdleConcat(n: nat, a: seq<Event>, b: seq<Event>)
    requires OnlyAnswers(b)
    ensures IdleAfter(n, a + b) == IdleAfter(IdleAfter(n, a), b)
    decreases |a|
  {
    var t := a + b;
    if a == [] {
      assert t == b;
    } else if |a| == 1 {
      assert b != [] ==> Answers(b, 0);
      assert t[1..] == b;
    } else if a[0].Got? && a[1].Sent? {
      assert t[2..] == a[2..] + b;
      IdleConcat(if FileRequest(a[0].p.kind) then 0 else if a[0].p.kind == PACKET_WAZZUP then n + 1 else n, a[2..], b);
    } else {
      assert t[1..] == a[1..] + b;
      IdleConcat(n, a[1..], b);
    }
  }

  lemma IdlePair(n: nat, p: Packet, q: Packet, t: seq<Event>)
    ensures IdleAfter(n, [Got(p), Sent(q)] + t) ==
            IdleAfter(if FileRequest(p.kind) then 0 else if p.kind == PACKET_WAZZUP then n + 1 else n, t)
  {
    assert ([Got(p), Sent(q)] + t)[2..] == t;
  }

  lemma {:induction false} PlainCounter(e: Engine, inbox: seq<Arrival>, n: nat)
    requires HostOk(e) && e.counter <= n && e.command != PACKET_BENCHMARK
    requires inbox != [] && inbox[0].packet.kind == PACKET_WAZZUP
    ensures var o := Process(e, inbox); o.engine.counter <= IdleAfter(n, o.events)
  {
    var o, p := Process(e, inbox), inbox[0].packet;
    PlainPoll(e, inbox);
    var rest := o.events[2..];
    assert o.events == [Got(p), Sent(PollReply(e).value)] + rest;
    IdlePair(n, p, PollReply(e).value, rest);
  }

  /** For every peer, benchmarks included, the idle counter is at most the number of WAZZUPs answered
      since the last file request was answered. */
  lemma {:induction false} DispatchCounter(e: Engine, inbox: seq<Arrival>, n: nat)
    requires HostOk(e) && e.counter <= n
    ensures var o := Process(e, inbox); o.engine.counter <= IdleAfter(n, o.events)
    decreases |inbox|, 0
  {
    if inbox != [] {
      var o, p := Process(e, inbox), inbox[0].packet;
      if FileRequest(p.kind) {
        IdlePair(n, p, o.events[1].p, []);
        assert o.events == o.events + [];
      } else if p.kind == PACKET_WAZZUP {
        if e.command == PACKET_BENCHMARK {
          var e1 := Polled(e).(benchmarking := true);
          BenchShape(e, inbox);
          BenchmarkCounter(e1, inbox[1..], n + 1);
          IdlePair(n, p, Packet(PACKET_BENCHMARK, []), Benchmark(e1, inbox[1..]).events);
        } else {
          PlainCounter(e, inbox, n);
        }
      }
    }
  }

  lemma {:induction false} BenchmarkCounter(e: Engine, inbox: seq<Arrival>, n: nat)
    requires HostOk(e) && e.counter <= n
    ensures var b := Benchmark(e, inbox); b.engine.counter <= IdleAfter(n, b.events)
    decreases |inbox|, 1
  {
    var o := Process(e, inbox);
    BenchmarkUnfold(e, inbox);
    DispatchCounter(e, inbox, n);
    if o.result.Some? && o.result.value != PACKET_RETURN {
      var next := Benchmark(o.engine, o.inbox);
      DispatchAnswers(e, inbox);
      BenchmarkCounter(o.engine, o.inbox, IdleAfter(n, o.events));
      BenchmarkAnswers(o.engine, o.inbox);
      IdleConcat(n, o.events, next.events);
    }
  }

  // ---- The idle counter, exactly ----

  /** What the packets alone say about the counter, and whether the next packet is the reply to a command. */
  datatype Meter = Meter(count: u32, processing: bool, awaiting: bool)

  function Advance(m: Meter, ev: Event): Meter {
    match ev
    case Sent(p) => m.(awaiting := p.kind in {PACKET_RESET, PACKET_QUIT, PACKET_EXECPS2, PACKET_EXECIOP})
    case Got(p) =>
      if m.awaiting then m.(awaiting := false)
      else if p.kind == PACKET_OPEN then Meter(0, true, false)
      else if p.kind == PACKET_CLOSE then Meter(0, false, false)
      else if p.kind in {PACKET_READ, PACKET_WRITE, PACKET_LSEEK} then m.(count := 0)
      else if p.kind == PACKET_WAZZUP && !m.processing then m.(count := (m.count + 1) % 0x1_0000_0000)
      else m
  }

  function Metered(m: Meter, t: seq<Event>): Meter
    decreases |t|
  {
    if t == [] then m else Metered(Advance(m, t[0]), t[1..])
  }

  lemma {:induction false} MeterConcat(m: Meter, a: seq<Event>, b: seq<Event>)
    ensures Metered(m, a + b) == Metered(Metered(m, a), b)
    decreases |a|
  {
    if a == [] {
      assert a + b == b;
    } else {
      assert (a + b)[0] == a[0] && (a + b)[1..] == a[1..] + b;
      MeterConcat(Advance(m, a[0]), a[1..], b);
    }
  }

  lemma Metered1(m: Meter, x: Event)
    ensures Metered(m, [x]) == Advance(m, x)
  {
    assert [x][1..] == [];
  }

  lemma Metered2(m: Meter, x: Event, y: Event)
    ensures Metered(m, [x, y]) == Advance(Advance(m, x), y)
  {
    assert [x, y][1..] == [y];
    Metered1(Advance(m, x), y);
  }

  function Reading(e: Engine): Meter {
    Meter(e.counter, e.processing, false)
  }

  /** The events took the meter to where the engine is; a call that has returned awaits nothing. */
  predicate MeterAgrees(e: Engine, o: Outcome) {
    var m := Metered(Reading(e), o.events);
    m.count == o.engine.counter && m.processing == o.engine.processing && (o.result.Some? ==> !m.awaiting)
  }

  /** For every peer and every state of the slot: the counter and the processing flag after a dispatch are
      exactly what the packets moved make of them. */
  lemma {:induction false} DispatchMeter(e: Engine, inbox: seq<Arrival>)
    ensures MeterAgrees(e, Process(e, inbox))
    decreases |inbox|, 0
  {
    if inbox != [] {
      var p := inbox[0].packet;
      if FileRequest(p.kind) {
        Metered2(Reading(e), Got(p), Process(e, inbox).events[1]);
      } else if p.kind != PACKET_WAZZUP {
        Metered1(Reading(e), Got(p));
      } else if e.command == PACKET_BENCHMARK {
        var e1 := Polled(e).(benchmarking := true);
        var b := Benchmark(e1, inbox[1..]);
        BenchShape(e, inbox);
        BenchmarkMeter(e1, inbox[1..]);
        MeterConcat(Reading(e), [Got(p), Sent(Packet(PACKET_BENCHMARK, []))], b.events);
        Metered2(Reading(e), Got(p), Sent(Packet(PACKET_BENCHMARK, [])));
      } else {
        PlainMeter(e, inbox);
      }
    }
  }

  lemma {:induction false} PlainMeter(e: Engine, inbox: seq<Arrival>)
    requires e.command != PACKET_BENCHMARK && inbox != [] && inbox[0].packet.kind == PACKET_WAZZUP
    ensures MeterAgrees(e, Process(e, inbox))
  {
    var o, got := Process(e, inbox), Got(inbox[0].packet);
    PlainPoll(e, inbox);
    if PollReply(e).None? {
      Metered1(Reading(e), got);
    } else {
      var sent := Sent(PollReply(e).value);
      Metered2(Reading(e), got, sent);
      if |o.events| == 2 {
        assert o.events == [got, sent];
      } else {
        assert o.events == [got, sent] + [Got(inbox[1].packet)];
        MeterConcat(Reading(e), [got, sent], [Got(inbox[1].packet)]);
        Metered1(Metered(Reading(e), [got, sent]), Got(inbox[1].packet));
      }
    }
  }

  lemma {:induction false} BenchmarkMeter(e: Engine, inbox: seq<Arrival>)
    ensures MeterAgrees(e, Benchmark(e, inbox))
    decreases |inbox|, 1
  {
    var o := Process(e, inbox);
    BenchmarkUnfold(e, inbox);
    DispatchMeter(e, inbox);
    if o.result.Some? && o.result.value != PACKET_RETURN {
      BenchmarkMeter(o.engine, o.inbox);
      MeterConcat(Reading(e), o.events, Benchmark(o.engine, o.inbox).events);
    }
  }

  // ---- One dispatch, with a peer in turn ----

  lemma FileTrace(e: Engine, inbox: seq<Arrival>)
    requires inbox != [] && FileRequest(inbox[0].packet.kind)
    ensures var o := Process(e, inbox);
            && o.result.Some? && o.result.value != PACKET_RETURN && |o.inbox| < |inbox|
            && Phases(Benching, o.events) == Benching && Phases(Ready, o.events) == Ready
            && (forall i :: 0 <= i < |o.events| ==> !IsCommand(o.events[i]))
  {
    var o := Process(e, inbox);
    Phases2(Benching, o.events[0], o.events[1]);
    Phases2(Ready, o.events[0], o.events[1]);
  }

  /** Inside a benchmark the host only answers file requests, until the peer's RETURN. */
  lemma {:induction false} BenchmarkTrace(e: Engine, inbox: seq<Arrival>)
    ensures var o := Benchmark(e, inbox);
            var ph := Phases(Benching, o.events);
            && (ph == PeerFault || ph == if o.result.Some? then Ready else Benching)
            && (ph != PeerFault ==> !AnyCommand(o.events, 0))
    decreases |inbox|
  {
    BenchmarkUnfold(e, inbox);
    if inbox != [] {
      var p := inbox[0].packet;
      if FileRequest(p.kind) {
        FileTrace(e, inbox);
        var o := Process(e, inbox);
        BenchmarkTrace(o.engine, o.inbox);
        PhasesConcat(Benching, o.events, Benchmark(o.engine, o.inbox).events);
      } else if p.kind == PACKET_RETURN {
        Phases1(Benching, Got(p));
      } else {
        var all := Benchmark(e, inbox).events;
        assert all[0] == Got(p);
        FaultsStay(PeerFault, all[1..]);
      }
    }
  }

  /** One dispatch is one whole exchange, unless it blocks half way or the peer is at fault; with a peer
      in turn no WAZZUP arrives inside a benchmark. */
  lemma {:induction false} DispatchTrace(e: Engine, inbox: seq<Arrival>)
    requires HostOk(e)
    ensures var o := Process(e, inbox);
            var ph := Phases(Ready, o.events);
            && ph != HostFault
            && (ph != PeerFault ==> !Nested(o.events) && (o.result.Some? ==> ph == Ready))
  {
    if inbox != [] {
      var p, rest := inbox[0].packet, inbox[1..];
      var o := Process(e, inbox);
      assert o.events[0] == Got(p);
      DispatchCommands(e, inbox);
      if p.kind == PACKET_WAZZUP {
        PollTrace(Polled(e), rest);
        assert o.events[1..] == AnswerPoll(Polled(e), rest).events;
      } else if FileRequest(p.kind) {
        FileTrace(e, inbox);
      }
    }
  }

  lemma {:induction false} PollTrace(e: Engine, inbox: seq<Arrival>)
    requires HostOk(e)
    ensures var o := AnswerPoll(e, inbox);
            var ph := Phases(Asked, o.events);
            && ph != HostFault
            && (ph != PeerFault ==> !AnyCommand(o.events, 1) && (o.result.Some? ==> ph == Ready))
  {
    var o := AnswerPoll(e, inbox);
    var sent := PollReply(e).value;
    if e.command == PACKET_BENCHMARK {
      var b := Benchmark(e.(benchmarking := true), inbox);
      BenchmarkTrace(e.(benchmarking := true), inbox);
      assert o.events[0] == Sent(sent) && o.events[1..] == b.events;
    } else if e.command != 0 && inbox != [] {
      Phases2(Asked, Sent(sent), Got(inbox[0].packet));
    } else {
      Phases1(Asked, Sent(sent));
    }
  }

  // ---- Whole runs ----

  /** What the shell does to the engine between and during polls. */
  datatype Action =
    | Issue(kind: u32)                     // cli_reset, cli_benchmark, cli_quit
    | IssueExec(kind: u32, file: seq<byte>) // cli_execee, cli_execeiop
    | Poll                                 // naplink_process with TX_REQ set

  predicate ValidAction(a: Action) {
    match a
    case Issue(k) => BareCommand(k)
    case IssueExec(k, _) => ExecCommand(k)
    case Poll => true
  }

  /** A command is set, with the packet it stands for; a dispatch starts; a packet is moved. */
  datatype Item = Set(p: Packet) | Start | Ev(ev: Event)

  datatype Run = Run(engine: Engine, inbox: seq<Arrival>, history: seq<Item>, blocked: bool)

  function Items(t: seq<Event>): (h: seq<Item>)
    ensures |h| == |t| + 1 && h[0] == Start && forall i :: 0 <= i < |t| ==> h[i + 1] == Ev(t[i])
  {
    [Start] + seq(|t|, i requires 0 <= i < |t| => Ev(t[i]))
  }

  function Events(h: seq<Item>): seq<Event>
  {
    if h == [] then [] else (if h[0].Ev? then [h[0].ev] else []) + Events(h[1..])
  }

  function Asks(a: Action): Packet
    requires !a.Poll?
  {
    match a
    case Issue(k) => Packet(k, [])
    case IssueExec(k, f) => Packet(k, f + [0])
  }

  /** What a command leaves in the slot and in the command buffer. */
  function Issued(e: Engine, a: Action): Engine {
    match a
    case Issue(k) => e.(command := k)
    case IssueExec(k, f) => e.(command := k, buffer := Some(f))
    case Poll => e
  }

  function Act(r: Run, a: Action): Run {
    if r.blocked then r
    else
      match a
      case Poll =>
        var o := Process(r.engine, r.inbox);
        Run(o.engine, o.inbox, r.history + Items(o.events), o.result.None?)
      case _ => r.(engine := Issued(r.engine, a), history := r.history + [Set(Asks(a))])
  }

  function Acts(r: Run, actions: seq<Action>): Run
    decreases |actions|
  {
    if actions == [] then r else Act(Acts(r, actions[..|actions| - 1]), actions[|actions| - 1])
  }

  function Boot(paths: List, inbox: seq<Arrival>): Run {
    Run(Engine(0, None, false, 0, false, paths), inbox, [], false)
  }

  ghost predicate ValidActions(actions: seq<Action>) {
    forall i :: 0 <= i < |actions| ==> ValidAction(actions[i])
  }

  lemma {:induction false} EventsConcat(a: seq<Item>, b: seq<Item>)
    ensures Events(a + b) == Events(a) + Events(b)
    decreases |a|
  {
    if a == [] {
      assert a + b == b;
    } else {
      assert (a + b)[1..] == a[1..] + b;
      EventsConcat(a[1..], b);
      assert (a + b)[0] == a[0];
    }
  }

  lemma {:induction false} EventsOfEvs(h: seq<Item>, t: seq<Event>)
    requires |h| == |t| && forall i :: 0 <= i < |t| ==> h[i] == Ev(t[i])
    ensures Events(h) == t
    decreases |t|
  {
    if t != [] {
      EventsOfEvs(h[1..], t[1..]);
    }
  }

  lemma EventsOfItems(t: seq<Event>)
    ensures Events(Items(t)) == t
  {
    EventsOfEvs(Items(t)[1..], t);
  }

  function Verdict(r: Run): Phase {
    Phases(Ready, Events(r.history))
  }

  /** Some Set(p) in h has neither a later Set nor a later command packet. */
  ghost predicate Pending(h: seq<Item>, p: Packet) {
    exists j :: 0 <= j < |h| && h[j] == Set(p) && Quiet(h, j + 1, |h|)
  }

  ghost predicate Quiet(h: seq<Item>, from: nat, to: nat)
    requires to <= |h|
  {
    forall m :: from <= m < to ==> !h[m].Set? && (h[m].Ev? ==> !IsCommand(h[m].ev))
  }

  /** Every command packet is, body and all, the latest command set, which no earlier packet has carried. */
  ghost predicate LatestWins(h: seq<Item>) {
    forall i :: 0 <= i < |h| && h[i].Ev? && IsCommand(h[i].ev) ==> Pending(h[..i], h[i].ev.p)
  }

  /** Item i is the reply to a WAZZUP that arrived in the middle of a dispatch. */
  predicate PolledInsideAt(h: seq<Item>, i: nat) {
    2 <= i < |h| && h[i - 2].Ev? && h[i - 1].Ev? && h[i].Ev? && PollAnswered([h[i - 1].ev, h[i].ev], 1)
  }

  ghost predicate PolledInside(h: seq<Item>) {
    exists i: nat :: PolledInsideAt(h, i)
  }

  /** Between two actions, whatever the peer has done. */
  ghost predicate SlotInv(r: Run) {
    && (LatestWins(r.history) <==> !PolledInside(r.history))
    && (!r.blocked ==> HostOk(r.engine) && (r.engine.command != 0 ==> Pending(r.history, StoredPacket(r.engine))))
  }

  lemma WinsExtends(h: seq<Item>, more: seq<Item>)
    ensures LatestWins(h + more) ==> LatestWins(h)
    ensures PolledInside(h) ==> PolledInside(h + more)
  {
    var all := h + more;
    if LatestWins(all) {
      forall i | 0 <= i < |h| && h[i].Ev? && IsCommand(h[i].ev) ensures Pending(h[..i], h[i].ev.p) {
        assert all[i] == h[i] && all[..i] == h[..i];
      }
    }
    if PolledInside(h) {
      var i: nat :| PolledInsideAt(h, i);
      assert PolledInsideAt(all, i);
    }
  }

  lemma {:induction false} IssueKeepsSlot(r: Run, a: Action)
    requires SlotInv(r) && ValidAction(a) && !a.Poll? && !r.blocked
    ensures SlotInv(Act(r, a))
  {
    var h, h' := r.history, Act(r, a).history;
    WinsExtends(h, [Set(Asks(a))]);
    assert h'[|h|] == Set(Asks(a)) && Quiet(h', |h| + 1, |h'|);
    if LatestWins(h) {
      assert forall i :: 0 <= i < |h| ==> h'[..i] == h[..i] && h'[i] == h[i];
    }
    if PolledInside(h') {
      var i: nat :| PolledInsideAt(h', i);
      assert PolledInsideAt(h, i);
    }
  }

  /** The first command of a dispatch is the stored one; a second one has nothing pending. */
  lemma SecondCommandLoses(h: seq<Item>, t: seq<Event>)
    requires |t| > 1 && IsCommand(t[1]) && AnyCommand(t, 2)
    ensures !LatestWins(h + Items(t))
  {
    var h', n := h + Items(t), |h| + 1;
    var i :| 2 <= i < |t| && IsCommand(t[i]);
    assert h'[n + 1] == Ev(t[1]) && h'[n + i] == Ev(t[i]);
    assert !Pending(h'[..n + i], t[i].p);
  }

  lemma FirstCommandWins(h: seq<Item>, t: seq<Event>, p: Packet)
    requires LatestWins(h) && !AnyCommand(t, 2) && (t != [] ==> !IsCommand(t[0]))
    requires |t| > 1 && IsCommand(t[1]) ==> t[1].p == p && Pending(h, p)
    ensures LatestWins(h + Items(t))
  {
    var h', n := h + Items(t), |h| + 1;
    forall i | 0 <= i < |h'| && h'[i].Ev? && IsCommand(h'[i].ev)
      ensures Pending(h'[..i], h'[i].ev.p)
    {
      if i < |h| {
        assert h'[..i] == h[..i];
      } else {
        assert h'[i] == Ev(t[i - n]) && i == n + 1;
        var j :| 0 <= j < |h| && h[j] == Set(p) && Quiet(h, j + 1, |h|);
        assert h'[..i][j] == Set(p) && Quiet(h'[..i], j + 1, i);
      }
    }
  }

  lemma PolledInsideSplits(h: seq<Item>, t: seq<Event>)
    ensures PolledInside(h + Items(t)) <==> PolledInside(h) || Nested(t)
  {
    WinsExtends(h, Items(t));
    if PolledInside(h + Items(t)) {
      var i: nat :| PolledInsideAt(h + Items(t), i);
      PolledInsideWhere(h, t, i);
    }
    if Nested(t) {
      NestedPolls(h, t);
    }
  }

  lemma PolledInsideWhere(h: seq<Item>, t: seq<Event>, i: nat)
    requires PolledInsideAt(h + Items(t), i)
    ensures if i < |h| then PolledInsideAt(h, i) else Nested(t)
  {
    var h', n := h + Items(t), |h| + 1;
    if i >= |h| {
      assert h'[|h|] == Start && i >= n + 2;
      assert h'[i] == Ev(t[i - n]) && h'[i - 1] == Ev(t[i - n - 1]);
      assert PollAnswered(t, i - n);
    }
  }

  lemma NestedPolls(h: seq<Item>, t: seq<Event>)
    requires Nested(t)
    ensures PolledInside(h + Items(t))
  {
    var h', n: nat := h + Items(t), |h| + 1;
    var i: int :| 2 <= i && PollAnswered(t, i);
    var m: nat := n + i;
    assert h'[m] == Ev(t[i]) && h'[m - 1] == Ev(t[i - 1]) && h'[m - 2] == Ev(t[i - 2]);
    assert PolledInsideAt(h', m);
  }

  lemma PendingStays(h: seq<Item>, t: seq<Event>, p: Packet)
    requires Pending(h, p) && !AnyCommand(t, 0)
    ensures Pending(h + Items(t), p)
  {
    var h' := h + Items(t);
    var j :| 0 <= j < |h| && h[j] == Set(p) && Quiet(h, j + 1, |h|);
    forall m | |h| + 1 <= m < |h'| ensures h'[m].Ev? && !IsCommand(h'[m].ev) {
      assert h'[m] == Ev(t[m - |h| - 1]);
    }
    assert h'[j] == Set(p) && Quiet(h', j + 1, |h'|);
  }

  /** A dispatch keeps the equivalence, given what it may send. */
  lemma DispatchWins(h: seq<Item>, t: seq<Event>, p: Packet)
    requires LatestWins(h) <==> !PolledInside(h)
    requires Nested(t) <==> AnyCommand(t, 2)
    requires Nested(t) ==> |t| > 1 && IsCommand(t[1])
    requires t != [] ==> !IsCommand(t[0])
    requires |t| > 1 && IsCommand(t[1]) ==> t[1].p == p && Pending(h, p)
    ensures LatestWins(h + Items(t)) <==> !PolledInside(h + Items(t))
  {
    PolledInsideSplits(h, t);
    WinsExtends(h, Items(t));
    if Nested(t) {
      SecondCommandLoses(h, t);
    } else if LatestWins(h) {
      FirstCommandWins(h, t, p);
    }
  }

  /** What a dispatch may send, as facts about its packets alone. */
  lemma {:induction false} DispatchSends(e: Engine, inbox: seq<Arrival>)
    requires HostOk(e)
    ensures var t := Process(e, inbox).events;
            && (Nested(t) <==> AnyCommand(t, 2))
            && (Nested(t) ==> |t| > 1 && IsCommand(t[1]))
            && (t != [] ==> !IsCommand(t[0]))
            && (|t| > 1 && IsCommand(t[1]) ==> e.command != 0 && t[1].p == StoredPacket(e))
  {
    DispatchCommands(e, inbox);
    DispatchAnswers(e, inbox);
    var t := Process(e, inbox).events;
    assert t != [] ==> Answers(t, 0);
  }

  lemma PollKeepsWins(r: Run, t: seq<Event>)
    requires SlotInv(r) && !r.blocked && t == Process(r.engine, r.inbox).events
    ensures LatestWins(r.history + Items(t)) <==> !PolledInside(r.history + Items(t))
  {
    DispatchSends(r.engine, r.inbox);
    DispatchWins(r.history, t, if r.engine.command != 0 then StoredPacket(r.engine) else Packet(0, []));
  }

  lemma {:induction false} PollKeepsSlot(r: Run)
    requires SlotInv(r) && !r.blocked
    ensures SlotInv(Act(r, Poll))
  {
    var e := r.engine;
    var o := Process(e, r.inbox);
    PollKeepsWins(r, o.events);
    if o.result.Some? {
      DispatchCommands(e, r.inbox);
      DispatchAnswers(e, r.inbox);
      if o.engine.command != 0 {
        assert o.events != [] ==> Answers(o.events, 0);
        NoCommand(o.events);
        PendingStays(r.history, o.events, StoredPacket(e));
      }
    }
  }

  lemma NoCommand(t: seq<Event>)
    requires (t != [] ==> !IsCommand(t[0])) && (|t| > 1 ==> !IsCommand(t[1])) && !AnyCommand(t, 2)
    ensures !AnyCommand(t, 0)
  {
  }

  lemma {:induction false} RunsKeepSlot(paths: List, inbox: seq<Arrival>, actions: seq<Action>)
    requires ValidActions(actions)
    ensures SlotInv(Acts(Boot(paths, inbox), actions))
    decreases |actions|
  {
    if actions != [] {
      var init, a := actions[..|actions| - 1], actions[|actions| - 1];
      RunsKeepSlot(paths, inbox, init);
      var r := Acts(Boot(paths, inbox), init);
      if a.Poll? && !r.blocked {
        PollKeepsSlot(r);
      } else if !r.blocked {
        IssueKeepsSlot(r, a);
      }
    }
  }

  /** For every peer and every sequence of commands and polls: each command packet is the latest command
      set, body and all, and no command set is sent twice, if and only if no WAZZUP arrives while
      the loop of a benchmark runs. */
  lemma CommandsSentOnceIff(paths: List, inbox: seq<Arrival>, actions: seq<Action>)
    requires ValidActions(actions)
    ensures var h := Acts(Boot(paths, inbox), actions).history;
            LatestWins(h) <==> !PolledInside(h)
  {
    RunsKeepSlot(paths, inbox, actions);
  }

  /** Between two actions, as long as the peer is in turn. */
  ghost predicate TurnInv(r: Run) {
    && Verdict(r) != HostFault
    && (Verdict(r) != PeerFault ==> !PolledInside(r.history) && (!r.blocked ==> Verdict(r) == Ready))
  }

  lemma {:induction false} PollKeepsTurn(r: Run)
    requires TurnInv(r) && SlotInv(r) && !r.blocked
    ensures TurnInv(Act(r, Poll))
  {
    var o := Process(r.engine, r.inbox);
    EventsConcat(r.history, Items(o.events));
    EventsOfItems(o.events);
    PhasesConcat(Ready, Events(r.history), o.events);
    PolledInsideSplits(r.history, o.events);
    if Verdict(r) == PeerFault {
      FaultsStay(PeerFault, o.events);
    } else {
      DispatchTrace(r.engine, r.inbox);
    }
  }

  lemma {:induction false} RunsKeepTurn(paths: List, inbox: seq<Arrival>, actions: seq<Action>)
    requires ValidActions(actions)
    ensures TurnInv(Acts(Boot(paths, inbox), actions))
    decreases |actions|
  {
    if actions != [] {
      var init, a := actions[..|actions| - 1], actions[|actions| - 1];
      RunsKeepTurn(paths, inbox, init);
      RunsKeepSlot(paths, inbox, init);
      var r := Acts(Boot(paths, inbox), init);
      if a.Poll? && !r.blocked {
        PollKeepsTurn(r);
      } else if !r.blocked {
        IssueIsSilent(r.history, Asks(a));
      }
    }
  }

  lemma IssueIsSilent(h: seq<Item>, p: Packet)
    ensures Events(h + [Set(p)]) == Events(h)
    ensures PolledInside(h + [Set(p)]) ==> PolledInside(h)
  {
    EventsConcat(h, [Set(p)]);
    assert Events([Set(p)]) == [] by { assert [Set(p)][1..] == []; }
    if PolledInside(h + [Set(p)]) {
      var i: nat :| PolledInsideAt(h + [Set(p)], i);
      assert PolledInsideAt(h, i);
    }
  }

  /** For every sequence of commands and polls, as long as the peer is in turn: the host is too, a run
      that is not blocked inside recv_packet is a sequence of whole exchanges, so every request has
      exactly one reply, and every command set is sent at most once. */
  lemma SessionGrammar(paths: List, inbox: seq<Arrival>, actions: seq<Action>)
    requires ValidActions(actions)
    ensures var r := Acts(Boot(paths, inbox), actions);
            && Verdict(r) != HostFault
            && (Verdict(r) != PeerFault ==> LatestWins(r.history) && (!r.blocked ==> Session(Events(r.history))))
  {
    RunsKeepTurn(paths, inbox, actions);
    RunsKeepSlot(paths, inbox, actions);
    GrammarIsAutomaton(Events(Acts(Boot(paths, inbox), actions).history));
  }

  /** For every peer and every sequence of commands and polls: the counter and the processing flag are exactly
      what the packets of the whole run make of them. */
  lemma {:induction false} CounterIsMetered(paths: List, inbox: seq<Arrival>, actions: seq<Action>)
    ensures var r := Acts(Boot(paths, inbox), actions);
            var m := Metered(Meter(0, false, false), Events(r.history));
            m.count == r.engine.counter && m.processing == r.engine.processing && (!r.blocked ==> !m.awaiting)
    decreases |actions|
  {
    if actions != [] {
      var init, a := actions[..|actions| - 1], actions[|actions| - 1];
      CounterIsMetered(paths, inbox, init);
      var r := Acts(Boot(paths, inbox), init);
      if !r.blocked && a.Poll? {
        var o := Process(r.engine, r.inbox);
        DispatchMeter(r.engine, r.inbox);
        EventsConcat(r.history, Items(o.events));
        EventsOfItems(o.events);
        MeterConcat(Meter(0, false, false), Events(r.history), o.events);
      } else if !r.blocked {
        IssueIsSilent(r.history, Asks(a));
      }
    }
  }

  /** With nothing to do a WAZZUP is answered by a RETURN of 0 without data, and nothing else happens. */
  lemma {:induction false} IdleAnswer(e: Engine, inbox: seq<Arrival>)
    requires e.command == 0 && inbox != [] && inbox[0].packet.kind == PACKET_WAZZUP
    ensures var o := Process(e, inbox);
            && |o.events| == 2 && o.events[0] == Got(inbox[0].packet)
            && o.events[1].Sent? && o.events[1].p.kind == PACKET_RETURN
            && ReturnValue(o.events[1].p) == 0 && ReturnData(o.events[1].p) == []
            && o.inbox == inbox[1..] && o.result == Some(PACKET_WAZZUP)
  {
    PlainPoll(e, inbox);
    ReturnRoundTrip(0, []);
  }

  /** A command that has just been set is the answer to the next WAZZUP, with its file name and a NUL. */
  lemma {:induction false} CommandGoesOut(e: Engine, a: Action, inbox: seq<Arrival>)
    requires ValidAction(a) && !a.Poll? && inbox != [] && inbox[0].packet.kind == PACKET_WAZZUP
    ensures var o := Process(Issued(e, a), inbox);
            && |o.events| > 1 && o.events[0] == Got(inbox[0].packet)
            && o.events[1] == Sent(Packet(a.kind, if a.IssueExec? then a.file + [0] else []))
            && (o.result.Some? ==> o.engine.command == 0)
  {
    var e1 := Issued(e, a);
    if a.kind == PACKET_BENCHMARK {
      BenchShape(e1, inbox);
    } else {
      PlainPoll(e1, inbox);
    }
  }

  /** A request that opens a dispatch is answered at once. */
  ghost predicate OpenersAnswered(h: seq<Item>) {
    forall i :: 0 <= i < |h| ==> AnsweredAt(h, i)
  }

  predicate AnsweredAt(h: seq<Item>, i: nat)
    requires i < |h|
  {
    i < |h| - 1 && h[i].Start? && h[i + 1].Ev? && OpensExchange(h[i + 1].ev) ==>
      i + 2 < |h| && h[i + 2].Ev? && h[i + 2].ev.Sent?
  }

  predicate OpensExchange(ev: Event) {
    ev.Got? && (FileRequest(ev.p.kind) || ev.p.kind == PACKET_WAZZUP)
  }

  lemma OpenersExtend(h: seq<Item>, t: seq<Event>)
    requires OpenersAnswered(h)
    requires t != [] && OpensExchange(t[0]) ==> |t| > 1 && t[1].Sent?
    ensures OpenersAnswered(h + Items(t))
  {
    var h', n := h + Items(t), |h|;
    forall i | 0 <= i < |h'| ensures AnsweredAt(h', i) {
      if i < n {
        assert AnsweredAt(h, i);
        assert h'[n] == Start;
      } else if i == n {
        assert forall k :: 0 <= k < |t| ==> h'[n + 1 + k] == Ev(t[k]);
      } else {
        assert h'[i] == Ev(t[i - n - 1]);
      }
    }
  }

  /** For every peer, before and after its first fault: the host never sends unless it has just received
      a file request or a WAZZUP, and answers each that opens a dispatch at once and in kind. */
  lemma {:induction false} HostOnlyAnswers(paths: List, inbox: seq<Arrival>, actions: seq<Action>)
    requires ValidActions(actions)
    ensures var h := Acts(Boot(paths, inbox), actions).history; OnlyAnswers(Events(h)) && OpenersAnswered(h)
    decreases |actions|
  {
    if actions != [] {
      var init, a := actions[..|actions| - 1], actions[|actions| - 1];
      HostOnlyAnswers(paths, inbox, init);
      RunsKeepSlot(paths, inbox, init);
      var r := Acts(Boot(paths, inbox), init);
      if !r.blocked {
        if a.Poll? {
          PollOnlyAnswers(r);
        } else {
          IssueOnlyAnswers(r.history, Asks(a));
        }
      }
    }
  }

  lemma IssueOnlyAnswers(h: seq<Item>, p: Packet)
    requires OpenersAnswered(h)
    ensures Events(h + [Set(p)]) == Events(h) && OpenersAnswered(h + [Set(p)])
  {
    IssueIsSilent(h, p);
    var h' := h + [Set(p)];
    forall i | 0 <= i < |h'| ensures AnsweredAt(h', i) {
      if i < |h| {
        assert AnsweredAt(h, i) && h'[|h|] == Set(p);
      }
    }
  }

  lemma {:induction false} OpenerReplied(e: Engine, inbox: seq<Arrival>)
    requires HostOk(e)
    ensures var t := Process(e, inbox).events; t != [] && OpensExchange(t[0]) ==> |t| > 1 && t[1].Sent?
  {
    if inbox != [] && inbox[0].packet.kind == PACKET_WAZZUP {
      if e.command == PACKET_BENCHMARK {
        BenchShape(e, inbox);
      } else {
        PlainPoll(e, inbox);
      }
    }
  }

  lemma {:induction false} PollOnlyAnswers(r: Run)
    requires !r.blocked && HostOk(r.engine) && OnlyAnswers(Events(r.history)) && OpenersAnswered(r.history)
    ensures var h := Act(r, Poll).history; OnlyAnswers(Events(h)) && OpenersAnswered(h)
  {
    var t := Process(r.engine, r.inbox).events;
    EventsConcat(r.history, Items(t));
    EventsOfItems(t);
    DispatchAnswers(r.engine, r.inbox);
    AnswersConcat(Events(r.history), t);
    OpenerReplied(r.engine, r.inbox);
    OpenersExtend(r.history, t);
  }

  /** A WAZZUP inside a benchmark finds the slot still full: one stored BENCHMARK goes out twice. */
  lemma {:induction false} WazzupInsideBenchmarkRepeats(e: Engine, inbox: seq<Arrival>)
    requires e.command == PACKET_BENCHMARK && |inbox| >= 2
    requires inbox[0].packet.kind == PACKET_WAZZUP && inbox[1].packet.kind == PACKET_WAZZUP
    ensures var t := Process(e, inbox).events;
            |t| >= 4 && t[1] == t[3] == Sent(Packet(PACKET_BENCHMARK, [])) && Nested(t)
  {
    var e1 := Polled(e).(benchmarking := true);
    BenchShape(e, inbox);
    BenchmarkUnfold(e1, inbox[1..]);
    BenchShape(e1, inbox[1..]);
    assert PollAnswered(Process(e, inbox).events, 3);
  }

  /** So the shortest run that breaks the rule is one benchmark command and two WAZZUPs. */
  lemma {:induction false} RepeatingRun(os: Os)
    ensures var wazzup := Arrival(Packet(PACKET_WAZZUP, []), os);
            var h := Acts(Boot(Nil, [wazzup, wazzup]), [Issue(PACKET_BENCHMARK), Poll]).history;
            PolledInside(h) && !LatestWins(h)
  {
    var wazzup := Arrival(Packet(PACKET_WAZZUP, []), os);
    var inbox, actions := [wazzup, wazzup], [Issue(PACKET_BENCHMARK), Poll];
    ActsTwo(Boot(Nil, inbox), actions[0], actions[1]);
    PolledTwice(Act(Boot(Nil, inbox), actions[0]));
    CommandsSentOnceIff(Nil, inbox, actions);
  }

  lemma PolledTwice(r: Run)
    requires !r.blocked && r.engine.command == PACKET_BENCHMARK && |r.inbox| == 2
    requires r.inbox[0].packet.kind == PACKET_WAZZUP && r.inbox[1].packet.kind == PACKET_WAZZUP
    ensures PolledInside(Act(r, Poll).history)
  {
    WazzupInsideBenchmarkRepeats(r.engine, r.inbox);
    PolledInsideSplits(r.history, Process(r.engine, r.inbox).events);
  }

  lemma ActsTwo(r: Run, a: Action, b: Action)
    ensures Acts(r, [a, b]) == Act(Act(r, a), b)
  {
    assert [a, b][..1] == [a] && [a][..0] == [];
    assert Acts(r, []) == r && Acts(r, [a]) == Act(r, a);
  }

  /** A WAZZUP gets a reply exactly if the slot holds a known command with what it needs. */
  lemma {:induction false} WazzupAnsweredIff(e: Engine, inbox: seq<Arrival>)
    requires inbox != [] && inbox[0].packet.kind == PACKET_WAZZUP
    ensures (exists i :: 0 <= i < |Process(e, inbox).events| && Process(e, inbox).events[i].Sent?) <==> HostOk(e)
  {
    var o := Process(e, inbox);
    if HostOk(e) {
      assert o.events[1].Sent?;
    }
  }

  // ---- RETURN packets ----

  /** get_return recovers from what do_return builds the value, as far as an int holds it, and exactly
      the bytes. */
  lemma ReturnRoundTrip(rv: int, data: seq<byte>)
    ensures ReturnValue(ReturnPacket(rv, data, |data|)) == ToI32(rv)
    ensures ReturnData(ReturnPacket(rv, data, |data|)) == data
  {
    var b := ReturnPacket(rv, data, |data|).body;
    assert [ByteAt(b, 0), ByteAt(b, 1), ByteAt(b, 2), ByteAt(b, 3)] == PutLE32(ToU32(rv)) + [];
    LE32RoundTrip(ToU32(rv), []);
  }

  /** A READ that fails is still answered with a packet that decodes to -1 and no bytes. */
  lemma FailedReadReply(e: Engine, p: Packet, os: Os)
    requires p.kind == PACKET_READ && !e.benchmarking
    requires os.read(FieldAt(p.body, 0), FieldAt(p.body, 4)) == ReadError
    ensures var reply := FileReply(e, p, os);
            |reply.body| == 4 && ReturnValue(reply) == -1 && ReturnData(reply) == []
  {
    ReturnRoundTrip(-1, []);
    assert FileReply(e, p, os) == ReturnPacket(-1, [], 0);
  }
}
