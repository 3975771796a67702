/**
 Idle timeout and link life cycle of npsh (npsh.c, naplink.c), over every run of the main loop: any peer,
 in turn or not, any input, any device behaviour.
*/
module NpshProperties {
  import opened Bytes
  import opened Lists
  import opened Wire
  import opened Naplink
  import opened RpcTrace
  import opened Npsh

  predicate ValidTicks(ticks: seq<Tick>) {
    forall i :: 0 <= i < |ticks| ==> ValidTick(ticks[i])
  }

  // ---- What a pass does ----

  /** Polls of the device and dispatches in a log. */
  function Touches(log: seq<Mark>): nat {
    if log == [] then 0 else Touches(log[..|log| - 1]) + if log[|log| - 1].Touch? then 1 else 0
  }

  function Dispatches(log: seq<Mark>): nat {
    if log == [] then 0 else Dispatches(log[..|log| - 1]) + if log[|log| - 1].Dispatch? then 1 else 0
  }

  function Requests(requests: seq<bool>): nat {
    if requests == [] then 0 else Requests(requests[..|requests| - 1]) + if requests[|requests| - 1] then 1 else 0
  }

  /** s' has got that far from s. */
  predicate Did(s: Shell, s': Shell, touches: nat, dispatches: nat) {
    Touches(s'.log) == Touches(s.log) + touches && Dispatches(s'.log) == Dispatches(s.log) + dispatches
  }

  lemma MarkCounts(log: seq<Mark>, m: Mark)
    ensures Touches(log + [m]) == Touches(log) + if m.Touch? then 1 else 0
    ensures Dispatches(log + [m]) == Dispatches(log) + if m.Dispatch? then 1 else 0
  {
    assert (log + [m])[..|log|] == log;
  }

  lemma VisitDoes(s: Shell, requested: bool)
    requires !s.stuck
    ensures Did(s, Visit(s, requested), 1, if requested then 1 else 0)
  {
    MarkCounts(s.log, Touch);
    if requested {
      var t := Process(s.engine, s.inbox).events;
      MarkCounts(s.log + [Touch], Dispatch(t));
      assert (s.log + [Touch]) + [Dispatch(t)] == s.log + [Touch, Dispatch(t)];
    }
  }

  lemma {:induction false} VisitsDo(s: Shell, requests: seq<bool>)
    requires !Visits(s, requests).stuck
    ensures !s.stuck && Did(s, Visits(s, requests), |requests|, Requests(requests))
    decreases |requests|
  {
    if requests != [] {
      var init := requests[..|requests| - 1];
      assert !Visits(s, init).stuck;
      VisitsDo(s, init);
      VisitDoes(Visits(s, init), requests[|requests| - 1]);
    }
  }

  lemma CheckAndVisit(s: Shell, requested: bool)
    requires !s.stuck
    ensures Did(s, Visit(Check(s), requested), 2, if requested then 1 else 0)
  {
    MarkCounts(s.log, Touch);
    VisitDoes(Check(s), requested);
  }

  lemma ReopenDoes(s: Shell, t: Tick)
    requires !s.stuck
    ensures Did(s, Reopen(s, t), 2, if t.requestedAgain then 1 else 0)
  {
    MarkCounts(s.log, Reinit(t.reinitOk));
    CheckAndVisit(s.(engine := s.engine.(counter := 0), log := s.log + [Reinit(t.reinitOk)]), t.requestedAgain);
  }

  lemma InputDoes(s: Shell, k: Key)
    ensures Did(s, Input(s, k), 0, 0)
  {
    MarkCounts(s.log, CommandLine);
  }

  lemma CheckTimeoutDoes(s: Shell, timeout: u32)
    ensures Did(s, CheckTimeout(s, timeout), 0, 0)
  {
    MarkCounts(s.log, Close);
  }

  /** Every pass with the link up checks and polls the device twelve times, eleven of them for a packet, and dispatches
      each packet announced; a pass with the link down does so, with the poll behind the reinitialisation in
      place of the first one, if there is input, and leaves the device alone if not. */
  lemma PassPolls(s: Shell, timeout: u32, t: Tick)
    requires !s.stuck && ValidTick(t) && !Pass(s, timeout, t).stuck
    ensures if s.timedout && t.key.None? then Did(s, Pass(s, timeout, t), 0, 0)
            else Did(s, Pass(s, timeout, t), 12, (if if s.timedout then t.requestedAgain else t.requested then 1 else 0) + Requests(t.more))
  {
    var s1 := FirstPoll(s, t);
    var s2 := UserInput(s1, t);
    if !s.timedout {
      CheckAndVisit(s, t.requested);
    }
    if t.key.Some? {
      if s1.timedout && !s1.stuck {
        ReopenDoes(s1, t);
        InputDoes(Reopen(s1, t), t.key.value);
      } else {
        InputDoes(s1, t.key.value);
      }
    }
    if !s2.timedout {
      VisitsDo(s2, t.more);
    }
    CheckTimeoutDoes(MorePolls(s2, t), timeout);
  }

  /** And main polls once before the loop. */
  lemma StartupPolls(paths: List, inbox: seq<Arrival>, requested: bool)
    ensures var s := Startup(paths, inbox, requested); Touches(s.log) == 2 && Dispatches(s.log) == if requested then 1 else 0
  {
    CheckAndVisit(Shell(Engine(0, None, false, 0, false, paths), inbox, false, true, false, []), requested);
  }

  // ---- The life of the link ----

  datatype LinkPhase = Up | Down | Broken

  /** Close only while up, Reinit only while down, and nothing but Reinit while down. */
  function NextLink(ph: LinkPhase, m: Mark): LinkPhase {
    match ph
    case Up => if m.Close? then Down else if m.Reinit? then Broken else Up
    case Down => if m.Reinit? then Up else Broken
    case Broken => Broken
  }

  function LinkPhases(log: seq<Mark>): LinkPhase {
    if log == [] then Up else NextLink(LinkPhases(log[..|log| - 1]), log[|log| - 1])
  }

  lemma LinkStep(log: seq<Mark>, m: Mark)
    ensures LinkPhases(log + [m]) == NextLink(LinkPhases(log), m)
  {
    assert (log + [m])[..|log|] == log;
  }

  /** Every Reinit is followed at once by a Touch. */
  ghost predicate ReinitsTouched(log: seq<Mark>) {
    forall i :: 0 <= i < |log| && log[i].Reinit? ==> i + 1 < |log| && log[i + 1].Touch?
  }

  ghost predicate LinkOk(s: Shell, up: bool) {
    && LinkPhases(s.log) == (if up then Up else Down)
    && (s.timedout && !s.stuck ==> s.engine.counter == 0 || up)
    && ReinitsTouched(s.log)
  }

  lemma VisitLink(s: Shell, requested: bool)
    requires LinkOk(s, true)
    ensures LinkOk(Visit(s, requested), true)
  {
    if !s.stuck {
      LinkStep(s.log, Touch);
      if requested {
        var t := Process(s.engine, s.inbox).events;
        LinkStep(s.log + [Touch], Dispatch(t));
        assert Visit(s, requested).log == (s.log + [Touch]) + [Dispatch(t)];
      }
    }
  }

  lemma {:induction false} VisitsLink(s: Shell, requests: seq<bool>)
    requires LinkOk(s, true)
    ensures LinkOk(Visits(s, requests), true)
    ensures Visits(s, requests).timedout == s.timedout
    decreases |requests|
  {
    if requests != [] {
      VisitsLink(s, requests[..|requests| - 1]);
      VisitLink(Visits(s, requests[..|requests| - 1]), requests[|requests| - 1]);
    }
  }

  /** Between passes, `timedout` says exactly whether the link is down, and the counter is then 0. */
  ghost predicate HeadLink(s: Shell) {
    LinkOk(s, !s.timedout || s.stuck)
  }

  lemma FirstPollLink(s: Shell, t: Tick)
    requires HeadLink(s) && !s.stuck
    ensures HeadLink(FirstPoll(s, t)) && FirstPoll(s, t).timedout == s.timedout
    ensures FirstPoll(s, t).stuck ==> LinkOk(FirstPoll(s, t), true)
  {
    if !s.timedout {
      LinkStep(s.log, Touch);
      VisitLink(Check(s), t.requested);
    }
  }

  lemma ReopenLink(s: Shell, t: Tick)
    requires LinkOk(s, false) && s.timedout && !s.stuck
    ensures LinkOk(Reopen(s, t), true)
    ensures !Reopen(s, t).stuck ==> !Reopen(s, t).timedout
  {
    var up := s.(engine := s.engine.(counter := 0), log := s.log + [Reinit(t.reinitOk)]);
    LinkStep(s.log, Reinit(t.reinitOk));
    LinkStep(up.log, Touch);
    VisitLink(Check(up), t.requestedAgain);
  }

  lemma InputLink(s: Shell, k: Key)
    requires LinkOk(s, true)
    ensures LinkOk(Input(s, k), true)
    ensures Input(s, k).timedout == s.timedout && Input(s, k).stuck == s.stuck
  {
    if k.Line? && !s.stuck {
      LinkStep(s.log, CommandLine);
      assert Input(s, k).log == s.log + [CommandLine];
    }
  }

  lemma UserInputLink(s: Shell, t: Tick)
    requires HeadLink(s)
    ensures HeadLink(UserInput(s, t))
  {
    if !s.stuck && t.key.Some? {
      if s.timedout {
        ReopenLink(s, t);
        InputLink(Reopen(s, t), t.key.value);
      } else {
        InputLink(s, t.key.value);
      }
    }
  }

  lemma {:induction false} PassLink(s: Shell, timeout: u32, t: Tick)
    requires HeadLink(s) && !s.stuck
    ensures HeadLink(Pass(s, timeout, t))
  {
    FirstPollLink(s, t);
    var s2 := UserInput(FirstPoll(s, t), t);
    UserInputLink(FirstPoll(s, t), t);
    var s3 := MorePolls(s2, t);
    if !s2.timedout {
      VisitsLink(s2, t.more);
    }
    LinkStep(s3.log, Close);
  }

  lemma StartupLink(paths: List, inbox: seq<Arrival>, requested: bool)
    ensures HeadLink(Startup(paths, inbox, requested)) && !Startup(paths, inbox, requested).timedout
  {
    LinkStep([], Touch);
    var s := Shell(Engine(0, None, false, 0, false, paths), inbox, false, true, false, [Touch]);
    assert [] + [Touch] == [Touch];
    VisitLink(s, requested);
  }

  lemma {:induction false} LoopLink(paths: List, inbox: seq<Arrival>, requested: bool, timeout: u32, ticks: seq<Tick>)
    ensures HeadLink(Loop(Startup(paths, inbox, requested), timeout, ticks))
    decreases |ticks|
  {
    StartupLink(paths, inbox, requested);
    if ticks != [] {
      var init := ticks[..|ticks| - 1];
      LoopLink(paths, inbox, requested, timeout, init);
      var before := Loop(Startup(paths, inbox, requested), timeout, init);
      if !before.stuck && before.doloop {
        PassLink(before, timeout, ticks[|ticks| - 1]);
      }
    }
  }

  /** In every run, closing and reinitialising the link strictly alternate, starting with a close;
      between a close and the next reinitialisation the link is not polled, nothing is received
      and no command line runs; and while the link is down the idle counter is 0. */
  lemma CloseAndReinitAlternate(paths: List, inbox: seq<Arrival>, requested: bool, timeout: u32, ticks: seq<Tick>)
    ensures var s := Loop(Startup(paths, inbox, requested), timeout, ticks);
            && LinkPhases(s.log) != Broken
            && (!s.stuck ==> (s.timedout <==> LinkPhases(s.log) == Down))
            && (LinkPhases(s.log) == Down ==> s.engine.counter == 0)
  {
    LoopLink(paths, inbox, requested, timeout, ticks);
  }

  // ---- The device handle ----

  /** Whether pl_hnd refers to an open device: initialize_naplink may fail, and the result is ignored. */
  function HandleOpen(log: seq<Mark>): bool {
    if log == [] then true
    else
      match log[|log| - 1]
      case Close => false
      case Reinit(ok) => ok
      case _ => HandleOpen(log[..|log| - 1])
  }

  ghost predicate TouchesOpenHandle(log: seq<Mark>) {
    forall i :: 0 <= i < |log| && log[i].Touch? ==> HandleOpen(log[..i])
  }

  ghost predicate ReinitsSucceed(log: seq<Mark>) {
    forall i :: 0 <= i < |log| && log[i].Reinit? ==> log[i].ok
  }

  lemma {:induction false} OpenWhileUp(log: seq<Mark>, n: nat)
    requires n <= |log| && ReinitsSucceed(log) && LinkPhases(log) != Broken
    ensures LinkPhases(log[..n]) != Broken
    ensures HandleOpen(log[..n]) <==> LinkPhases(log[..n]) == Up
    decreases |log| + n
  {
    if n < |log| {
      assert log[..|log| - 1][..n] == log[..n];
      OpenWhileUp(log[..|log| - 1], n);
    } else if n > 0 {
      var init := log[..n - 1];
      assert log[..n] == log;
      OpenWhileUp(init, n - 1);
      assert init[..n - 1] == init;
      assert log == init + [log[n - 1]];
      LinkStep(init, log[n - 1]);
    } else {
      assert log[..n] == [];
    }
  }

  lemma OpenIfReinitsSucceed(log: seq<Mark>)
    requires LinkPhases(log) != Broken && ReinitsSucceed(log)
    ensures TouchesOpenHandle(log)
  {
    forall i | 0 <= i < |log| && log[i].Touch?
      ensures HandleOpen(log[..i])
    {
      OpenWhileUp(log, i);
      OpenWhileUp(log, i + 1);
      assert log[..i + 1] == log[..i] + [log[i]];
      LinkStep(log[..i], log[i]);
    }
  }

  lemma ReinitsSucceedIfOpen(log: seq<Mark>)
    requires ReinitsTouched(log) && TouchesOpenHandle(log)
    ensures ReinitsSucceed(log)
  {
    forall i | 0 <= i < |log| && log[i].Reinit?
      ensures log[i].ok
    {
      assert log[i + 1].Touch?;
      assert log[..i + 1][..i] == log[..i] && log[..i + 1][i] == log[i];
    }
  }

  /** The device is polled only while open exactly in the runs in which every reinitialisation
      succeeds: after a failed one the closed handle is polled at once. */
  lemma PolledOpenIffReinitsSucceed(paths: List, inbox: seq<Arrival>, requested: bool, timeout: u32, ticks: seq<Tick>)
    ensures var s := Loop(Startup(paths, inbox, requested), timeout, ticks);
            TouchesOpenHandle(s.log) <==> ReinitsSucceed(s.log)
  {
    LoopLink(paths, inbox, requested, timeout, ticks);
    var log := Loop(Startup(paths, inbox, requested), timeout, ticks).log;
    if ReinitsSucceed(log) {
      OpenIfReinitsSucceed(log);
    }
    if TouchesOpenHandle(log) {
      ReinitsSucceedIfOpen(log);
    }
  }

  /** It fails in a run that times out at once and finds no device afterwards. */
  lemma ClosedHandlePolled(os: Os)
    ensures var s := Loop(Startup(Nil, Wazzups(POLLS, os), false), 1, [IdleTick(), LostTick()]);
            !TouchesOpenHandle(s.log)
  {
    var start := Startup(Nil, Wazzups(POLLS, os), false);
    var ticks := [IdleTick(), LostTick()];
    assert ticks[..1] == [IdleTick()] && ticks[..1][..0] == [];
    assert Loop(start, 1, []) == start;
    var s := Pass(start, 1, IdleTick());
    assert Loop(start, 1, ticks[..1]) == s;
    IdlePassCloses(start, os);
    var u := UserInput(s, LostTick());
    assert u.log[|s.log|] == Reinit(false);
    VisitsGrow(u, LostTick().more);
    assert u.log <= Pass(s, 1, LostTick()).log;
    PolledOpenIffReinitsSucceed(Nil, Wazzups(POLLS, os), false, 1, ticks);
  }

  lemma {:induction false} VisitsGrow(s: Shell, requests: seq<bool>)
    ensures s.log <= Visits(s, requests).log
    decreases |requests|
  {
    if requests != [] {
      VisitsGrow(s, requests[..|requests| - 1]);
    }
  }

  lemma IdlePassCloses(s: Shell, os: Os)
    requires !s.stuck && !s.timedout && s.engine.command == 0 && !s.engine.processing && s.engine.counter == 0
    requires s.inbox == Wazzups(POLLS, os)
    ensures var s' := Pass(s, 1, IdleTick()); s'.timedout && !s'.stuck && s'.doloop == s.doloop
  {
    var s2 := UserInput(FirstPoll(s, IdleTick()), IdleTick());
    assert s2.engine == s.engine && s2.inbox == s.inbox && !s2.stuck && !s2.timedout;
    assert Wazzups(POLLS, os) + [] == Wazzups(POLLS, os);
    IdleVisits(s2, POLLS, os, []);
  }

  // ---- Runs to argue with ----

  function Wazzups(n: nat, os: Os): (w: seq<Arrival>)
    ensures |w| == n && forall i :: 0 <= i < n ==> w[i] == Arrival(Packet(PACKET_WAZZUP, []), os)
  {
    seq(n, _ => Arrival(Packet(PACKET_WAZZUP, []), os))
  }

  function Repeat(n: nat): (r: seq<bool>)
    ensures |r| == n && forall i :: 0 <= i < n ==> r[i]
  {
    seq(n, _ => true)
  }

  /** A pass without input in which the target polls ten times. */
  function IdleTick(): Tick {
    Tick(false, None, false, false, Repeat(POLLS))
  }

  /** A key is hit, but the device cannot be opened again. */
  function LostTick(): Tick {
    Tick(false, Some(Character), false, false, seq(POLLS, _ => false))
  }

  /** An idle poll is answered and counted. */
  lemma {:induction false} IdlePoll(e: Engine, inbox: seq<Arrival>)
    requires e.command == 0 && !e.processing && inbox != [] && inbox[0].packet.kind == PACKET_WAZZUP
    ensures var o := Process(e, inbox);
            o.engine == e.(counter := (e.counter + 1) % 0x1_0000_0000) && o.inbox == inbox[1..] && o.result.Some?
  {
    assert PollReply(Polled(e)) == Some(ReturnPacket(0, [], 0));
  }

  /** n WAZZUPs, each answered and counted. */
  lemma {:induction false} IdleVisits(s: Shell, n: nat, os: Os, rest: seq<Arrival>)
    requires !s.stuck && s.engine.command == 0 && !s.engine.processing && s.engine.counter + n < 0x1_0000_0000
    requires s.inbox == Wazzups(n, os) + rest
    ensures var s' := Visits(s, Repeat(n));
            && !s'.stuck && s'.engine == s.engine.(counter := s.engine.counter + n) && s'.inbox == rest
            && s'.timedout == s.timedout && s'.doloop == s.doloop
    decreases n
  {
    if n > 0 {
      var last := Wazzups(1, os) + rest;
      assert Repeat(n)[..n - 1] == Repeat(n - 1);
      assert Wazzups(n, os) + rest == Wazzups(n - 1, os) + last;
      IdleVisits(s, n - 1, os, last);
      var before := Visits(s, Repeat(n - 1));
      IdlePoll(before.engine, last);
      assert last[1..] == rest;
      assert Visits(s, Repeat(n)) == Visit(before, true);
    }
  }

  // ---- The idle counter ----

  /** WAZZUPs answered since the last file request was answered, and since the last command line, close
      or reinitialisation. */
  function IdlePolls(log: seq<Mark>): nat {
    if log == [] then 0 else Tally(IdlePolls(log[..|log| - 1]), log[|log| - 1])
  }

  function Tally(n: nat, m: Mark): nat {
    match m
    case Dispatch(t) => IdleAfter(n, t)
    case Touch => n
    case _ => 0
  }

  /** Every Close in the log comes after more than `timeout` idle polls. */
  ghost predicate ClosesJustified(log: seq<Mark>, timeout: u32) {
    forall i :: 0 <= i < |log| && log[i].Close? ==> IdlePolls(log[..i]) > timeout
  }

  /** From mark `from` on, a WAZZUP has arrived inside a benchmark. */
  ghost predicate PolledInBenchmark(log: seq<Mark>, from: nat) {
    exists i :: from <= i < |log| && log[i].Dispatch? && Nested(log[i].t)
  }

  function Packets(log: seq<Mark>): seq<Event> {
    if log == [] then []
    else
      var init, last := log[..|log| - 1], log[|log| - 1];
      if last.Dispatch? then Packets(init) + last.t else Packets(init)
  }

  /** The peer has kept to the grammar of sessions. */
  predicate PeerInTurn(log: seq<Mark>) {
    Phases(Ready, Packets(log)) != PeerFault
  }

  lemma LogStep(log: seq<Mark>, m: Mark)
    ensures Packets(log + [m]) == if m.Dispatch? then Packets(log) + m.t else Packets(log)
    ensures IdlePolls(log + [m]) == Tally(IdlePolls(log), m)
  {
    assert (log + [m])[..|log|] == log;
  }

  lemma BenchStep(log: seq<Mark>, m: Mark, from: nat)
    requires from <= |log|
    ensures PolledInBenchmark(log + [m], from) <==>
              PolledInBenchmark(log, from) || (m.Dispatch? && Nested(m.t))
  {
    var log' := log + [m];
    if PolledInBenchmark(log, from) {
      var i :| from <= i < |log| && log[i].Dispatch? && Nested(log[i].t);
      assert log'[i] == log[i];
    }
    if m.Dispatch? && Nested(m.t) {
      assert log'[|log|] == m;
    }
  }

  lemma CloseStep(log: seq<Mark>, m: Mark, timeout: u32)
    requires ClosesJustified(log, timeout) && (m.Close? ==> IdlePolls(log) > timeout)
    ensures ClosesJustified(log + [m], timeout)
  {
    forall i | 0 <= i < |log + [m]| && (log + [m])[i].Close?
      ensures IdlePolls((log + [m])[..i]) > timeout
    {
      assert (log + [m])[..i] == log[..i];
      assert log[..|log|] == log;
    }
  }

  /** What every reachable state keeps; `plain` says that no BENCHMARK command is ever given. */
  ghost predicate Good(s: Shell, timeout: u32, plain: bool) {
    && ClosesJustified(s.log, timeout)
    && (plain || PeerInTurn(s.log) ==> !PolledInBenchmark(s.log, 0))
    && (!s.stuck ==>
          && HostOk(s.engine) && (plain ==> s.engine.command != PACKET_BENCHMARK)
          && s.engine.counter <= IdlePolls(s.log)
          && (PeerInTurn(s.log) ==> Phases(Ready, Packets(s.log)) == Ready))
  }

  /** The counter is at most `bound`, unless a WAZZUP has arrived inside a benchmark since mark `from`. */
  ghost predicate Within(s: Shell, from: nat, bound: nat) {
    from <= |s.log| && (!s.stuck ==> PolledInBenchmark(s.log, from) || s.engine.counter <= bound)
  }

  lemma QuietStep(s: Shell, s': Shell, m: Mark, timeout: u32, plain: bool)
    requires Good(s, timeout, plain) && !m.Dispatch?
    requires s'.log == s.log + [m] && s'.stuck == s.stuck
    requires !s.stuck ==>
               && HostOk(s'.engine) && (plain ==> s'.engine.command != PACKET_BENCHMARK)
               && s'.engine.counter <= (if m.Touch? then s.engine.counter else 0)
    requires m.Close? ==> IdlePolls(s.log) > timeout
    ensures Good(s', timeout, plain)
  {
    LogStep(s.log, m);
    BenchStep(s.log, m, 0);
    CloseStep(s.log, m, timeout);
  }

  lemma {:induction false} DispatchGood(s: Shell, timeout: u32, plain: bool)
    requires Good(s, timeout, plain) && !s.stuck
    ensures var o := Process(s.engine, s.inbox);
            Good(s.(engine := o.engine, inbox := o.inbox, stuck := o.result.None?, log := s.log + [Dispatch(o.events)]),
                 timeout, plain)
  {
    var o := Process(s.engine, s.inbox);
    LogStep(s.log, Dispatch(o.events));
    BenchStep(s.log, Dispatch(o.events), 0);
    CloseStep(s.log, Dispatch(o.events), timeout);
    PhasesConcat(Ready, Packets(s.log), o.events);
    if !PeerInTurn(s.log) {
      FaultsStay(PeerFault, o.events);
    }
    DispatchTrace(s.engine, s.inbox);
    DispatchCommands(s.engine, s.inbox);
    DispatchAnswers(s.engine, s.inbox);
    DispatchCounter(s.engine, s.inbox, IdlePolls(s.log));
  }

  lemma VisitGood(s: Shell, timeout: u32, plain: bool, requested: bool)
    requires Good(s, timeout, plain)
    ensures Good(Visit(s, requested), timeout, plain)
  {
    if !s.stuck {
      var touched := s.(log := s.log + [Touch]);
      QuietStep(s, touched, Touch, timeout, plain);
      if requested {
        DispatchGood(touched, timeout, plain);
        var t := Process(s.engine, s.inbox).events;
        assert (s.log + [Touch]) + [Dispatch(t)] == s.log + [Touch, Dispatch(t)];
      }
    }
  }

  lemma VisitWithin(s: Shell, from: nat, bound: nat, requested: bool)
    requires Within(s, from, bound) && (!s.stuck ==> HostOk(s.engine))
    ensures Within(Visit(s, requested), from, bound + 1)
  {
    if !s.stuck {
      BenchStep(s.log, Touch, from);
      if requested {
        var t := Process(s.engine, s.inbox).events;
        DispatchCommands(s.engine, s.inbox);
        BenchStep(s.log + [Touch], Dispatch(t), from);
        assert (s.log + [Touch]) + [Dispatch(t)] == s.log + [Touch, Dispatch(t)];
      }
    }
  }

  lemma {:induction false} VisitsGood(s: Shell, timeout: u32, plain: bool, from: nat, bound: nat, requests: seq<bool>)
    requires Good(s, timeout, plain) && Within(s, from, bound)
    ensures Good(Visits(s, requests), timeout, plain) && Within(Visits(s, requests), from, bound + |requests|)
    decreases |requests|
  {
    if requests != [] {
      var init, r := requests[..|requests| - 1], requests[|requests| - 1];
      VisitsGood(s, timeout, plain, from, bound, init);
      VisitGood(Visits(s, init), timeout, plain, r);
      VisitWithin(Visits(s, init), from, bound + |init|, r);
    }
  }

  lemma CheckGood(s: Shell, timeout: u32, plain: bool, from: nat, bound: nat)
    requires Good(s, timeout, plain) && Within(s, from, bound)
    ensures Good(Check(s), timeout, plain) && Within(Check(s), from, bound)
  {
    if !s.stuck {
      QuietStep(s, Check(s), Touch, timeout, plain);
      BenchStep(s.log, Touch, from);
    }
  }

  lemma FirstPollGood(s: Shell, timeout: u32, plain: bool, from: nat, bound: nat, t: Tick)
    requires Good(s, timeout, plain) && Within(s, from, bound)
    ensures Good(FirstPoll(s, t), timeout, plain) && Within(FirstPoll(s, t), from, bound + 1)
  {
    if !s.timedout {
      CheckGood(s, timeout, plain, from, bound);
      VisitGood(Check(s), timeout, plain, t.requested);
      VisitWithin(Check(s), from, bound, t.requested);
    }
  }

  lemma ReopenGood(s: Shell, timeout: u32, plain: bool, from: nat, t: Tick)
    requires Good(s, timeout, plain) && from <= |s.log| && !s.stuck
    ensures Good(Reopen(s, t), timeout, plain) && Within(Reopen(s, t), from, 1)
  {
    var up := s.(engine := s.engine.(counter := 0), log := s.log + [Reinit(t.reinitOk)]);
    QuietStep(s, up, Reinit(t.reinitOk), timeout, plain);
    CheckGood(up, timeout, plain, from, 0);
    VisitGood(Check(up), timeout, plain, t.requestedAgain);
    VisitWithin(Check(up), from, 0, t.requestedAgain);
  }

  predicate PlainTick(t: Tick) {
    t.key.Some? && !t.key.value.Character? ==> t.key.value.action != Some(Issue(PACKET_BENCHMARK))
  }

  lemma InputGood(s: Shell, timeout: u32, plain: bool, from: nat, bound: nat, t: Tick)
    requires Good(s, timeout, plain) && Within(s, from, bound)
    requires t.key.Some? && ValidTick(t) && (plain ==> PlainTick(t))
    ensures Good(Input(s, t.key.value), timeout, plain) && Within(Input(s, t.key.value), from, bound)
  {
    var s' := Input(s, t.key.value);
    if t.key.value.Line? && !s.stuck {
      QuietStep(s, s', CommandLine, timeout, plain);
      BenchStep(s.log, CommandLine, from);
    }
  }

  lemma UserInputGood(s: Shell, timeout: u32, plain: bool, from: nat, bound: nat, t: Tick)
    requires Good(s, timeout, plain) && Within(s, from, bound) && bound > 0
    requires ValidTick(t) && (plain ==> PlainTick(t))
    ensures Good(UserInput(s, t), timeout, plain) && Within(UserInput(s, t), from, bound)
  {
    if !s.stuck && t.key.Some? {
      if s.timedout {
        ReopenGood(s, timeout, plain, from, t);
        InputGood(Reopen(s, t), timeout, plain, from, bound, t);
      } else {
        InputGood(s, timeout, plain, from, bound, t);
      }
    }
  }

  lemma CheckTimeoutGood(s: Shell, timeout: u32, plain: bool)
    requires Good(s, timeout, plain)
    ensures Good(CheckTimeout(s, timeout), timeout, plain)
  {
    var s' := CheckTimeout(s, timeout);
    if s'.log != s.log {
      QuietStep(s, s', Close, timeout, plain);
    }
  }

  lemma PassGood(s: Shell, timeout: u32, plain: bool, t: Tick)
    requires Good(s, timeout, plain) && ValidTick(t) && (plain ==> PlainTick(t))
    ensures var s' := Pass(s, timeout, t); Good(s', timeout, plain) && (timeout > 0 && !s'.stuck ==> s'.engine.counter <= timeout)
  {
    var from: nat, bound: nat := |s.log|, s.engine.counter;
    var s1 := FirstPoll(s, t);
    var s2 := UserInput(s1, t);
    FirstPollGood(s, timeout, plain, from, bound, t);
    UserInputGood(s1, timeout, plain, from, bound + 1, t);
    if !s2.timedout {
      VisitsGood(s2, timeout, plain, from, bound + 1, t.more);
    }
    CheckTimeoutGood(MorePolls(s2, t), timeout, plain);
  }

  lemma StartupGood(paths: List, inbox: seq<Arrival>, requested: bool, timeout: u32, plain: bool)
    ensures var s := Startup(paths, inbox, requested);
            Good(s, timeout, plain) && (!s.stuck ==> s.engine.counter <= 1)
  {
    var s := Shell(Engine(0, None, false, 0, false, paths), inbox, false, true, false, []);
    CheckGood(s, timeout, plain, 0, 0);
    VisitGood(Check(s), timeout, plain, requested);
    DispatchCommands(s.engine, inbox);
  }

  predicate PlainTicks(ticks: seq<Tick>) {
    forall i :: 0 <= i < |ticks| ==> PlainTick(ticks[i])
  }

  lemma LoopGood(paths: List, inbox: seq<Arrival>, requested: bool, timeout: u32, ticks: seq<Tick>, plain: bool)
    requires ValidTicks(ticks) && (plain ==> PlainTicks(ticks))
    ensures var s := Loop(Startup(paths, inbox, requested), timeout, ticks);
            Good(s, timeout, plain) && (timeout > 0 && !s.stuck ==> s.engine.counter <= timeout)
  {
    StartupGood(paths, inbox, requested, timeout, plain);
    PassesGood(Startup(paths, inbox, requested), timeout, plain, ticks);
  }

  lemma {:induction false} PassesGood(s: Shell, timeout: u32, plain: bool, ticks: seq<Tick>)
    requires Good(s, timeout, plain) && (timeout > 0 && !s.stuck ==> s.engine.counter <= timeout)
    requires ValidTicks(ticks) && (plain ==> PlainTicks(ticks))
    ensures var s' := Loop(s, timeout, ticks);
            Good(s', timeout, plain) && (timeout > 0 && !s'.stuck ==> s'.engine.counter <= timeout)
    decreases |ticks|
  {
    if ticks != [] {
      var init, t := ticks[..|ticks| - 1], ticks[|ticks| - 1];
      PassesGood(s, timeout, plain, init);
      var before := Loop(s, timeout, init);
      if !before.stuck && before.doloop {
        PassGood(before, timeout, plain, t);
      }
    }
  }

  /** For every peer, benchmarks or not: the counter is at most `timeout` whenever the loop is at its head,
      and a timeout close comes only after more than `timeout` WAZZUPs have been answered since the
      last file request, command line, close or reinitialisation. */
  lemma IdleTimeout(paths: List, inbox: seq<Arrival>, requested: bool, timeout: u32, ticks: seq<Tick>)
    requires timeout > 0 && ValidTicks(ticks)
    ensures var s := Loop(Startup(paths, inbox, requested), timeout, ticks);
            ClosesJustified(s.log, timeout) && (!s.stuck ==> s.engine.counter <= timeout)
  {
    LoopGood(paths, inbox, requested, timeout, ticks, false);
  }

  /** Inside a pass the counter peaks at no more than timeout + 11, one poll at the head and ten more, for
      every peer and after whatever has happened before, unless in this very pass a WAZZUP arrives
      inside a benchmark. */
  lemma CounterPeak(paths: List, inbox: seq<Arrival>, requested: bool, timeout: u32, ticks: seq<Tick>, t: Tick, n: nat)
    requires timeout > 0 && ValidTicks(ticks) && ValidTick(t) && n <= POLLS
    requires !Loop(Startup(paths, inbox, requested), timeout, ticks).stuck
    ensures var s := Loop(Startup(paths, inbox, requested), timeout, ticks);
            var s1 := FirstPoll(s, t);
            var s2 := UserInput(s1, t);
            && Within(s1, |s.log|, timeout + 1)
            && Within(s2, |s.log|, timeout + 1)
            && (!s2.timedout ==> Within(Visits(s2, t.more[..n]), |s.log|, timeout + 1 + n))
  {
    var s := Loop(Startup(paths, inbox, requested), timeout, ticks);
    var s1 := FirstPoll(s, t);
    LoopGood(paths, inbox, requested, timeout, ticks, false);
    FirstPollGood(s, timeout, false, |s.log|, timeout, t);
    UserInputGood(s1, timeout, false, |s.log|, timeout + 1, t);
    if !UserInput(s1, t).timedout {
      VisitsGood(UserInput(s1, t), timeout, false, |s.log|, timeout + 1, t.more[..n]);
    }
  }

  /** That takes both a BENCHMARK command and a peer out of turn. */
  lemma NestingNeedsBenchmarkAndFault(paths: List, inbox: seq<Arrival>, requested: bool, timeout: u32, ticks: seq<Tick>)
    requires ValidTicks(ticks)
    ensures var log := Loop(Startup(paths, inbox, requested), timeout, ticks).log;
            PolledInBenchmark(log, 0) ==> !PlainTicks(ticks) && !PeerInTurn(log)
  {
    LoopGood(paths, inbox, requested, timeout, ticks, PlainTicks(ticks));
  }

  function Returns(n: nat, os: Os): (r: seq<Arrival>)
    ensures |r| == n && forall i :: 0 <= i < n ==> r[i] == Arrival(Packet(PACKET_RETURN, []), os)
  {
    seq(n, _ => Arrival(Packet(PACKET_RETURN, []), os))
  }

  /** And then there is no bound: k WAZZUPs nested in one dispatch all count. */
  lemma {:induction false} NestedPollsAddUp(e: Engine, k: nat, os: Os, rest: seq<Arrival>)
    requires k > 0 && e.command == PACKET_BENCHMARK && !e.processing
    ensures var o := Process(e, Wazzups(k, os) + Returns(k, os) + rest);
            && o.result == Some(PACKET_WAZZUP) && o.inbox == rest
            && o.engine.counter == (e.counter + k) % 0x1_0000_0000 && !o.engine.processing
    decreases k
  {
    var inbox, inner := Wazzups(k, os) + Returns(k, os) + rest, Returns(1, os) + rest;
    NestedInbox(k, os, rest);
    if k == 1 {
      BenchmarkReturns(e, inbox);
    } else {
      NestedPollsAddUp(Polled(e).(benchmarking := true), k - 1, os, inner);
      NestedReturns(e, inbox, inner);
      WrapsOnce(e.counter, k);
    }
  }

  lemma WrapsOnce(n: nat, k: nat)
    requires k > 0
    ensures ((n + 1) % 0x1_0000_0000 + (k - 1)) % 0x1_0000_0000 == (n + k) % 0x1_0000_0000
  {
  }

  /** A benchmark that is over at once. */
  lemma {:induction false} BenchmarkReturns(e: Engine, inbox: seq<Arrival>)
    requires e.command == PACKET_BENCHMARK
    requires |inbox| > 1 && inbox[0].packet.kind == PACKET_WAZZUP && inbox[1].packet.kind == PACKET_RETURN
    ensures var o, e1 := Process(e, inbox), Polled(e);
            && o.result == Some(PACKET_WAZZUP) && o.inbox == inbox[2..]
            && o.engine.counter == e1.counter && o.engine.processing == e1.processing
  {
    var e1 := Polled(e).(benchmarking := true);
    BenchShape(e, inbox);
    BenchmarkUnfold(e1, inbox[1..]);
    ReturnSkipped(e1, inbox[1..]);
    assert inbox[1..][1..] == inbox[2..];
  }

  /** A benchmark that is over after one dispatch. */
  lemma {:induction false} NestedReturns(e: Engine, inbox: seq<Arrival>, inner: seq<Arrival>)
    requires e.command == PACKET_BENCHMARK && inbox != [] && inbox[0].packet.kind == PACKET_WAZZUP
    requires inner != [] && inner[0].packet.kind == PACKET_RETURN
    requires var o := Process(Polled(e).(benchmarking := true), inbox[1..]); o.result == Some(PACKET_WAZZUP) && o.inbox == inner
    ensures var o, o1 := Process(e, inbox), Process(Polled(e).(benchmarking := true), inbox[1..]);
            && o.result == Some(PACKET_WAZZUP) && o.inbox == inner[1..]
            && o.engine.counter == o1.engine.counter && o.engine.processing == o1.engine.processing
  {
    var e1 := Polled(e).(benchmarking := true);
    var o1 := Process(e1, inbox[1..]);
    BenchShape(e, inbox);
    BenchmarkUnfold(e1, inbox[1..]);
    BenchmarkUnfold(o1.engine, inner);
    ReturnSkipped(o1.engine, inner);
  }

  lemma NestedInbox(k: nat, os: Os, rest: seq<Arrival>)
    requires k > 0
    ensures var inbox, inner := Wazzups(k, os) + Returns(k, os) + rest, Returns(1, os) + rest;
            && inbox[0].packet.kind == PACKET_WAZZUP && inner[0].packet.kind == PACKET_RETURN && inner[1..] == rest
            && inbox[1..] == if k == 1 then inner else Wazzups(k - 1, os) + Returns(k - 1, os) + inner
  {
  }

  lemma {:induction false} ReturnSkipped(e: Engine, inbox: seq<Arrival>)
    requires inbox != [] && inbox[0].packet.kind == PACKET_RETURN
    ensures Process(e, inbox) == Outcome(e, inbox[1..], [Got(inbox[0].packet)], Some(PACKET_RETURN))
  {
  }
}
