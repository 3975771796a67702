/**
 How npsh ends (npsh.c): after the loop main closes the link once more, and nothing tells it whether the
 handle is still open.
*/
module NpshQuit {
  import opened Bytes
  import opened Lists
  import opened Wire
  import opened Naplink
  import opened RpcTrace
  import opened Npsh
  import opened NpshProperties

  // ---- The last reinitialisation ----

  /** The last reinitialisation, if there was one, found the device. */
  function LastReinitOk(log: seq<Mark>): bool {
    if log == [] then true
    else if log[|log| - 1].Reinit? then log[|log| - 1].ok
    else LastReinitOk(log[..|log| - 1])
  }

  lemma {:induction false} HandleOpenIff(log: seq<Mark>)
    requires LinkPhases(log) != Broken
    ensures HandleOpen(log) <==> LinkPhases(log) == Up && LastReinitOk(log)
    decreases |log|
  {
    if log != [] {
      HandleOpenIff(log[..|log| - 1]);
    }
  }

  /** What a mark that neither closes nor opens the link leaves alone. */
  lemma SameHandle(log: seq<Mark>, m: Mark)
    requires !m.Close? && !m.Reinit?
    ensures HandleOpen(log + [m]) == HandleOpen(log) && LastReinitOk(log + [m]) == LastReinitOk(log)
  {
    assert (log + [m])[..|log|] == log;
  }

  lemma VisitSameHandle(s: Shell, requested: bool)
    ensures var s' := Visit(s, requested);
            HandleOpen(s'.log) == HandleOpen(s.log) && LastReinitOk(s'.log) == LastReinitOk(s.log)
  {
    if !s.stuck {
      SameHandle(s.log, Touch);
      if requested {
        var t := Process(s.engine, s.inbox).events;
        SameHandle(s.log + [Touch], Dispatch(t));
        assert (s.log + [Touch]) + [Dispatch(t)] == s.log + [Touch, Dispatch(t)];
      }
    }
  }

  lemma {:induction false} VisitsSameHandle(s: Shell, requests: seq<bool>)
    ensures var s' := Visits(s, requests);
            && HandleOpen(s'.log) == HandleOpen(s.log) && LastReinitOk(s'.log) == LastReinitOk(s.log)
            && s'.timedout == s.timedout && s'.doloop == s.doloop && (s.stuck ==> s'.stuck)
    decreases |requests|
  {
    if requests != [] {
      VisitsSameHandle(s, requests[..|requests| - 1]);
      VisitSameHandle(Visits(s, requests[..|requests| - 1]), requests[|requests| - 1]);
    }
  }

  lemma FirstPollSameHandle(s: Shell, t: Tick)
    requires !s.timedout
    ensures var s' := FirstPoll(s, t);
            HandleOpen(s'.log) == HandleOpen(s.log) && LastReinitOk(s'.log) == LastReinitOk(s.log) && !s'.timedout
  {
    SameHandle(s.log, Touch);
    VisitSameHandle(Check(s), t.requested);
  }

  lemma InputSameHandle(s: Shell, t: Tick)
    requires !s.timedout
    ensures var s' := UserInput(s, t);
            HandleOpen(s'.log) == HandleOpen(s.log) && LastReinitOk(s'.log) == LastReinitOk(s.log) && !s'.timedout
  {
    SameHandle(s.log, CommandLine);
  }

  /** Up to the timeout check, a pass that starts with the link up leaves the handle alone. */
  lemma PassSameHandle(s: Shell, t: Tick)
    requires !s.timedout
    ensures var s' := MorePolls(UserInput(FirstPoll(s, t), t), t);
            && HandleOpen(s'.log) == HandleOpen(s.log) && LastReinitOk(s'.log) == LastReinitOk(s.log) && !s'.timedout
  {
    FirstPollSameHandle(s, t);
    InputSameHandle(FirstPoll(s, t), t);
    VisitsSameHandle(UserInput(FirstPoll(s, t), t), t.more);
  }

  // ---- Runs that end ----

  predicate Quits(t: Tick) {
    ValidTick(t) && t.key.Some? && !t.key.value.Character? && t.key.value.quits
  }

  /** The run of `ticks` goes on to the pass t, in which a quit is given, and comes to the end of it. */
  ghost predicate Ends(paths: List, inbox: seq<Arrival>, requested: bool, timeout: u32, ticks: seq<Tick>, t: Tick) {
    var s := Loop(Startup(paths, inbox, requested), timeout, ticks);
    ValidTicks(ticks) && Quits(t) && s.doloop && !s.stuck && !Pass(s, timeout, t).stuck
  }

  /** Up to the end of a pass the loop goes on, unless a quit is given in it. */
  lemma PassGoesOn(s: Shell, timeout: u32, t: Tick)
    requires s.doloop && ValidTick(t) && !Pass(s, timeout, t).stuck
    ensures Pass(s, timeout, t).doloop <==> !Quits(t)
  {
    var s1 := FirstPoll(s, t);
    var s2 := UserInput(s1, t);
    assert s1.doloop == s.doloop;
    VisitsSameHandle(s2, t.more);
  }

  lemma {:induction false} LoopGoesOn(s: Shell, timeout: u32, ticks: seq<Tick>)
    requires s.doloop && ValidTicks(ticks) && !Loop(s, timeout, ticks).stuck
    ensures Loop(s, timeout, ticks).doloop <==> forall i :: 0 <= i < |ticks| ==> !Quits(ticks[i])
    decreases |ticks|
  {
    if ticks != [] {
      var init, t := ticks[..|ticks| - 1], ticks[|ticks| - 1];
      LoopGoesOn(s, timeout, init);
      var before := Loop(s, timeout, init);
      if before.doloop && !before.stuck {
        PassGoesOn(before, timeout, t);
      }
      assert forall i :: 0 <= i < |init| ==> init[i] == ticks[i];
    }
  }

  /** In every run that is not blocked, the loop is still going exactly if no quit has been given so far,
      neither by a line nor by a bound key. */
  lemma GoesOnIffNoQuit(paths: List, inbox: seq<Arrival>, requested: bool, timeout: u32, ticks: seq<Tick>)
    requires ValidTicks(ticks) && !Loop(Startup(paths, inbox, requested), timeout, ticks).stuck
    ensures Loop(Startup(paths, inbox, requested), timeout, ticks).doloop <==> forall i :: 0 <= i < |ticks| ==> !Quits(ticks[i])
  {
    LoopGoesOn(Startup(paths, inbox, requested), timeout, ticks);
  }

  /** The pass in which a quit is given is the last one: whatever would come after it, the run ends in the state
      after that pass. */
  lemma QuitEndsLoop(paths: List, inbox: seq<Arrival>, requested: bool, timeout: u32, ticks: seq<Tick>, t: Tick, more: seq<Tick>)
    requires Ends(paths, inbox, requested, timeout, ticks, t)
    ensures var start := Startup(paths, inbox, requested);
            Loop(start, timeout, ticks + [t] + more) == Pass(Loop(start, timeout, ticks), timeout, t)
  {
    var start, all, n := Startup(paths, inbox, requested), ticks + [t] + more, |ticks| + 1;
    assert all[..n] == ticks + [t] && (ticks + [t])[..|ticks|] == ticks;
    PassGoesOn(Loop(start, timeout, ticks), timeout, t);
    LoopStays(start, timeout, all, n);
  }

  /** The marks main has left when it closes the link for good. */
  function FinalLog(paths: List, inbox: seq<Arrival>, requested: bool, timeout: u32, ticks: seq<Tick>, t: Tick): seq<Mark> {
    Pass(Loop(Startup(paths, inbox, requested), timeout, ticks), timeout, t).log
  }

  /** The timeout check of pass t finds the counter above the timeout. */
  predicate Expires(s: Shell, timeout: u32, t: Tick) {
    timeout > 0 && MorePolls(UserInput(FirstPoll(s, t), t), t).engine.counter > timeout
  }

  /** For every run and every key that quits, typed or bound: the final close finds an open handle if and only
      if the last reinitialisation found the device and the last timeout check did not close the link. */
  lemma FinalCloseIff(paths: List, inbox: seq<Arrival>, requested: bool, timeout: u32, ticks: seq<Tick>, t: Tick)
    requires Ends(paths, inbox, requested, timeout, ticks, t)
    ensures var s := Loop(Startup(paths, inbox, requested), timeout, ticks);
            var log := FinalLog(paths, inbox, requested, timeout, ticks, t);
            HandleOpen(log) <==> LastReinitOk(log) && !Expires(s, timeout, t)
  {
    var s := Loop(Startup(paths, inbox, requested), timeout, ticks);
    var s1 := FirstPoll(s, t);
    LoopLink(paths, inbox, requested, timeout, ticks);
    FirstPollLink(s, t);
    QuitState(s1, t);
    VisitsSameHandle(UserInput(s1, t), t.more);
    PassLink(s, timeout, t);
    HandleOpenIff(Pass(s, timeout, t).log);
  }

  /** After a quit the link is up and QUIT in the slot; after a typed one the counter is 0. */
  lemma QuitState(s: Shell, t: Tick)
    requires HeadLink(s) && Quits(t)
    ensures var s2 := UserInput(s, t);
            !s2.stuck ==> !s2.timedout && s2.engine.command == PACKET_QUIT && (t.key.value.Line? ==> s2.engine.counter == 0)
    ensures s.stuck ==> UserInput(s, t).stuck
  {
    if !s.stuck && s.timedout {
      ReopenLink(s, t);
    }
  }

  /** With no BENCHMARK in the slot each poll counts one at most. */
  lemma {:induction false} PlainVisits(s: Shell, requests: seq<bool>)
    requires !s.stuck ==> HostOk(s.engine) && s.engine.command != PACKET_BENCHMARK
    ensures var s' := Visits(s, requests);
            !s'.stuck ==> && !s.stuck && HostOk(s'.engine) && s'.engine.command != PACKET_BENCHMARK
                          && s'.engine.counter <= s.engine.counter + |requests|
    decreases |requests|
  {
    if requests != [] {
      var before := Visits(s, requests[..|requests| - 1]);
      PlainVisits(s, requests[..|requests| - 1]);
      if !before.stuck {
        DispatchCommands(before.engine, before.inbox);
        DispatchAnswers(before.engine, before.inbox);
      }
    }
  }

  lemma TypedQuitDoesNotExpire(paths: List, inbox: seq<Arrival>, requested: bool, timeout: u32, ticks: seq<Tick>, t: Tick)
    requires Ends(paths, inbox, requested, timeout, ticks, t) && t.key.value.Line? && (timeout == 0 || timeout >= POLLS)
    ensures !Expires(Loop(Startup(paths, inbox, requested), timeout, ticks), timeout, t)
  {
    var s := Loop(Startup(paths, inbox, requested), timeout, ticks);
    var s1 := FirstPoll(s, t);
    LoopGood(paths, inbox, requested, timeout, ticks, false);
    FirstPollGood(s, timeout, false, |s.log|, s.engine.counter, t);
    UserInputGood(s1, timeout, false, |s.log|, s.engine.counter + 1, t);
    LoopLink(paths, inbox, requested, timeout, ticks);
    FirstPollLink(s, t);
    QuitState(s1, t);
    PlainVisits(UserInput(s1, t), t.more);
  }

  // ---- Timeouts that never fire ----

  /** The counter is an unsigned int and cannot exceed the largest one. */
  predicate NeverFires(timeout: u32) {
    timeout == 0 || timeout == 0xFFFF_FFFF
  }

  ghost predicate NeverClosed(s: Shell) {
    !s.timedout && HandleOpen(s.log)
  }

  lemma StartupOpen(paths: List, inbox: seq<Arrival>, requested: bool)
    ensures NeverClosed(Startup(paths, inbox, requested))
  {
    var boot := Shell(Engine(0, None, false, 0, false, paths), inbox, false, true, false, []);
    SameHandle([], Touch);
    VisitSameHandle(Check(boot), requested);
  }

  lemma PassStaysOpen(s: Shell, timeout: u32, t: Tick)
    requires NeverClosed(s) && NeverFires(timeout)
    ensures NeverClosed(Pass(s, timeout, t))
  {
    PassSameHandle(s, t);
    var s3 := MorePolls(UserInput(FirstPoll(s, t), t), t);
    assert CheckTimeout(s3, timeout) == s3;
  }

  lemma {:induction false} StaysOpen(paths: List, inbox: seq<Arrival>, requested: bool, timeout: u32, ticks: seq<Tick>)
    requires NeverFires(timeout)
    ensures NeverClosed(Loop(Startup(paths, inbox, requested), timeout, ticks))
    decreases |ticks|
  {
    StartupOpen(paths, inbox, requested);
    if ticks != [] {
      var init := ticks[..|ticks| - 1];
      StaysOpen(paths, inbox, requested, timeout, init);
      PassStaysOpen(Loop(Startup(paths, inbox, requested), timeout, init), timeout, ticks[|ticks| - 1]);
    }
  }

  // ---- Over all runs ----

  /** In every run that ends by a quit of this kind, and with a device at hand if that is given, the final
      close finds an open handle. */
  ghost predicate AlwaysOpenAtTheEnd(timeout: u32, typed: bool, deviceThere: bool) {
    forall paths, inbox, requested, ticks, t ::
      Ends(paths, inbox, requested, timeout, ticks, t) && (t.key.value.Line? <==> typed)
      && (deviceThere ==> LastReinitOk(FinalLog(paths, inbox, requested, timeout, ticks, t)))
      ==> HandleOpen(FinalLog(paths, inbox, requested, timeout, ticks, t))
  }

  /** The final close is never a second one if and only if the timeout never fires, or the quit is typed, the
      last reinitialisation found the device and the timeout is at least the ten polls after the quit. */
  lemma QuitClosesOnceIff(timeout: u32, typed: bool, deviceThere: bool)
    ensures AlwaysOpenAtTheEnd(timeout, typed, deviceThere) <==>
              NeverFires(timeout) || (typed && deviceThere && timeout >= POLLS)
  {
    if NeverFires(timeout) || (typed && deviceThere && timeout >= POLLS) {
      forall paths, inbox, requested, ticks, t |
        Ends(paths, inbox, requested, timeout, ticks, t) && (t.key.value.Line? <==> typed)
        && (deviceThere ==> LastReinitOk(FinalLog(paths, inbox, requested, timeout, ticks, t)))
        ensures HandleOpen(FinalLog(paths, inbox, requested, timeout, ticks, t))
      {
        if NeverFires(timeout) {
          StaysOpen(paths, inbox, requested, timeout, ticks);
          PassStaysOpen(Loop(Startup(paths, inbox, requested), timeout, ticks), timeout, t);
        } else {
          FinalCloseIff(paths, inbox, requested, timeout, ticks, t);
          TypedQuitDoesNotExpire(paths, inbox, requested, timeout, ticks, t);
        }
      }
    } else {
      var os := Os((_, _) => -1, _ => -1, (_, _) => ReadError, (_, _) => -1, (_, _, _) => -1, _ => 0);
      if typed && !deviceThere {
        LostDeviceClosesTwice(timeout, os);
      } else if typed {
        LateCloseAfterQuit(timeout, 0, Line(Some(Issue(PACKET_QUIT)), true), timeout + 1, os);
      } else {
        LateCloseAfterQuit(timeout, timeout / POLLS, Meta(Some(Issue(PACKET_QUIT)), true), timeout + 1 - timeout / POLLS * POLLS, os);
      }
    }
  }

  // ---- The runs that close twice ----

  /** n polls of ten with an answer, the others without one. */
  function Polls(n: nat): (r: seq<bool>)
    requires n <= POLLS
    ensures |r| == POLLS && r[..n] == Repeat(n) && forall i :: n <= i < POLLS ==> !r[i]
  {
    Repeat(n) + seq(POLLS - n, _ => false)
  }

  function KeyTick(key: Option<Key>, n: nat): Tick
    requires n <= POLLS
  {
    Tick(false, key, false, false, Polls(n))
  }

  /** A state between two passes of a run without input. */
  ghost predicate Resting(s: Shell, counter: nat, inbox: seq<Arrival>) {
    && !s.stuck && !s.timedout && s.doloop
    && s.engine.command == 0 && !s.engine.processing && s.engine.counter == counter && s.inbox == inbox
    && LastReinitOk(s.log)
  }

  lemma {:induction false} SilentVisits(s: Shell, requests: seq<bool>)
    requires forall i :: 0 <= i < |requests| ==> !requests[i]
    ensures var s' := Visits(s, requests);
            s'.engine == s.engine && s'.inbox == s.inbox && s'.stuck == s.stuck && s'.timedout == s.timedout && s'.doloop == s.doloop
    decreases |requests|
  {
    if requests != [] {
      SilentVisits(s, requests[..|requests| - 1]);
    }
  }

  lemma {:induction false} VisitsConcat(s: Shell, a: seq<bool>, b: seq<bool>)
    ensures Visits(s, a + b) == Visits(Visits(s, a), b)
    decreases |b|
  {
    if b == [] {
      assert a + b == a;
    } else {
      assert (a + b)[..|a + b| - 1] == a + b[..|b| - 1];
      VisitsConcat(s, a, b[..|b| - 1]);
    }
  }

  /** A pass without input in which n of the ten polls are answered. */
  lemma IdlePass(s: Shell, timeout: u32, n: nat, os: Os, rest: seq<Arrival>)
    requires n <= POLLS && Resting(s, s.engine.counter, Wazzups(n, os) + rest)
    requires s.engine.counter + n < 0x1_0000_0000
    ensures var s' := Pass(s, timeout, KeyTick(None, n));
            if timeout > 0 && s.engine.counter + n > timeout then
              && !s'.stuck && s'.timedout && s'.doloop && s'.engine.command == 0 && !s'.engine.processing
              && s'.engine.counter == 0 && s'.inbox == rest
            else Resting(s', s.engine.counter + n, rest)
  {
    var t := KeyTick(None, n);
    var s2 := UserInput(FirstPoll(s, t), t);
    assert s2.engine == s.engine && s2.inbox == s.inbox && !s2.stuck && !s2.timedout && s2.doloop;
    IdleVisits(s2, n, os, rest);
    SilentVisits(Visits(s2, Repeat(n)), seq(POLLS - n, _ => false));
    VisitsConcat(s2, Repeat(n), seq(POLLS - n, _ => false));
    PassSameHandle(s, t);
  }

  /** k passes in which all polls are answered, with the timeout not yet reached. */
  lemma {:induction false} IdlePasses(s: Shell, timeout: u32, k: nat, os: Os, rest: seq<Arrival>)
    requires Resting(s, 0, Wazzups(POLLS * k, os) + rest) && POLLS * k <= timeout
    ensures Resting(Loop(s, timeout, IdleTicks(k)), POLLS * k, rest)
    decreases k
  {
    if k > 0 {
      var more := Wazzups(POLLS, os) + rest;
      assert Wazzups(POLLS * k, os) + rest == Wazzups(POLLS * (k - 1), os) + more;
      IdlePasses(s, timeout, k - 1, os, more);
      assert IdleTicks(k)[..k - 1] == IdleTicks(k - 1);
      IdlePass(Loop(s, timeout, IdleTicks(k - 1)), timeout, POLLS, os, rest);
    }
  }

  function IdleTicks(k: nat): (ticks: seq<Tick>)
    ensures |ticks| == k && ValidTicks(ticks) && forall i :: 0 <= i < k ==> ticks[i] == KeyTick(None, POLLS)
  {
    seq(k, _ => KeyTick(None, POLLS))
  }

  lemma StartupRests(inbox: seq<Arrival>)
    ensures Resting(Startup(Nil, inbox, false), 0, inbox)
  {
    SameHandle([], Touch);
    SameHandle([] + [Touch], Touch);
  }

  /** The target takes the QUIT, answers it and goes on polling. */
  function QuitInbox(n: nat, os: Os): seq<Arrival>
    requires n > 0
  {
    Wazzups(1, os) + Returns(1, os) + Wazzups(n - 1, os)
  }

  lemma {:induction false} QuitPoll(e: Engine, inbox: seq<Arrival>)
    requires e.command == PACKET_QUIT && !e.processing && |inbox| > 1 && inbox[0].packet.kind == PACKET_WAZZUP
    ensures var o := Process(e, inbox);
            && o.engine == e.(command := 0, counter := (e.counter + 1) % 0x1_0000_0000)
            && o.inbox == inbox[2..] && o.result.Some?
  {
    assert PollReply(Polled(e)) == Some(Packet(PACKET_QUIT, []));
  }

  lemma QuitVisit(s: Shell, n: nat, os: Os)
    requires !s.stuck && s.engine.command == PACKET_QUIT && !s.engine.processing
    requires 0 < n && s.engine.counter + 1 < 0x1_0000_0000 && s.inbox == QuitInbox(n, os)
    ensures var s' := Visits(s, [true]);
            && !s'.stuck && s'.engine == s.engine.(command := 0, counter := s.engine.counter + 1)
            && s'.inbox == Wazzups(n - 1, os) + []
  {
    QuitPoll(s.engine, s.inbox);
    assert QuitInbox(n, os)[2..] == Wazzups(n - 1, os) + [];
    assert [true][..0] == [];
    assert Visits(s, [true]) == Visit(Visits(s, []), true);
  }

  lemma QuitRepeat(s: Shell, n: nat, os: Os)
    requires !s.stuck && s.engine.command == PACKET_QUIT && !s.engine.processing
    requires 0 < n && s.engine.counter + n < 0x1_0000_0000 && s.inbox == QuitInbox(n, os)
    ensures var s' := Visits(s, Repeat(n)); !s'.stuck && s'.engine.counter == s.engine.counter + n
  {
    QuitVisit(s, n, os);
    IdleVisits(Visits(s, [true]), n - 1, os, []);
    VisitsConcat(s, [true], Repeat(n - 1));
    assert [true] + Repeat(n - 1) == Repeat(n);
  }

  lemma QuitVisits(s: Shell, n: nat, os: Os)
    requires !s.stuck && s.engine.command == PACKET_QUIT && !s.engine.processing
    requires 0 < n <= POLLS && s.engine.counter + n < 0x1_0000_0000 && s.inbox == QuitInbox(n, os)
    ensures var s' := Visits(s, Polls(n)); !s'.stuck && s'.engine.counter == s.engine.counter + n
  {
    QuitRepeat(s, n, os);
    SilentVisits(Visits(s, Repeat(n)), seq(POLLS - n, _ => false));
    VisitsConcat(s, Repeat(n), seq(POLLS - n, _ => false));
  }

  /** k idle passes, then a quit followed by n answered polls, which take the counter above the timeout: the
      link is closed by the check and again at the end. After a typed quit the counter starts from 0. */
  lemma LateCloseAfterQuit(timeout: u32, k: nat, key: Key, n: nat, os: Os)
    requires 0 < timeout < 0xFFFF_FFFF && POLLS * k <= timeout && 0 < n <= POLLS
    requires key == Meta(Some(Issue(PACKET_QUIT)), true) || (key == Line(Some(Issue(PACKET_QUIT)), true) && k == 0)
    requires POLLS * k + n == timeout + 1
    ensures var inbox := Wazzups(POLLS * k, os) + QuitInbox(n, os);
            var log := FinalLog(Nil, inbox, false, timeout, IdleTicks(k), KeyTick(Some(key), n));
            && Ends(Nil, inbox, false, timeout, IdleTicks(k), KeyTick(Some(key), n))
            && LastReinitOk(log) && !HandleOpen(log)
  {
    var inbox, t := Wazzups(POLLS * k, os) + QuitInbox(n, os), KeyTick(Some(key), n);
    var start := Startup(Nil, inbox, false);
    StartupRests(inbox);
    IdlePasses(start, timeout, k, os, QuitInbox(n, os));
    var s := Loop(start, timeout, IdleTicks(k));
    QuitPassExpires(s, timeout, key, n, os);
    PassSameHandle(s, t);
    LastReinitStays(MorePolls(UserInput(FirstPoll(s, t), t), t), timeout);
    FinalCloseIff(Nil, inbox, false, timeout, IdleTicks(k), t);
  }

  lemma QuitPassExpires(s: Shell, timeout: u32, key: Key, n: nat, os: Os)
    requires 0 < n <= POLLS && Resting(s, s.engine.counter, QuitInbox(n, os))
    requires key == Meta(Some(Issue(PACKET_QUIT)), true) || (key == Line(Some(Issue(PACKET_QUIT)), true) && s.engine.counter == 0)
    requires 0 < timeout < s.engine.counter + n < 0x1_0000_0000
    ensures Expires(s, timeout, KeyTick(Some(key), n)) && !Pass(s, timeout, KeyTick(Some(key), n)).stuck
  {
    var t := KeyTick(Some(key), n);
    var s2 := UserInput(FirstPoll(s, t), t);
    assert s2.engine == s.engine.(command := PACKET_QUIT) && s2.inbox == s.inbox && !s2.stuck && !s2.timedout;
    QuitVisits(s2, n, os);
  }

  lemma LastReinitStays(s: Shell, timeout: u32)
    ensures LastReinitOk(CheckTimeout(s, timeout).log) == LastReinitOk(s.log)
  {
    assert (s.log + [Close])[..|s.log|] == s.log;
  }

  /** Polls until the timeout is exceeded. */
  function LongInbox(timeout: nat, os: Os): seq<Arrival> {
    Wazzups(POLLS * (timeout / POLLS), os) + Wazzups(timeout + 1 - POLLS * (timeout / POLLS), os)
  }

  function LongTicks(timeout: nat): (ticks: seq<Tick>)
    ensures ValidTicks(ticks)
  {
    IdleTicks(timeout / POLLS) + [KeyTick(None, timeout + 1 - POLLS * (timeout / POLLS))]
  }

  lemma TimesOut(s: Shell, timeout: u32, os: Os)
    requires 0 < timeout < 0xFFFF_FFFF && Resting(s, 0, LongInbox(timeout, os))
    ensures var s' := Loop(s, timeout, LongTicks(timeout)); !s'.stuck && s'.timedout && s'.doloop
  {
    var k := timeout / POLLS;
    var n := timeout + 1 - POLLS * k;
    var ticks := LongTicks(timeout);
    IdlePasses(s, timeout, k, os, Wazzups(n, os));
    assert ticks[..k] == IdleTicks(k) && ticks[k] == KeyTick(None, n);
    assert Wazzups(n, os) + [] == Wazzups(n, os);
    IdlePass(Loop(s, timeout, IdleTicks(k)), timeout, n, os, []);
    assert Loop(s, timeout, ticks) == Pass(Loop(s, timeout, IdleTicks(k)), timeout, KeyTick(None, n));
  }

  /** The link times out, a quit is typed, and the reinitialisation finds no device: the handle the check has
      closed is polled and closed again. */
  lemma LostDeviceClosesTwice(timeout: u32, os: Os)
    requires 0 < timeout < 0xFFFF_FFFF
    ensures var inbox, ticks := LongInbox(timeout, os), LongTicks(timeout);
            var t := KeyTick(Some(Line(Some(Issue(PACKET_QUIT)), true)), 0);
            && Ends(Nil, inbox, false, timeout, ticks, t)
            && !HandleOpen(FinalLog(Nil, inbox, false, timeout, ticks, t))
  {
    var inbox, ticks := LongInbox(timeout, os), LongTicks(timeout);
    var t := KeyTick(Some(Line(Some(Issue(PACKET_QUIT)), true)), 0);
    StartupRests(inbox);
    TimesOut(Startup(Nil, inbox, false), timeout, os);
    LostReopen(Loop(Startup(Nil, inbox, false), timeout, ticks), timeout, t);
    FinalCloseIff(Nil, inbox, false, timeout, ticks, t);
  }

  lemma LostReopen(s: Shell, timeout: u32, t: Tick)
    requires t == KeyTick(Some(Line(Some(Issue(PACKET_QUIT)), true)), 0)
    requires !s.stuck && s.timedout
    ensures !Pass(s, timeout, t).stuck && !LastReinitOk(Pass(s, timeout, t).log)
  {
    var up := s.log + [Reinit(false)];
    var s2 := UserInput(s, t);
    assert !LastReinitOk(up);
    SameHandle(up, Touch);
    SameHandle(up + [Touch], Touch);
    SameHandle(up + [Touch] + [Touch], CommandLine);
    assert s2.log == up + [Touch] + [Touch] + [CommandLine];
    SilentVisits(s2, t.more);
    VisitsSameHandle(s2, t.more);
    LastReinitStays(MorePolls(s2, t), timeout);
  }

  // ---- Passes without a command ----

  /** Whatever state file transfers have left, the polls of a pass count from scratch: n polls answered raise the
      counter by n, from 0 if the link had to be reinitialised. A key alone does not reset it. */
  lemma PollsCount(s: Shell, t: Tick, n: nat, os: Os, rest: seq<Arrival>)
    requires !s.stuck && s.engine.command == 0 && n <= POLLS && s.engine.counter + n < 0x1_0000_0000
    requires !t.requested && !t.requestedAgain && t.more == Polls(n) && s.inbox == Wazzups(n, os) + rest
    requires t.key == None || t.key == Some(Character)
    requires s.timedout ==> t.key.Some?
    ensures var s' := MorePolls(UserInput(FirstPoll(s, t), t), t);
            !s'.stuck && s'.inbox == rest && s'.engine.counter == (if s.timedout then 0 else s.engine.counter) + n
  {
    var s2 := UserInput(FirstPoll(s, t), t);
    assert !s2.engine.processing && s2.inbox == s.inbox && !s2.stuck && !s2.timedout && s2.engine.command == 0;
    IdleVisits(s2, n, os, rest);
    SilentVisits(Visits(s2, Repeat(n)), seq(POLLS - n, _ => false));
    VisitsConcat(s2, Repeat(n), seq(POLLS - n, _ => false));
  }

  /** A command given in a pass, by a line or by a bound key, is what the first WAZZUP of the polls behind it is
      answered with. */
  lemma GivenCommandGoesOut(s: Shell, t: Tick, a: Action)
    requires !s.stuck && ValidTick(t) && t.key.Some? && !t.key.value.Character? && t.key.value.action == Some(a)
    requires var s2 := UserInput(FirstPoll(s, t), t);
             !s2.stuck && s2.inbox != [] && s2.inbox[0].packet.kind == PACKET_WAZZUP
    ensures var s2 := UserInput(FirstPoll(s, t), t);
            var o := Process(s2.engine, s2.inbox);
            |o.events| > 1 && o.events[1] == Sent(Packet(a.kind, if a.IssueExec? then a.file + [0] else []))
  {
    var s1 := FirstPoll(s, t);
    var s2 := UserInput(s1, t);
    var e := if s1.timedout then Reopen(s1, t).engine else s1.engine;
    var e' := if t.key.value.Line? then e.(counter := 0) else e;
    assert s2.engine == Issued(e', a);
    CommandGoesOut(e', a, s2.inbox);
  }
}
