/**
 The main loop of npsh (npsh.c): polling the link, user input, the idle timeout and the
 reinitialisation of a link that has timed out.

 One Tick is one pass through `while(doloop)`; it carries what the outside world contributes:
 whether TX_REQ is set at each poll, what select and readline deliver, and whether
 initialize_naplink finds the device. Every poll and every PEER_E check is recorded as a Touch.
*/
module Npsh {
  import opened Bytes
  import opened Lists
  import opened Wire
  import opened Naplink
  import opened RpcTrace

  datatype Key =
    | Character                         // a key that does not complete a line, or an empty line
    | Line(action: Option<Action>, quits: bool)   // a command line: execute_line
    | Meta(action: Option<Action>, quits: bool)   // a key bound to a command, which bypasses execute_line

  datatype Tick = Tick(
    requested: bool,                    // TX_REQ at the first poll
    key: Option<Key>,                   // input, if select reports any
    reinitOk: bool,                     // initialize_naplink succeeds, should it be called
    requestedAgain: bool,               // TX_REQ at the poll after a reinitialisation
    more: seq<bool>)                    // TX_REQ at the ten polls that follow

  const POLLS := 10

  /** The one command that ends the loop, cli_quit, also puts QUIT into the slot. */
  predicate ValidCommand(a: Option<Action>, quits: bool) {
    && (a.Some? ==> ValidAction(a.value) && !a.value.Poll?)
    && (quits ==> a == Some(Issue(PACKET_QUIT)))
  }

  predicate ValidKey(k: Key) {
    match k
    case Character => true
    case Line(a, quits) => ValidCommand(a, quits)
    case Meta(a, quits) => ValidCommand(a, quits)
  }

  predicate ValidTick(t: Tick) {
    |t.more| == POLLS && (t.key.Some? ==> ValidKey(t.key.value))
  }

  /** Dispatch holds the packets one call of recv_and_process_packet moved. */
  datatype Mark = Dispatch(t: seq<Event>) | CommandLine | Touch | Close | Reinit(ok: bool)

  datatype Shell = Shell(
    engine: Engine,
    inbox: seq<Arrival>,
    timedout: bool,
    doloop: bool,
    stuck: bool,                        // blocked for ever inside recv_packet
    log: seq<Mark>)

  function Check(s: Shell): Shell {
    if s.stuck then s else s.(log := s.log + [Touch])
  }

  /** naplink_process */
  function Visit(s: Shell, requested: bool): Shell {
    if s.stuck then s
    else if !requested then s.(log := s.log + [Touch])
    else
      var o := Process(s.engine, s.inbox);
      s.(engine := o.engine, inbox := o.inbox, stuck := o.result.None?, log := s.log + [Touch, Dispatch(o.events)])
  }

  function Visits(s: Shell, requests: seq<bool>): Shell
    decreases |requests|
  {
    if requests == [] then s
    else Visit(Visits(s, requests[..|requests| - 1]), requests[|requests| - 1])
  }

  function Commanded(e: Engine, a: Option<Action>): Engine {
    if a.None? then e else Issued(e, a.value)
  }

  /** rl_callback_read_char */
  function Input(s: Shell, k: Key): Shell {
    if s.stuck then s
    else
      match k
      case Character => s
      case Line(a, quits) =>
        s.(engine := Commanded(s.engine.(counter := 0), a), doloop := s.doloop && !quits, log := s.log + [CommandLine])
      case Meta(a, quits) => s.(engine := Commanded(s.engine, a), doloop := s.doloop && !quits)
  }

  function StopProcessing(s: Shell): Shell {
    if s.stuck then s else s.(engine := s.engine.(processing := false))
  }

  function FirstPoll(s: Shell, t: Tick): Shell {
    if s.timedout then s else StopProcessing(Visit(Check(s), t.requested))
  }

  function Reopen(s: Shell, t: Tick): Shell {
    var up := s.(engine := s.engine.(counter := 0), log := s.log + [Reinit(t.reinitOk)]);
    var polled := Visit(Check(up), t.requestedAgain);
    if polled.stuck then polled else StopProcessing(polled.(timedout := false))
  }

  function UserInput(s: Shell, t: Tick): Shell {
    if s.stuck || t.key.None? then s
    else Input(if s.timedout then Reopen(s, t) else s, t.key.value)
  }

  function MorePolls(s: Shell, t: Tick): Shell {
    if s.timedout then s else Visits(s, t.more)
  }

  function CheckTimeout(s: Shell, timeout: u32): Shell {
    if !s.stuck && timeout > 0 && s.engine.counter > timeout then
      s.(engine := s.engine.(counter := 0), timedout := true, log := s.log + [Close])
    else s
  }

  /** One pass through the loop. */
  function Pass(s: Shell, timeout: u32, t: Tick): Shell {
    CheckTimeout(MorePolls(UserInput(FirstPoll(s, t), t), t), timeout)
  }

  function Startup(paths: List, inbox: seq<Arrival>, requested: bool): Shell {
    Visit(Check(Shell(Engine(0, None, false, 0, false, paths), inbox, false, true, false, [])), requested)
  }

  function Loop(s: Shell, timeout: u32, ticks: seq<Tick>): Shell
    decreases |ticks|
  {
    if ticks == [] then s
    else
      var before := Loop(s, timeout, ticks[..|ticks| - 1]);
      if before.stuck || !before.doloop then before else Pass(before, timeout, ticks[|ticks| - 1])
  }

  // ---- The loop itself ----

  class Program {
    const link: Link
    const timeout: u32
    var timedout: bool
    var doloop: bool
    var stuck: bool
    var log: seq<Mark>

    ghost function View(): Shell
      reads this, link
    {
      Shell(link.View(), link.inbox, timedout, doloop, stuck, log)
    }

    constructor (link: Link, timeout: u32)
      ensures this.link == link && this.timeout == timeout
      ensures View() == Shell(link.View(), link.inbox, false, true, false, [])
    {
      this.link, this.timeout := link, timeout;
      timedout, doloop, stuck, log := false, true, false, [];
    }

    method NaplinkCheck()
      modifies this`log
      ensures View() == Check(old(View()))
    {
      if !stuck {
        log := log + [Touch];
      }
    }

    method NaplinkProcess(requested: bool)
      modifies this`log, this`stuck, link
      ensures View() == Visit(old(View()), requested)
    {
      if stuck {
        return;
      }
      log := log + [Touch];
      if requested {
        var seen := |link.trace|;
        var r := link.RecvAndProcessPacket();
        log := log + [Dispatch(link.trace[seen..])];
        stuck := r.None?;
      }
    }

    method SetProcessing()
      modifies link`processing
      ensures View() == StopProcessing(old(View()))
    {
      if !stuck {
        link.SetProcessing(false);
      }
    }

    method Run(a: Option<Action>)
      requires a.Some? ==> !a.value.Poll?
      modifies link`commandWaiting, link`commandBuffer
      ensures View() == old(View()).(engine := Commanded(old(View()).engine, a))
    {
      if a.Some? {
        link.SetCommand(a.value.kind);
        if a.value.IssueExec? {
          link.SetCmdbuf(a.value.file);
        }
      }
    }

    method ReadChar(k: Key)
      requires ValidKey(k)
      modifies this`log, this`doloop, link`counter, link`commandWaiting, link`commandBuffer
      ensures View() == Input(old(View()), k)
    {
      if stuck {
        return;
      }
      match k {
        case Character =>
        case Line(a, quits) =>
          link.SetCounter(0);
          log := log + [CommandLine];
          Run(a);
          doloop := doloop && !quits;
        case Meta(a, quits) =>
          Run(a);
          doloop := doloop && !quits;
      }
    }

    method HandleInput(t: Tick)
      requires ValidTick(t)
      modifies this, link
      ensures View() == UserInput(old(View()), t)
    {
      if stuck || t.key.None? {
        return;
      }
      if timedout {
        log := log + [Reinit(t.reinitOk)];
        link.SetCounter(0);
        NaplinkCheck();
        NaplinkProcess(t.requestedAgain);
        if !stuck {
          timedout := false;
          SetProcessing();
        }
      }
      ReadChar(t.key.value);
    }

    method PollMore(requests: seq<bool>)
      modifies this`log, this`stuck, link
      ensures View() == Visits(old(View()), requests)
    {
      for i := 0 to |requests|
        invariant View() == Visits(old(View()), requests[..i])
      {
        NaplinkProcess(requests[i]);
        assert requests[..i + 1][..i] == requests[..i];
      }
      assert requests[..|requests|] == requests;
    }

    method Iterate(t: Tick)
      requires ValidTick(t)
      modifies this, link
      ensures View() == Pass(old(View()), timeout, t)
    {
      if !timedout {
        NaplinkCheck();
        NaplinkProcess(t.requested);
        SetProcessing();
      }
      HandleInput(t);
      if !timedout {
        PollMore(t.more);
      }
      if !stuck && timeout > 0 {
        if link.counter > timeout {
          log := log + [Close];
          link.SetCounter(0);
          timedout := true;
        }
      }
    }

    /** main, up to the end of the loop. */
    method MainLoop(requested: bool, ticks: seq<Tick>)
      requires View() == Shell(Engine(0, None, false, 0, false, link.pathList), link.inbox, false, true, false, [])
      requires forall i :: 0 <= i < |ticks| ==> ValidTick(ticks[i])
      modifies this, link
      ensures View() == Loop(Startup(old(link.pathList), old(link.inbox), requested), timeout, ticks)
    {
      link.SetCounter(0);
      NaplinkCheck();
      NaplinkProcess(requested);
      ghost var start := View();
      var i := 0;
      while i < |ticks| && doloop && !stuck
        invariant 0 <= i <= |ticks|
        invariant View() == Loop(start, timeout, ticks[..i])
      {
        Iterate(ticks[i]);
        assert ticks[..i + 1][..i] == ticks[..i];
        i := i + 1;
      }
      LoopStays(start, timeout, ticks, i);
    }
  }

  /** Once the loop has ended, further ticks change nothing. */
  lemma {:induction false} LoopStays(s: Shell, timeout: u32, ticks: seq<Tick>, i: nat)
    requires i <= |ticks|
    requires i < |ticks| ==> Loop(s, timeout, ticks[..i]).stuck || !Loop(s, timeout, ticks[..i]).doloop
    ensures Loop(s, timeout, ticks) == Loop(s, timeout, ticks[..i])
    decreases |ticks|
  {
    if i < |ticks| {
      var init := ticks[..|ticks| - 1];
      assert init[..i] == ticks[..i];
      LoopStays(s, timeout, init, i);
    } else {
      assert ticks[..i] == ticks;
    }
  }
}
