/**
 Reassembly of log datagrams into lines (pko_log_read in pksh.c), and the switch between console
 and file (cli_log).
*/
module LogBuffer {
  import opened Bytes

  const SIZE: nat := 1024
  const NL: byte := 10

  datatype Flush = ToFile(data: seq<byte>) | ToConsole(data: seq<byte>)

  /** strlen of a buffer that holds a NUL. */
  function StrLen(s: seq<byte>): (n: nat)
    ensures n <= |s|
    ensures forall i :: 0 <= i < n ==> s[i] != 0
    ensures n < |s| ==> s[n] == 0
  {
    if s == [] || s[0] == 0 then 0 else 1 + StrLen(s[1..])
  }

  lemma StrLenIs(s: seq<byte>, t: seq<byte>)
    requires |t| < |s| && s[..|t|] == t && 0 !in t && s[|t|] == 0
    ensures StrLen(s) == |t|
  {
    assert forall i :: 0 <= i < |t| ==> s[i] == t[i];
  }

  /** The part of a datagram recvfrom stores; the rest is discarded by the system. */
  function Accepted(pending: seq<byte>, d: seq<byte>): seq<byte>
    requires |pending| < SIZE
  {
    if |pending| + |d| < SIZE then d else d[..SIZE - 1 - |pending|]
  }

  /** A line as printed: its last byte is a newline whatever it was. */
  function Line(raw: seq<byte>): seq<byte>
    requires raw != []
  {
    raw[..|raw| - 1] + [NL]
  }

  /** One datagram: the bytes still pending, and what is written. */
  function Step(pending: seq<byte>, file: bool, d: seq<byte>): (r: (seq<byte>, seq<Flush>))
    requires |pending| < SIZE - 1
    ensures |r.0| < SIZE - 1
  {
    var all := pending + Accepted(pending, d);
    if file then ([], [ToFile(all)])
    else if NL in all || |all| == SIZE - 1 then ([], [ToConsole(Line(all))])
    else (all, [])
  }

  class LogReader {
    const buf: array<byte>
    var loc: int
    var logToFile: bool
    var output: seq<Flush>

    /** The buffer is clean from loc on, unless it is about to be cleared, and what is pending is a
        piece of one line. */
    ghost predicate Valid()
      reads this, buf
    {
      && buf.Length == SIZE
      && 0 <= loc < SIZE - 1
      && (loc > 0 ==> forall i :: loc <= i < SIZE ==> buf[i] == 0)
      && forall i :: 0 <= i < loc ==> buf[i] != 0 && buf[i] != NL
    }

    ghost function Pending(): seq<byte>
      requires Valid()
      reads this, buf
    {
      buf[..loc]
    }

    constructor ()
      ensures Valid() && Pending() == [] && output == [] && !logToFile && fresh(buf)
    {
      buf := new byte[SIZE](_ => 0);
      loc, logToFile, output := 0, false, [];
    }

    /** cli_log, without opening or closing the log file. */
    method SetLog(file: bool)
      requires Valid()
      modifies this`logToFile
      ensures Valid() && logToFile == file && Pending() == old(Pending())
    {
      logToFile := file;
    }

    /** An empty buffer is cleared before it is used again. */
    method Clear()
      requires Valid()
      modifies buf
      ensures Valid() && Pending() == old(Pending())
      ensures forall i :: loc <= i < SIZE ==> buf[i] == 0
    {
      if loc == 0 {
        forall i | 0 <= i < SIZE {
          buf[i] := 0;
        }
      }
    }

    /** recvfrom: at most SIZE - loc - 1 bytes, stored at loc. */
    method Receive(d: seq<byte>) returns (ret: nat)
      requires Valid() && (forall i :: loc <= i < SIZE ==> buf[i] == 0)
      modifies buf
      ensures ret == |Accepted(old(Pending()), d)| && loc + ret < SIZE
      ensures buf[..loc + ret] == old(Pending()) + Accepted(old(Pending()), d)
      ensures forall i :: loc + ret <= i < SIZE ==> buf[i] == 0
    {
      var got := if loc + |d| < SIZE then d else d[..SIZE - 1 - loc];
      forall i | 0 <= i < |got| {
        buf[loc + i] := got[i];
      }
      ret := |got|;
    }

    /** pko_log_read for a datagram of text. */
    method LogRead(d: seq<byte>) returns (ret: int)
      requires Valid() && 0 !in d
      modifies this`loc, this`output, buf
      ensures Valid() && ret == |Accepted(old(Pending()), d)|
      ensures var r := Step(old(Pending()), logToFile, d);
              Pending() == r.0 && output == old(output) + r.1
    {
      Clear();
      ret := Receive(d);
      ghost var all := old(Pending()) + Accepted(old(Pending()), d);
      loc := loc + ret;
      assert forall i :: 0 <= i < loc ==> buf[i] == all[i];
      assert 0 !in all;
      Flush(all);
    }

    /** The second half of pko_log_read: writes out what there is, if it is time to. */
    method Flush(ghost all: seq<byte>)
      requires buf.Length == SIZE && 0 <= loc == |all| < SIZE && buf[..loc] == all && 0 !in all
      requires forall i :: loc <= i < SIZE ==> buf[i] == 0
      modifies this`loc, this`output, buf
      ensures Valid()
      ensures if logToFile then Pending() == [] && output == old(output) + [ToFile(all)]
              else if NL in all || |all| == SIZE - 1 then
                Pending() == [] && all != [] && output == old(output) + [ToConsole(Line(all))]
              else Pending() == all && output == old(output)
    {
      var size := StrLen(buf[..]);
      StrLenIs(buf[..], all);
      if logToFile {
        output := output + [ToFile(buf[..size])];
        loc := 0;
      } else if NL in buf[..size] || SIZE - loc - 1 <= 0 {
        if buf[size - 1] != NL {
          buf[size - 1] := NL;
        }
        assert buf[..size] == Line(all);
        output := output + [ToConsole(buf[..size])];
        loc := 0;
      } else {
        assert forall i :: 0 <= i < loc ==> buf[i] == all[i];
      }
    }

    /** A failed receive counts as -1 bytes. The state is sound afterwards exactly if the log goes to
        a file, where the pending text is written out and the count starts again at 0, or if a
        single byte was pending, which is lost. */
    method LogReadFailed() returns (ret: int)
      requires Valid()
      modifies this`loc, this`output, buf
      ensures ret == -1
      ensures Valid() <==> logToFile || |old(Pending())| == 1
      ensures output == old(output) + if logToFile then [ToFile(old(Pending()))] else []
      ensures loc == if logToFile then 0 else old(loc) - 1
    {
      Clear();
      ret := -1;
      var size := StrLen(buf[..]);
      assert size == loc by {
        assert buf[loc] == 0;
      }
      loc := loc + ret;
      if logToFile {
        output := output + [ToFile(buf[..size])];
        loc := 0;
      } else if loc > 0 {
        assert buf[loc] != 0;
      }
    }
  }

  // ---- Whole runs ----

  datatype Event = Datagram(d: seq<byte>) | Switch(file: bool)

  datatype Log = Log(pending: seq<byte>, file: bool, output: seq<Flush>, received: seq<byte>)

  function Handle(l: Log, e: Event): Log
    requires |l.pending| < SIZE - 1
    ensures |Handle(l, e).pending| < SIZE - 1
  {
    match e
    case Switch(file) => l.(file := file)
    case Datagram(d) =>
      var (pending, flushes) := Step(l.pending, l.file, d);
      Log(pending, l.file, l.output + flushes, l.received + Accepted(l.pending, d))
  }

  function Run(events: seq<Event>): (l: Log)
    ensures |l.pending| < SIZE - 1
    decreases |events|
  {
    if events == [] then Log([], false, [], [])
    else Handle(Run(events[..|events| - 1]), events[|events| - 1])
  }

  function Written(output: seq<Flush>): seq<byte> {
    if output == [] then [] else Written(output[..|output| - 1]) + output[|output| - 1].data
  }

  function Joined(pieces: seq<seq<byte>>): seq<byte> {
    if pieces == [] then [] else Joined(pieces[..|pieces| - 1]) + pieces[|pieces| - 1]
  }

  /** A flush as it came out of the piece of input raw: verbatim to a file; to the console a line of
      at most 1023 bytes that differs from raw in its last byte at most. */
  predicate Emits(f: Flush, raw: seq<byte>) {
    match f
    case ToFile(data) => data == raw
    case ToConsole(data) =>
      && 0 < |data| == |raw| < SIZE
      && data[..|data| - 1] == raw[..|raw| - 1]
      && data[|data| - 1] == NL
      && (NL in raw || |raw| == SIZE - 1)
  }

  /** raws cuts the input received so far into one piece per flush, followed by what is pending. */
  predicate Accounts(l: Log, raws: seq<seq<byte>>) {
    && |raws| == |l.output|
    && (forall i :: 0 <= i < |raws| ==> Emits(l.output[i], raws[i]))
    && l.received == Joined(raws) + l.pending
    && NL !in l.pending
  }

  lemma JoinedMore(raws: seq<seq<byte>>, all: seq<byte>)
    ensures Joined(raws + [all]) == Joined(raws) + all
  {
    assert (raws + [all])[..|raws|] == raws;
  }

  lemma HandleAccounts(l: Log, e: Event, raws: seq<seq<byte>>) returns (next: seq<seq<byte>>)
    requires |l.pending| < SIZE - 1 && Accounts(l, raws)
    ensures Accounts(Handle(l, e), next)
  {
    next := raws;
    if e.Datagram? {
      var got := Accepted(l.pending, e.d);
      var all := l.pending + got;
      assert l.received + got == Joined(raws) + all;
      if l.file || NL in all || |all| == SIZE - 1 {
        JoinedMore(raws, all);
        next := raws + [all];
      }
    }
  }

  lemma {:induction false} RunAccounts(events: seq<Event>) returns (raws: seq<seq<byte>>)
    ensures Accounts(Run(events), raws)
    decreases |events|
  {
    if events == [] {
      raws := [];
    } else {
      var before := RunAccounts(events[..|events| - 1]);
      raws := HandleAccounts(Run(events[..|events| - 1]), events[|events| - 1], before);
    }
  }

  /** Conservation: what has been written plus what is pending is as long as what has been received;
      a newline is never left pending. */
  lemma NothingLost(events: seq<Event>)
    ensures var l := Run(events);
            |Written(l.output)| + |l.pending| == |l.received| && NL !in l.pending
  {
    var raws := RunAccounts(events);
    WrittenLength(Run(events).output, raws);
  }

  /** All that has been sent. */
  function Offered(events: seq<Event>): seq<byte> {
    if events == [] then []
    else
      var e := events[|events| - 1];
      Offered(events[..|events| - 1]) + if e.Datagram? then e.d else []
  }

  /** Each datagram fits behind what is pending when it comes. */
  predicate AllFit(events: seq<Event>)
    decreases |events|
  {
    events == [] ||
    var init, e := events[..|events| - 1], events[|events| - 1];
    AllFit(init) && (e.Datagram? ==> |Run(init).pending| + |e.d| < SIZE)
  }

  /** What is received is all that has been sent if and only if each datagram fits; the tail of one that does not
      is gone. */
  lemma {:induction false} AllReceivedIff(events: seq<Event>)
    ensures |Run(events).received| <= |Offered(events)|
    ensures Run(events).received == Offered(events) <==> AllFit(events)
    ensures |Run(events).received| == |Offered(events)| ==> AllFit(events)
    decreases |events|
  {
    if events != [] {
      AllReceivedIff(events[..|events| - 1]);
    }
  }

  /** Of a datagram that does not fit, as many bytes are received as make the text 1023 bytes long, and all of that
      is written at once. */
  lemma LongDatagram(events: seq<Event>, d: seq<byte>)
    requires |Run(events).pending| + |d| > 1023
    ensures var l, l' := Run(events), Run(events + [Datagram(d)]);
            && l'.received == l.received + d[..1023 - |l.pending|] && l'.pending == []
            && |l'.output| == |l.output| + 1 && |l'.output[|l.output|].data| == 1023
  {
    assert (events + [Datagram(d)])[..|events|] == events;
  }

  lemma {:induction false} WrittenLength(output: seq<Flush>, raws: seq<seq<byte>>)
    requires |raws| == |output| && forall i :: 0 <= i < |raws| ==> Emits(output[i], raws[i])
    ensures |Written(output)| == |Joined(raws)|
    ensures Written(output) == Joined(raws) <==> forall i :: 0 <= i < |raws| ==> output[i].data == raws[i]
    decreases |raws|
  {
    if raws != [] {
      var n := |raws| - 1;
      WrittenLength(output[..n], raws[..n]);
      var w, j := Written(output[..n]), Joined(raws[..n]);
      if w + output[n].data == j + raws[n] {
        assert w == (w + output[n].data)[..|w|] && output[n].data == (w + output[n].data)[|w|..];
      }
    }
  }

  /** The text is passed on unchanged exactly if every piece sent to the console ended in a newline;
      otherwise the last byte of such a piece has been overwritten by one. */
  lemma UnchangedIffLinesEnd(events: seq<Event>) returns (raws: seq<seq<byte>>)
    ensures Accounts(Run(events), raws)
    ensures var l := Run(events);
            Written(l.output) + l.pending == l.received <==>
              forall i :: 0 <= i < |raws| && l.output[i].ToConsole? ==> raws[i][|raws[i]| - 1] == NL
  {
    raws := RunAccounts(events);
    var l := Run(events);
    WrittenLength(l.output, raws);
    var w, j := Written(l.output), Joined(raws);
    if w + l.pending == j + l.pending {
      assert w == (w + l.pending)[..|w|] && j == (j + l.pending)[..|j|];
    }
    forall i | 0 <= i < |raws| && l.output[i].ToConsole?
      ensures l.output[i].data == raws[i] <==> raws[i][|raws[i]| - 1] == NL
    {
      LastByteDecides(l.output[i].data, raws[i]);
    }
  }

  /** For instance a datagram that fills the buffer and has no newline. */
  lemma FullBufferLosesByte()
    ensures var l := Run([Datagram(seq(SIZE - 1, _ => 97))]); Written(l.output) + l.pending != l.received
  {
    var d := seq<byte>(SIZE - 1, _ => 97);
    var events := [Datagram(d)];
    assert events[..0] == [] && Run([]) == Log([], false, [], []);
    assert [] + d == d && NL !in d;
    var l := Run(events);
    assert l == Log([], false, [] + [ToConsole(Line(d))], [] + d);
    assert [ToConsole(Line(d))][..0] == [] && Written([]) == [];
    assert (Written(l.output) + l.pending)[SIZE - 2] == NL;
    assert l.received[SIZE - 2] == 97;
  }

  lemma LastByteDecides(data: seq<byte>, raw: seq<byte>)
    requires Emits(ToConsole(data), raw)
    ensures data == raw <==> raw[|raw| - 1] == NL
  {
    var n := |raw| - 1;
    assert data == data[..n] + [data[n]] && raw == raw[..n] + [raw[n]];
  }
}
