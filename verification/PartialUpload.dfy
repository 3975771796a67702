/**
 The upload loop of cli_copy against a server that stores only part of a write, refuses it, or goes away
 (pksh.c, netfsproto_core.c). The results of the writes are added up unchecked, and a reply that does not
 arrive passes for the previous one.
*/
module PartialUpload {
  import opened Bytes
  import opened NetFs
  import opened FileServer
  import opened NetFsClient
  import opened Copy

  type Buffer = b: seq<byte> | |b| == PACKET_MAXSIZE witness seq(PACKET_MAXSIZE, _ => 0)

  /** What a client makes of the bytes that arrive in answer to a write: the result, the receive buffer, and
      whether the connection is still open. */
  datatype Receipt = Receipt(result: i32, buf: Buffer, connected: bool)

  type Receiver = (Buffer, seq<byte>) -> Receipt

  /** The client of netfsproto_core.c, by way of accept_pkt. */
  function Accepting(broken: bool): Receiver {
    (buf: Buffer, rx: seq<byte>) =>
      var a := Accept(buf, rx, FILE_RLY, WRITE_RLY, broken);
      Receipt(Result(a), a.buf, !a.dropped)
  }

  /** A reply that arrives in full is taken at its word. */
  ghost predicate Believing(receive: Receiver) {
    forall buf: Buffer, v: i32 :: var t := receive(buf, FileReply(WRITE_RLY, v)); t.result == v && t.connected
  }

  lemma AcceptingBelieves(broken: bool)
    ensures Believing(Accepting(broken))
  {
    forall buf: Buffer, v: i32
      ensures var t := Accepting(broken)(buf, FileReply(WRITE_RLY, v)); t.result == v && t.connected
    {
      PlainReply(buf, WRITE_RLY, v, broken);
      assert [] + FileReply(WRITE_RLY, v) == FileReply(WRITE_RLY, v);
    }
  }

  /** The loop's position and total, what the server has stored, what it will do, and the client's buffer. */
  datatype Run = Run(pos: nat, total: int, stored: seq<byte>, deals: seq<Deal>, buf: Buffer, connected: bool)

  /** The result the server gives for a write of b. */
  function Report(b: seq<byte>, most: int): i32
    requires |b| <= CHUNK
  {
    if most < 0 then -1 else |Part(b, most)|
  }

  /** What arrives in answer to a write of b. */
  function Arrived(b: seq<byte>, deals: seq<Deal>): seq<byte>
    requires |b| <= CHUNK
  {
    if deals == [] then [] else Arriving(deals[0], FileReply(WRITE_RLY, Report(b, deals[0].most)))
  }

  function Later(deals: seq<Deal>): seq<Deal> {
    if deals == [] then [] else After(deals)
  }

  function Kept(b: seq<byte>, deals: seq<Deal>): seq<byte> {
    if deals == [] then [] else Part(b, deals[0].most)
  }

  /** One pass. */
  function Step(local: seq<byte>, receive: Receiver, s: Run): Run {
    var b := Chunk(local, s.pos, CHUNK);
    var t := receive(s.buf, Arrived(b, s.deals));
    Run(s.pos + |b|, s.total + t.result, s.stored + Kept(b, s.deals), Later(s.deals), t.buf, t.connected)
  }

  function Steps(local: seq<byte>, receive: Receiver, s: Run, n: nat): Run
    decreases n
  {
    if n == 0 then s else Steps(local, receive, Step(local, receive, s), n - 1)
  }

  /** The loop goes through n passes. */
  predicate InLoop(local: seq<byte>, receive: Receiver, s: Run, n: nat)
    decreases n
  {
    n == 0 || (s.total < ToI32(|local|) && s.connected && InLoop(local, receive, Step(local, receive, s), n - 1))
  }

  /** And then its condition ends it. */
  predicate Exits(local: seq<byte>, receive: Receiver, s: Run, n: nat) {
    InLoop(local, receive, s, n) && Steps(local, receive, s, n).total >= ToI32(|local|)
  }

  /** The reply to each of n writes is received in full. */
  predicate Answered(local: seq<byte>, receive: Receiver, s: Run, n: nat)
    decreases n
  {
    n == 0 || (|Arrived(Chunk(local, s.pos, CHUNK), s.deals)| == FILE_RLY
               && Answered(local, receive, Step(local, receive, s), n - 1))
  }

  /** A server with other deals that the client cannot tell from this one: the same bytes arrive in each pass. */
  predicate SameReplies(local: seq<byte>, receive: Receiver, s: Run, other: seq<Deal>, n: nat)
    decreases n
  {
    var b := Chunk(local, s.pos, CHUNK);
    n == 0 || (Arrived(b, other) == Arrived(b, s.deals)
               && SameReplies(local, receive, Step(local, receive, s), Later(other), n - 1))
  }

  // ---- A single pass ----

  /** A reply is received in full exactly if the deal says so. */
  lemma AnsweredIff(b: seq<byte>, deals: seq<Deal>)
    requires |b| <= CHUNK
    ensures |Arrived(b, deals)| == FILE_RLY <==> deals != [] && deals[0].Whole?
    ensures deals != [] && deals[0].Whole? ==> Later(deals) == deals[1..]
  {
  }

  /** Received in full means, by the bytes, that accept_pkt has taken a whole frame. */
  lemma AnsweredIsFrame(buf: Buffer, b: seq<byte>, deals: seq<Deal>, broken: bool)
    requires |b| <= CHUNK
    ensures var rx := Arrived(b, deals);
            |rx| == FILE_RLY <==> FrameTaken(Accept(buf, rx, FILE_RLY, WRITE_RLY, broken), rx)
  {
    var rx := Arrived(b, deals);
    if deals != [] {
      var f := FileReply(WRITE_RLY, Report(b, deals[0].most));
      HeadFields(f, WRITE_RLY, FILE_RLY, PutInt32(Report(b, deals[0].most)));
      if deals[0].Whole? {
        assert f + [] == f;
        FrameAccepted(buf, f, [], FILE_RLY, WRITE_RLY, broken);
      } else if |rx| == HDR {
        HeaderPrefix(rx, f);
      }
    }
  }

  lemma WholeStep(local: seq<byte>, receive: Receiver, s: Run)
    requires Believing(receive) && s.deals != [] && s.deals[0].Whole?
    ensures var b, s' := Chunk(local, s.pos, CHUNK), Step(local, receive, s);
            && s'.total == s.total + Report(b, s.deals[0].most)
            && s'.stored == s.stored + Part(b, s.deals[0].most)
            && s'.connected && s'.deals == s.deals[1..]
  {
  }

  // ---- The loop of the program is this one ----

  /** The program's state u is s, with the file `name` open on the disk `base` and holding `before` at first. */
  predicate Linked(u: Progress, s: Run, base: Disk, name: seq<byte>, before: seq<byte>) {
    && u.pos == s.pos && u.total == s.total
    && u.link == Connection(Flaky(Opened(base, name, WRITING, |s.stored|, Overwrite(before, 0, s.stored)), s.deals), [], [],
                            s.buf, s.connected)
  }

  lemma FlakyReaction(d: Disk, fd: i32, b: seq<byte>, deals: seq<Deal>)
    requires |b| <= CHUNK
    ensures var s1 := React(Flaky(d, deals), [] + TransferRequest(WRITE_CMD, fd, |b|));
            var s := React(s1.server, s1.unserved + b);
            && s.unserved == []
            && (deals == [] ==> s.server == Flaky(d, []) && s1.output + s.output == [])
            && (deals != [] ==>
                  var (d', r) := WritePart(d, fd, b, deals[0].most);
                  && s.server == Flaky(d', After(deals))
                  && s1.output + s.output == Arriving(deals[0], FileReply(WRITE_RLY, r)))
  {
    var request := TransferRequest(WRITE_CMD, fd, |b|);
    assert [] + request == request;
    if deals != [] {
      ServeWrite(d, fd, b, deals[0].most);
      if b == [] {
        assert request + b == request && [] + b == [];
      }
    }
  }

  /** Nothing is left on the stream after a pass. */
  lemma NothingLeft(buf: Buffer, b: seq<byte>, deals: seq<Deal>, broken: bool)
    requires |b| <= CHUNK
    ensures Accept(buf, Arrived(b, deals), FILE_RLY, WRITE_RLY, broken).rx == []
  {
    if |Arrived(b, deals)| == FILE_RLY {
      AnsweredIff(b, deals);
      PlainReply(buf, WRITE_RLY, Report(b, deals[0].most), broken);
      assert [] + FileReply(WRITE_RLY, Report(b, deals[0].most)) == FileReply(WRITE_RLY, Report(b, deals[0].most));
    }
  }

  /** What the server stores of a write on the open file. */
  lemma WritesPart(base: Disk, name: seq<byte>, before: seq<byte>, stored: seq<byte>, b: seq<byte>, most: int)
    requires |b| <= CHUNK
    ensures var d := Opened(base, name, WRITING, |stored|, Overwrite(before, 0, stored));
            var kept := stored + Part(b, most);
            WritePart(d, base.next, b, most) ==
            (Opened(base, name, WRITING, |kept|, Overwrite(before, 0, kept)), Report(b, most))
  {
    if most < 0 {
      assert stored + Part(b, most) == stored;
    } else {
      WritesOn(base, name, |stored|, Overwrite(before, 0, stored), Part(b, most));
      OverwriteMore(before, stored, Part(b, most));
    }
  }

  lemma WrittenLinked(u: Progress, s: Run, b: seq<byte>, broken: bool, base: Disk, name: seq<byte>, before: seq<byte>)
    requires Linked(u, s, base, name, before) && base.next < 0x8000_0000 && |b| <= CHUNK
    ensures var (link, r) := Written(u.link, broken, base.next, b);
            var a := Accept(s.buf, Arrived(b, s.deals), FILE_RLY, WRITE_RLY, broken);
            var stored := s.stored + Kept(b, s.deals);
            && r == Result(a)
            && link == Connection(Flaky(Opened(base, name, WRITING, |stored|, Overwrite(before, 0, stored)), Later(s.deals)), [], [],
                                  a.buf, !a.dropped)
  {
    var d := Opened(base, name, WRITING, |s.stored|, Overwrite(before, 0, s.stored));
    FlakyReaction(d, base.next, b, s.deals);
    if s.deals == [] {
      assert s.stored + [] == s.stored;
    } else {
      WritesPart(base, name, before, s.stored, b, s.deals[0].most);
    }
    var s1 := React(u.link.server, u.link.unserved + TransferRequest(WRITE_CMD, base.next, |b|));
    var s2 := React(s1.server, s1.unserved + b);
    assert u.link.rx + s1.output + s2.output == Arrived(b, s.deals);
    NothingLeft(s.buf, b, s.deals, broken);
  }

  lemma StepLinked(local: seq<byte>, broken: bool, u: Progress, s: Run, base: Disk, name: seq<byte>, before: seq<byte>)
    requires Linked(u, s, base, name, before) && base.next < 0x8000_0000
    ensures Linked(UploadStep(local, broken, base.next, u), Step(local, Accepting(broken), s), base, name, before)
  {
    WrittenLinked(u, s, Chunk(local, s.pos, CHUNK), broken, base, name, before);
  }

  /** step and Step go hand in hand. */
  ghost predicate Simulates(step: Progress -> Progress, local: seq<byte>, receive: Receiver,
                            base: Disk, name: seq<byte>, before: seq<byte>) {
    forall u, s {:trigger step(u), Step(local, receive, s)} ::
      Linked(u, s, base, name, before) ==> Linked(step(u), Step(local, receive, s), base, name, before)
  }

  /** The pass of the program does what Step does. */
  lemma ProgramSimulates(local: seq<byte>, broken: bool, step: Progress -> Progress, base: Disk, name: seq<byte>, before: seq<byte>)
    requires base.next < 0x8000_0000 && IsPass(step, local, broken, base.next)
    ensures Simulates(step, local, Accepting(broken), base, name, before)
  {
    forall u, s | Linked(u, s, base, name, before)
      ensures Linked(step(u), Step(local, Accepting(broken), s), base, name, before)
    {
      assert Ready(u);
      StepLinked(local, broken, u, s, base, name, before);
    }
  }

  lemma {:induction false} StepsMore(local: seq<byte>, receive: Receiver, s: Run, n: nat)
    ensures var t := Steps(local, receive, s, n);
            && Steps(local, receive, s, n + 1) == Step(local, receive, t)
            && (InLoop(local, receive, s, n + 1) <==> InLoop(local, receive, s, n) && t.total < ToI32(|local|) && t.connected)
    decreases n
  {
    var next := Step(local, receive, s);
    if n > 0 {
      StepsMore(local, receive, next, n - 1);
    } else {
      assert Steps(local, receive, s, 1) == Steps(local, receive, next, 0);
      assert InLoop(local, receive, next, 0);
    }
  }

  /** Against such a server the loop of the program goes through exactly the states of Steps, and the remote file
      is the old one with what has been stored written over it. */
  lemma {:induction false} ProgramRuns(local: seq<byte>, receive: Receiver, step: Progress -> Progress, u: Progress, s: Run,
                                       n: nat, base: Disk, name: seq<byte>, before: seq<byte>)
    requires Linked(u, s, base, name, before) && Simulates(step, local, receive, base, name, before)
    ensures Linked(Iterate(step, u, n), Steps(local, receive, s, n), base, name, before)
    ensures Uploading(local, step, u, n) <==> InLoop(local, receive, s, n)
    decreases n
  {
    if n > 0 {
      ProgramRuns(local, receive, step, u, s, n - 1, base, name, before);
      StepsMore(local, receive, s, n - 1);
    }
  }

  // ---- While every reply arrives ----

  /** The total never runs ahead, and has caught up with the position only if everything read has been stored. */
  predicate Honest(local: seq<byte>, s: Run) {
    && s.total <= |s.stored| <= s.pos <= |local|
    && (s.total == s.pos <==> s.stored == local[..s.pos])
  }

  lemma HonestStep(local: seq<byte>, receive: Receiver, s: Run)
    requires Believing(receive) && Honest(local, s) && s.total < ToI32(|local|) && s.deals != [] && s.deals[0].Whole?
    ensures Honest(local, Step(local, receive, s))
  {
    WholeStep(local, receive, s);
    ChunkNext(local, s.pos);
    var s' := Step(local, receive, s);
    if s'.stored == local[..s'.pos] {
      assert s.stored == s'.stored[..|s.stored|] == local[..|s.stored|];
    }
  }

  lemma {:induction false} HonestSteps(local: seq<byte>, receive: Receiver, s: Run, n: nat)
    requires Believing(receive) && Honest(local, s) && InLoop(local, receive, s, n) && Answered(local, receive, s, n)
    ensures Honest(local, Steps(local, receive, s, n))
    decreases n
  {
    if n > 0 {
      AnsweredIff(Chunk(local, s.pos, CHUNK), s.deals);
      HonestStep(local, receive, s);
      HonestSteps(local, receive, Step(local, receive, s), n - 1);
    }
  }

  function Start(deals: seq<Deal>, buf: Buffer): Run {
    Run(0, 0, [], deals, buf, true)
  }

  lemma HonestEnd(local: seq<byte>, t: Run)
    requires Honest(local, t) && |local| < 0x8000_0000
    ensures t.total >= ToI32(|local|) <==> t.stored == local
  {
    assert local[..|local|] == local;
  }

  /** For a size that fits an int, and as long as every reply arrives in full, the loop's exit test holds if and
      only if the server has stored the whole file. */
  lemma UploadStopsIffComplete(local: seq<byte>, receive: Receiver, deals: seq<Deal>, buf: Buffer, n: nat)
    requires |local| < 0x8000_0000 && Believing(receive)
    requires InLoop(local, receive, Start(deals, buf), n) && Answered(local, receive, Start(deals, buf), n)
    ensures var t := Steps(local, receive, Start(deals, buf), n);
            t.total >= ToI32(|local|) <==> t.stored == local
  {
    assert local[..0] == [];
    HonestSteps(local, receive, Start(deals, buf), n);
    HonestEnd(local, Steps(local, receive, Start(deals, buf), n));
  }

  /** And once a write has been stored short, it never holds again. */
  lemma {:induction false} ShortWriteNeverStops(local: seq<byte>, receive: Receiver, s: Run, n: nat)
    requires Believing(receive) && s.total < s.pos <= |local| && Answered(local, receive, s, n)
    ensures Steps(local, receive, s, n).total < |local|
    decreases n
  {
    if n > 0 {
      AnsweredIff(Chunk(local, s.pos, CHUNK), s.deals);
      WholeStep(local, receive, s);
      ShortWriteNeverStops(local, receive, Step(local, receive, s), n - 1);
    }
  }

  // ---- What the exit test proves ----

  /** Every server that the client cannot tell from this one has stored the whole file. */
  ghost predicate ExitProvesCopy(local: seq<byte>, receive: Receiver, s: Run, n: nat)
  {
    forall other :: SameReplies(local, receive, s, other, n) ==> Steps(local, receive, s.(deals := other), n).stored == local
  }

  /** The same for the client. */
  predicate Alike(s: Run, t: Run) {
    s.pos == t.pos && s.total == t.total && s.buf == t.buf && s.connected == t.connected
  }

  lemma {:induction false} Indistinguishable(local: seq<byte>, receive: Receiver, s: Run, t: Run, n: nat)
    requires Alike(s, t) && SameReplies(local, receive, s, t.deals, n)
    ensures Alike(Steps(local, receive, s, n), Steps(local, receive, t, n))
    ensures InLoop(local, receive, s, n) <==> InLoop(local, receive, t, n)
    ensures Answered(local, receive, s, n) <==> Answered(local, receive, t, n)
    decreases n
  {
    if n > 0 {
      Indistinguishable(local, receive, Step(local, receive, s), Step(local, receive, t), n - 1);
    }
  }

  lemma {:induction false} SameAsItself(local: seq<byte>, receive: Receiver, s: Run, n: nat)
    ensures SameReplies(local, receive, s, s.deals, n)
    decreases n
  {
    if n > 0 {
      SameAsItself(local, receive, Step(local, receive, s), n - 1);
    }
  }

  /** A server that has gone stores nothing more. */
  lemma {:induction false} GoneStoresNothing(local: seq<byte>, receive: Receiver, s: Run, n: nat)
    requires s.deals == []
    ensures Steps(local, receive, s, n).stored == s.stored
    decreases n
  {
    if n > 0 {
      GoneStoresNothing(local, receive, Step(local, receive, s), n - 1);
    }
  }

  /** While the loop runs not everything has been stored. */
  lemma NotYet(local: seq<byte>, s: Run)
    requires Honest(local, s) && s.total < ToI32(|local|)
    ensures s.stored != local
  {
    assert local[..|local|] == local;
  }

  /** The same deals up to the first reply that is lost, and there nothing is stored. */
  function Adversary(local: seq<byte>, receive: Receiver, s: Run, n: nat): seq<Deal>
    decreases n
  {
    if n == 0 || s.deals == [] then []
    else if s.deals[0].Cut? then [Cut(0, s.deals[0].bytes)]
    else [s.deals[0]] + Adversary(local, receive, Step(local, receive, s), n - 1)
  }

  lemma LostReply(local: seq<byte>, receive: Receiver, s: Run, n: nat)
    requires Honest(local, s) && n > 0 && InLoop(local, receive, s, n)
    requires s.deals == [] || s.deals[0].Cut?
    ensures var other := Adversary(local, receive, s, n);
            && SameReplies(local, receive, s, other, n)
            && Steps(local, receive, s.(deals := other), n).stored != local
  {
    var b, other := Chunk(local, s.pos, CHUNK), Adversary(local, receive, s, n);
    var t := s.(deals := other);
    assert Arrived(b, other) == Arrived(b, s.deals);
    var s', t' := Step(local, receive, s), Step(local, receive, t);
    assert Later(other) == [] == s'.deals;
    SameAsItself(local, receive, s', n - 1);
    assert t'.stored == s.stored + Kept(b, other) == s.stored;
    GoneStoresNothing(local, receive, t', n - 1);
    NotYet(local, s);
  }

  lemma {:induction false} LostReplies(local: seq<byte>, receive: Receiver, s: Run, n: nat)
    requires Believing(receive) && Honest(local, s) && InLoop(local, receive, s, n) && !Answered(local, receive, s, n)
    ensures var other := Adversary(local, receive, s, n);
            && SameReplies(local, receive, s, other, n)
            && Steps(local, receive, s.(deals := other), n).stored != local
    decreases n
  {
    var b := Chunk(local, s.pos, CHUNK);
    AnsweredIff(b, s.deals);
    if s.deals == [] || s.deals[0].Cut? {
      LostReply(local, receive, s, n);
    } else {
      var s', rest := Step(local, receive, s), Adversary(local, receive, Step(local, receive, s), n - 1);
      HonestStep(local, receive, s);
      LostReplies(local, receive, s', n - 1);
      assert Later([s.deals[0]] + rest) == rest;
      assert Step(local, receive, s.(deals := [s.deals[0]] + rest)) == s'.(deals := rest);
    }
  }

  /** With a size that does not fit an int the loop ends before everything is stored. */
  lemma TooLargeStep(local: seq<byte>, receive: Receiver, s: Run)
    requires Believing(receive) && Honest(local, s) && s.total < ToI32(|local|) && s.deals != [] && s.deals[0].Whole?
    requires |local| >= 0x8000_0000
    ensures Step(local, receive, s).stored != local
  {
    WholeStep(local, receive, s);
    ChunkNext(local, s.pos);
    assert s.stored == Step(local, receive, s).stored[..|s.stored|];
  }

  lemma {:induction false} TooLarge(local: seq<byte>, receive: Receiver, s: Run, n: nat)
    requires Believing(receive) && Honest(local, s) && s.stored != local && |local| >= 0x8000_0000
    requires InLoop(local, receive, s, n) && Answered(local, receive, s, n)
    ensures Steps(local, receive, s, n).stored != local
    decreases n
  {
    if n > 0 {
      AnsweredIff(Chunk(local, s.pos, CHUNK), s.deals);
      HonestStep(local, receive, s);
      TooLargeStep(local, receive, s);
      TooLarge(local, receive, Step(local, receive, s), n - 1);
    }
  }

  /** The exit test proves that the copy is complete if and only if the size of the file fits an int and the
      reply to every write has been received in full. Otherwise a server that sends the very same bytes, and
      for which the loop ends just as well, need not have stored the file. */
  lemma ExitProvesCopyIff(local: seq<byte>, receive: Receiver, deals: seq<Deal>, buf: Buffer, n: nat)
    requires Believing(receive) && Exits(local, receive, Start(deals, buf), n)
    ensures ExitProvesCopy(local, receive, Start(deals, buf), n) <==>
              |local| < 0x8000_0000 && Answered(local, receive, Start(deals, buf), n)
  {
    var s := Start(deals, buf);
    assert local[..0] == [];
    if !Answered(local, receive, s, n) {
      LostReplies(local, receive, s, n);
    } else if |local| >= 0x8000_0000 {
      TooLarge(local, receive, s, n);
      SameAsItself(local, receive, s, n);
      assert s.(deals := deals) == s;
    } else {
      forall other | SameReplies(local, receive, s, other, n)
        ensures Steps(local, receive, s.(deals := other), n).stored == local
      {
        Indistinguishable(local, receive, s, s.(deals := other), n);
        UploadStopsIffComplete(local, receive, other, buf, n);
      }
    }
  }

  /** On a connection that has been closed the previous result is returned again. */
  lemma ClosedRepeats(buf: Buffer, v: i32)
    ensures var t := Accepting(false)(buf, FileReply(WRITE_RLY, v));
            var t' := Accepting(false)(t.buf, []);
            t.result == v && t.connected && t'.result == v && t'.connected
  {
    PlainReply(buf, WRITE_RLY, v, false);
    assert [] + FileReply(WRITE_RLY, v) == FileReply(WRITE_RLY, v);
    var t := Accepting(false)(buf, FileReply(WRITE_RLY, v));
    StaleReply(t.buf, [], FILE_RLY, WRITE_RLY, false);
  }

  lemma TwoPasses(local: seq<byte>, receive: Receiver, buf: Buffer)
    requires |local| == 2 * CHUNK
    requires var t := receive(buf, FileReply(WRITE_RLY, CHUNK));
             var t' := receive(t.buf, []);
             t.result == CHUNK && t.connected && t'.result == CHUNK && t'.connected
    ensures var s := Start([Whole(CHUNK)], buf);
            var t := Steps(local, receive, s, 2);
            && Exits(local, receive, s, 2) && t.connected && t.total == |local| && t.stored == local[..CHUNK]
  {
    var s := Start([Whole(CHUNK)], buf);
    var s1 := Step(local, receive, s);
    var s2 := Step(local, receive, s1);
    assert Arrived(Chunk(local, 0, CHUNK), s.deals) == FileReply(WRITE_RLY, CHUNK);
    assert s1.pos == CHUNK && s1.stored == [] + local[..CHUNK] == local[..CHUNK] && s1.deals == [];
    assert s2.stored == s1.stored + [] == s1.stored;
    assert Steps(local, receive, s, 2) == Steps(local, receive, s1, 1) == Steps(local, receive, s2, 0);
    assert InLoop(local, receive, s1, 1) && InLoop(local, receive, s2, 0);
  }

  /** For instance a file of two chunks and a server that goes away after it has answered the first write: the
      second write is reported as the first one was, the loop ends, and half of the file is not there. */
  lemma HalfAFile(local: seq<byte>, buf: Buffer)
    requires |local| == 2 * CHUNK
    ensures var s := Start([Whole(CHUNK)], buf);
            var t := Steps(local, Accepting(false), s, 2);
            && Exits(local, Accepting(false), s, 2) && t.connected && t.total == |local|
            && t.stored == local[..CHUNK] && t.stored != local
  {
    ClosedRepeats(buf, CHUNK);
    TwoPasses(local, Accepting(false), buf);
  }
}
