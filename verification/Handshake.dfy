/**
 The TX_RDY / TX_REQ / TX_C handshake of send_packet and recv_packet (packet.c), as an
 interleaving of two parties that share the three flag bits and one byte pipe per direction.

 Both parties run the same code. `role(k)` names the party that sends the k-th packet of the
 run; the other one receives it. Every flag access is a step of its own, so a check and the
 write that follows it can be separated by steps of the other party, and a bulk transfer moves
 any non-empty piece at a time. A busy-wait loop is a step that is enabled once its test passes.
*/
module Handshake {
  import opened Bytes
  import opened Wire

  datatype Side = Host | Target

  function Other(x: Side): Side {
    if x == Host then Target else Host
  }

  datatype Pair<T> = Pair(host: T, target: T) {
    function At(x: Side): T {
      if x == Host then host else target
    }

    function With(x: Side, v: T): Pair<T> {
      if x == Host then Pair(v, target) else Pair(host, v)
    }
  }

  type Roles = nat -> Side

  datatype Pc =
    | Idle                                                // between two calls
    // send_packet
    | WantReady(p: Packet)                                // while TX_RDY is clear
    | RaiseRequest(p: Packet)                             // about to set TX_REQ
    | WantCleared(p: Packet)                              // while TX_REQ is set
    | Writing(rest: seq<byte>)                            // bulk writes; sets TX_C once rest is empty
    // recv_packet
    | WantRequest                                         // while TX_REQ is clear
    | ClearRequest                                        // about to clear TX_REQ
    | ReadHeader(got: seq<byte>)                          // 8-byte bulk read
    | ReadBody(size: u32, kind: u32, got: seq<byte>)      // bulk read of `size` bytes
    | WantComplete(q: Packet)                             // while TX_C is clear
    | ClearComplete(q: Packet)                            // about to clear TX_C

  datatype State = State(
    request: bool,               // TX_REQ
    complete: bool,              // TX_C
    ready: bool,                 // TX_RDY, driven by the controller
    pipe: Pair<seq<byte>>,       // bytes written by each side and not yet read
    pc: Pair<Pc>,
    done: Pair<nat>,             // calls each side has finished
    sent: seq<Packet>,           // packets handed to send_packet, in order
    received: seq<Packet>)       // packets recv_packet has returned, in order

  datatype Move =
    | SetReady(on: bool)               // the controller changes TX_RDY
    | Call(side: Side, p: Packet)      // enter send_packet(p), or recv_packet if it is the other side's turn to send
    | Go(side: Side, n: nat)           // next step of the current call; n is the length of a bulk piece

  const Start := State(false, false, false, Pair([], []), Pair(Idle, Idle), Pair(0, 0), [], [])

  predicate Enabled(s: State, m: Move) {
    match m
    case SetReady(_) => true
    case Call(x, p) => s.pc.At(x).Idle? && Fits(p)
    case Go(x, n) =>
      match s.pc.At(x)
      case Idle => false
      case WantReady(_) => s.ready
      case RaiseRequest(_) => true
      case WantCleared(p) => !s.request && Fits(p)
      case Writing(rest) => rest == [] || 1 <= n <= |rest|
      case WantRequest => s.request
      case ClearRequest => true
      case ReadHeader(got) => 1 <= n <= |s.pipe.At(Other(x))| && |got| + n <= HEADER_SIZE
      case ReadBody(size, _, got) => 1 <= n <= |s.pipe.At(Other(x))| && |got| + n <= size
      case WantComplete(_) => s.complete
      case ClearComplete(_) => true
  }

  /** Where recv_packet goes once `h` header bytes are in. */
  function AfterHeader(h: seq<byte>): Pc {
    if |h| != HEADER_SIZE then ReadHeader(h)
    else if SizeField(h) == 0 then WantComplete(Packet(KindField(h), []))
    else ReadBody(SizeField(h), KindField(h), [])
  }

  function AfterBody(size: u32, kind: u32, got: seq<byte>): Pc {
    if |got| != size then ReadBody(size, kind, got) else WantComplete(Packet(kind, got))
  }

  function Apply(role: Roles, s: State, m: Move): State
    requires Enabled(s, m)
  {
    match m
    case SetReady(b) => s.(ready := b)
    case Call(x, p) =>
      if role(s.done.At(x)) == x then s.(pc := s.pc.With(x, WantReady(p)), sent := s.sent + [p])
      else s.(pc := s.pc.With(x, WantRequest))
    case Go(x, n) => Step(s, x, n)
  }

  function Step(s: State, x: Side, n: nat): State
    requires Enabled(s, Go(x, n))
  {
    var y := Other(x);
    match s.pc.At(x)
    case Idle => s
    case WantReady(p) => s.(pc := s.pc.With(x, RaiseRequest(p)))
    case RaiseRequest(p) => s.(request := true, pc := s.pc.With(x, WantCleared(p)))
    case WantCleared(p) => s.(pc := s.pc.With(x, Writing(Encode(p))))
    case Writing(rest) =>
      if rest == [] then
        s.(complete := true, pc := s.pc.With(x, Idle), done := s.done.With(x, s.done.At(x) + 1))
      else
        s.(pipe := s.pipe.With(x, s.pipe.At(x) + rest[..n]), pc := s.pc.With(x, Writing(rest[n..])))
    case WantRequest => s.(pc := s.pc.With(x, ClearRequest))
    case ClearRequest => s.(request := false, pc := s.pc.With(x, ReadHeader([])))
    case ReadHeader(got) =>
      s.(pipe := s.pipe.With(y, s.pipe.At(y)[n..]),
         pc := s.pc.With(x, AfterHeader(got + s.pipe.At(y)[..n])))
    case ReadBody(size, kind, got) =>
      s.(pipe := s.pipe.With(y, s.pipe.At(y)[n..]),
         pc := s.pc.With(x, AfterBody(size, kind, got + s.pipe.At(y)[..n])))
    case WantComplete(q) => s.(pc := s.pc.With(x, ClearComplete(q)))
    case ClearComplete(q) =>
      s.(complete := false, received := s.received + [q],
         pc := s.pc.With(x, Idle), done := s.done.With(x, s.done.At(x) + 1))
  }

  /** The moves can be made one after the other, starting in s. */
  predicate Legal(role: Roles, s: State, moves: seq<Move>)
    decreases |moves|
  {
    moves == [] || (Enabled(s, moves[0]) && Legal(role, Apply(role, s, moves[0]), moves[1..]))
  }

  function Exec(role: Roles, s: State, moves: seq<Move>): State
    requires Legal(role, s, moves)
    decreases |moves|
  {
    if moves == [] then s else Exec(role, Apply(role, s, moves[0]), moves[1..])
  }

  // ---- The invariant ----

  /** Number of the transfer in progress: the packets received so far. */
  function Current(s: State): nat {
    |s.received|
  }

  function Sender(role: Roles, s: State): Side {
    role(Current(s))
  }

  /** Packet p is split between the receiver at pc, the pipe, and what is still to be written. */
  ghost predicate InFlight(pc: Pc, pipe: seq<byte>, rest: seq<byte>, p: Packet) {
    && Fits(p)
    && match pc
       case ReadHeader(got) => |got| < HEADER_SIZE && got + pipe + rest == Encode(p)
       case ReadBody(size, kind, got) =>
         |got| < size == |p.body| && kind == p.kind && got + pipe + rest == p.body
       case WantComplete(q) => q == p && pipe == [] && rest == []
       case ClearComplete(q) => q == p && pipe == [] && rest == []
       case _ => false
  }

  predicate Waiting(pc: Pc) {
    pc.Idle? || pc.WantRequest?
  }

  /** p is the last packet handed to send_packet, and it is packet number k. */
  predicate Latest(s: State, k: nat, p: Packet) {
    Fits(p) && |s.sent| == k + 1 && s.sent[k] == p
  }

  /** Both sides are in transfer k; x sends it. */
  ghost predicate Underway(s: State, k: nat, x: Side) {
    var y, pipe := Other(x), s.pipe.At(x);
    && s.done.At(x) == k
    && !s.complete
    && match s.pc.At(x)
       case Idle => |s.sent| == k && !s.request && pipe == [] && Waiting(s.pc.At(y))
       case WantReady(p) => Latest(s, k, p) && !s.request && pipe == [] && Waiting(s.pc.At(y))
       case RaiseRequest(p) => Latest(s, k, p) && !s.request && pipe == [] && Waiting(s.pc.At(y))
       case WantCleared(p) =>
         && Latest(s, k, p)
         && pipe == []
         && (if s.request then Waiting(s.pc.At(y)) || s.pc.At(y).ClearRequest? else s.pc.At(y) == ReadHeader([]))
       case Writing(rest) =>
         && |s.sent| == k + 1
         && !s.request
         && InFlight(s.pc.At(y), pipe, rest, s.sent[k])
         && !s.pc.At(y).ClearComplete?
       case _ => false
  }

  /** x has finished sending packet k and may have entered its next call; the other side has not. */
  ghost predicate Draining(role: Roles, s: State, k: nat, x: Side) {
    var y := Other(x);
    && s.done.At(x) == k + 1
    && s.complete
    && |s.sent| >= k + 1
    && InFlight(s.pc.At(y), s.pipe.At(x), [], s.sent[k])
    && match s.pc.At(x)
       case Idle => |s.sent| == k + 1 && !s.request
       case WantReady(p) => role(k + 1) == x && Latest(s, k + 1, p) && !s.request
       case RaiseRequest(p) => role(k + 1) == x && Latest(s, k + 1, p) && !s.request
       case WantCleared(p) => role(k + 1) == x && Latest(s, k + 1, p) && s.request
       case WantRequest => role(k + 1) == y && |s.sent| == k + 1 && !s.request
       case _ => false
  }

  ghost predicate Inv(role: Roles, s: State) {
    var k := Current(s);
    var x := role(k);
    && s.done.At(Other(x)) == k
    && s.pipe.At(Other(x)) == []
    && k <= |s.sent|
    && s.received == s.sent[..k]
    && (Underway(s, k, x) || Draining(role, s, k, x))
  }

  lemma CallKeepsInv(role: Roles, s: State, x: Side, p: Packet)
    requires Inv(role, s) && Enabled(s, Call(x, p))
    ensures Inv(role, Apply(role, s, Call(x, p)))
  {
  }

  /** Writing n more bytes, or reading n bytes, moves them along without loss or reordering. */
  lemma WriteKeepsInFlight(pc: Pc, pipe: seq<byte>, rest: seq<byte>, p: Packet, n: nat)
    requires InFlight(pc, pipe, rest, p) && n <= |rest|
    ensures InFlight(pc, pipe + rest[..n], rest[n..], p)
  {
    assert rest == rest[..n] + rest[n..];
    match pc
    case ReadHeader(got) => assert got + (pipe + rest[..n]) + rest[n..] == got + pipe + rest;
    case ReadBody(_, _, got) => assert got + (pipe + rest[..n]) + rest[n..] == got + pipe + rest;
    case _ =>
  }

  lemma HeaderReadKeepsInFlight(got: seq<byte>, pipe: seq<byte>, rest: seq<byte>, p: Packet, n: nat)
    requires InFlight(ReadHeader(got), pipe, rest, p)
    requires 1 <= n <= |pipe| && |got| + n <= HEADER_SIZE
    ensures InFlight(AfterHeader(got + pipe[..n]), pipe[n..], rest, p)
  {
    var h := got + pipe[..n];
    assert h + pipe[n..] + rest == got + pipe + rest;
    if |h| == HEADER_SIZE {
      HeaderRoundTrip(p);
      assert h == (h + pipe[n..] + rest)[..HEADER_SIZE] == Header(p);
      assert pipe[n..] + rest == (h + pipe[n..] + rest)[HEADER_SIZE..] == p.body;
      assert [] + pipe[n..] + rest == p.body;
    }
  }

  lemma BodyReadKeepsInFlight(size: u32, kind: u32, got: seq<byte>, pipe: seq<byte>, rest: seq<byte>, p: Packet, n: nat)
    requires InFlight(ReadBody(size, kind, got), pipe, rest, p)
    requires 1 <= n <= |pipe| && |got| + n <= size
    ensures InFlight(AfterBody(size, kind, got + pipe[..n]), pipe[n..], rest, p)
  {
    var h := got + pipe[..n];
    assert h + pipe[n..] + rest == got + pipe + rest;
    if |h| == size {
      assert h == (h + pipe[n..] + rest)[..size];
    }
  }

  lemma SenderStepKeepsInv(role: Roles, s: State, n: nat)
    requires Inv(role, s) && Enabled(s, Go(Sender(role, s), n))
    ensures Inv(role, Apply(role, s, Go(Sender(role, s), n)))
  {
    var k, x := Current(s), Sender(role, s);
    var y := Other(x);
    match s.pc.At(x)
    case WantCleared(p) =>
      assert [] + [] + Encode(p) == Encode(p);
    case Writing(rest) =>
      if rest != [] {
        WriteKeepsInFlight(s.pc.At(y), s.pipe.At(x), rest, s.sent[k], n);
      }
    case _ =>
  }

  lemma ReadKeepsInv(role: Roles, s: State, n: nat)
    requires Inv(role, s)
    requires var pc := s.pc.At(Other(Sender(role, s))); pc.ReadHeader? || pc.ReadBody?
    requires Enabled(s, Go(Other(Sender(role, s)), n))
    ensures Inv(role, Apply(role, s, Go(Other(Sender(role, s)), n)))
  {
    var k, x := Current(s), Sender(role, s);
    var pipe, rest := s.pipe.At(x), if s.done.At(x) == k then s.pc.At(x).rest else [];
    match s.pc.At(Other(x))
    case ReadHeader(got) => HeaderReadKeepsInFlight(got, pipe, rest, s.sent[k], n);
    case ReadBody(size, kind, got) => BodyReadKeepsInFlight(size, kind, got, pipe, rest, s.sent[k], n);
  }

  lemma ReceiveKeepsInv(role: Roles, s: State, n: nat)
    requires Inv(role, s)
    requires s.pc.At(Other(Sender(role, s))).ClearComplete?
    ensures Inv(role, Apply(role, s, Go(Other(Sender(role, s)), n)))
  {
    var k, x := Current(s), Sender(role, s);
    assert Draining(role, s, k, x);
    assert s.received + [s.sent[k]] == s.sent[..k + 1];
  }

  lemma ReceiverStepKeepsInv(role: Roles, s: State, n: nat)
    requires Inv(role, s) && Enabled(s, Go(Other(Sender(role, s)), n))
    ensures Inv(role, Apply(role, s, Go(Other(Sender(role, s)), n)))
  {
    match s.pc.At(Other(Sender(role, s)))
    case ReadHeader(_) => ReadKeepsInv(role, s, n);
    case ReadBody(_, _, _) => ReadKeepsInv(role, s, n);
    case ClearComplete(_) => ReceiveKeepsInv(role, s, n);
    case _ =>
  }

  lemma StepKeepsInv(role: Roles, s: State, m: Move)
    requires Inv(role, s) && Enabled(s, m)
    ensures Inv(role, Apply(role, s, m))
  {
    match m
    case SetReady(_) =>
    case Call(x, p) => CallKeepsInv(role, s, x, p);
    case Go(x, n) =>
      if x == Sender(role, s) {
        SenderStepKeepsInv(role, s, n);
      } else {
        ReceiverStepKeepsInv(role, s, n);
      }
  }

  lemma {:induction false} RunKeepsInv(role: Roles, s: State, moves: seq<Move>)
    requires Inv(role, s) && Legal(role, s, moves)
    ensures Inv(role, Exec(role, s, moves))
    decreases |moves|
  {
    if moves != [] {
      StepKeepsInv(role, s, moves[0]);
      RunKeepsInv(role, Apply(role, s, moves[0]), moves[1..]);
    }
  }

  // ---- Safety of every run ----

  /** Packets arrive unchanged, in order and without loss or duplication: at most the one in
      transit and the one the next call waits to send are outstanding. */
  lemma InOrderDelivery(role: Roles, moves: seq<Move>)
    requires Legal(role, Start, moves)
    ensures var s := Exec(role, Start, moves);
            && |s.received| <= |s.sent| <= |s.received| + 2
            && s.received == s.sent[..|s.received|]
  {
    RunKeepsInv(role, Start, moves);
  }

  /** Setting TX_C never overwrites one the receiver has not consumed, nor TX_REQ an unanswered
      one, and each flag is cleared only while it is set. */
  lemma FlagsNeverCollide(role: Roles, moves: seq<Move>, x: Side, n: nat)
    requires Legal(role, Start, moves)
    requires Enabled(Exec(role, Start, moves), Go(x, n))
    ensures var s := Exec(role, Start, moves);
            match s.pc.At(x)
            case Writing(rest) => rest == [] ==> !s.complete
            case RaiseRequest(_) => !s.request
            case ClearRequest => s.request
            case ClearComplete(_) => s.complete
            case _ => true
  {
    RunKeepsInv(role, Start, moves);
  }

  /** piece is a contiguous piece of whole. */
  ghost predicate Piece(piece: seq<byte>, whole: seq<byte>) {
    exists a, c :: a + piece + c == whole
  }

  lemma InFlightPiece(pc: Pc, pipe: seq<byte>, rest: seq<byte>, p: Packet)
    requires InFlight(pc, pipe, rest, p)
    ensures Piece(pipe, Encode(p))
  {
    match pc
    case ReadHeader(got) => assert got + pipe + rest == Encode(p);
    case ReadBody(_, _, got) => assert (Header(p) + got) + pipe + rest == Encode(p);
    case WantComplete(_) => assert [] + pipe + Encode(p) == Encode(p);
    case ClearComplete(_) => assert [] + pipe + Encode(p) == Encode(p);
    case _ =>
  }

  /** Whatever is on a pipe is a contiguous piece of one packet, the one in transit. */
  lemma PipeHoldsOnePacket(role: Roles, moves: seq<Move>, x: Side)
    requires Legal(role, Start, moves)
    ensures var s := Exec(role, Start, moves);
            var k := |s.received|;
            s.pipe.At(x) != [] ==>
              x == role(k) && k < |s.sent| && Fits(s.sent[k]) && Piece(s.pipe.At(x), Encode(s.sent[k]))
  {
    RunKeepsInv(role, Start, moves);
    var s := Exec(role, Start, moves);
    var k := Current(s);
    if s.pipe.At(x) != [] {
      assert s.done.At(x) == k ==> s.pc.At(x).Writing?;
      InFlightPiece(s.pc.At(Other(x)), s.pipe.At(x), if s.done.At(x) == k then s.pc.At(x).rest else [], s.sent[k]);
    }
  }

  /** naplink_process may take a set TX_REQ for an incoming packet: a party that is between two
      calls sees the flag set only if the other party is waiting to send to it. */
  lemma PolledRequestIsIncoming(role: Roles, moves: seq<Move>, x: Side)
    requires Legal(role, Start, moves)
    ensures var s := Exec(role, Start, moves);
            s.pc.At(x).Idle? && s.request ==> role(s.done.At(x)) == Other(x) && s.pc.At(Other(x)).WantCleared?
  {
    RunKeepsInv(role, Start, moves);
  }

  // ---- Runs, prefix by prefix ----

  lemma {:induction false} RunsSplit(role: Roles, s: State, a: seq<Move>, b: seq<Move>)
    ensures Legal(role, s, a + b) <==> Legal(role, s, a) && Legal(role, Exec(role, s, a), b)
    ensures Legal(role, s, a + b) ==> Exec(role, s, a + b) == Exec(role, Exec(role, s, a), b)
    decreases |a|
  {
    if a == [] {
      assert a + b == b;
    } else {
      assert (a + b)[0] == a[0] && (a + b)[1..] == a[1..] + b;
      if Enabled(s, a[0]) {
        RunsSplit(role, Apply(role, s, a[0]), a[1..], b);
      }
    }
  }

  /** The state after the first k moves of a run. */
  function After(role: Roles, moves: seq<Move>, k: nat): State
    requires Legal(role, Start, moves) && k <= |moves|
  {
    RunsSplit(role, Start, moves[..k], moves[k..]);
    assert moves[..k] + moves[k..] == moves;
    Exec(role, Start, moves[..k])
  }

  lemma AfterNext(role: Roles, moves: seq<Move>, k: nat)
    requires Legal(role, Start, moves) && k < |moves|
    ensures Enabled(After(role, moves, k), moves[k])
    ensures After(role, moves, k + 1) == Apply(role, After(role, moves, k), moves[k])
  {
    assert moves[..k] + moves[k..] == moves && moves[..k + 1] == moves[..k] + [moves[k]];
    RunsSplit(role, Start, moves[..k], moves[k..]);
    RunsSplit(role, Start, moves[..k], [moves[k]]);
    assert [moves[k]][1..] == [];
  }

  // ---- Nothing is sent before TX_RDY ----

  /** Move c is the call x is in after k moves. */
  predicate LastCall(moves: seq<Move>, x: Side, c: nat, k: nat)
    requires k <= |moves|
  {
    c < k && moves[c].Call? && moves[c].side == x && forall i :: c < i < k ==> !(moves[i].Call? && moves[i].side == x)
  }

  predicate ReadyAt(role: Roles, moves: seq<Move>, j: nat)
    requires Legal(role, Start, moves) && j <= |moves|
  {
    After(role, moves, j).ready
  }

  predicate ReadyIn(role: Roles, moves: seq<Move>, x: Side, k: nat, c: nat, j: nat)
    requires Legal(role, Start, moves) && k <= |moves|
  {
    LastCall(moves, x, c, k) && c < j <= k && ReadyAt(role, moves, j)
  }

  /** TX_RDY has been set at some time since x entered the call it is in after k moves. */
  ghost predicate ReadySince(role: Roles, moves: seq<Move>, x: Side, k: nat)
    requires Legal(role, Start, moves) && k <= |moves|
  {
    exists c: nat, j: nat :: ReadyIn(role, moves, x, k, c, j)
  }

  /** A side that is sending has been through the wait for TX_RDY. */
  predicate PastReady(pc: Pc) {
    pc.RaiseRequest? || pc.WantCleared? || pc.Writing?
  }

  lemma ReadyStays(role: Roles, moves: seq<Move>, x: Side, k: nat)
    requires Legal(role, Start, moves) && k < |moves| && ReadySince(role, moves, x, k)
    requires !(moves[k].Call? && moves[k].side == x)
    ensures ReadySince(role, moves, x, k + 1)
  {
    var c: nat, j: nat :| ReadyIn(role, moves, x, k, c, j);
    assert ReadyIn(role, moves, x, k + 1, c, j);
  }

  ghost predicate InCall(moves: seq<Move>, x: Side, k: nat)
    requires k <= |moves|
  {
    exists c: nat :: LastCall(moves, x, c, k)
  }

  lemma CallStays(moves: seq<Move>, x: Side, k: nat)
    requires k < |moves| && (InCall(moves, x, k) || (moves[k].Call? && moves[k].side == x))
    ensures InCall(moves, x, k + 1)
  {
    if moves[k].Call? && moves[k].side == x {
      assert LastCall(moves, x, k, k + 1);
    } else {
      var c: nat :| LastCall(moves, x, c, k);
      assert LastCall(moves, x, c, k + 1);
    }
  }

  /** A step of x itself gets past the wait for TX_RDY only while that is set. */
  lemma OwnStep(s: State, x: Side, n: nat)
    requires Enabled(s, Go(x, n))
    ensures var pc, pc' := s.pc.At(x), Step(s, x, n).pc.At(x);
            !pc.Idle? && (PastReady(pc') ==> PastReady(pc) || (pc.WantReady? && s.ready))
  {
    match s.pc.At(x)
    case ReadHeader(_) =>
    case ReadBody(_, _, _) =>
    case _ =>
  }

  lemma OthersStep(s: State, x: Side, n: nat)
    requires Enabled(s, Go(x, n))
    ensures Step(s, x, n).pc.At(Other(x)) == s.pc.At(Other(x))
  {
  }

  /** What one move can do to the place of x in its call. */
  lemma PcMoves(role: Roles, s: State, m: Move, x: Side)
    requires Enabled(s, m)
    ensures var pc, pc' := s.pc.At(x), Apply(role, s, m).pc.At(x);
            if m.Call? && m.side == x then !PastReady(pc')
            else (pc.Idle? ==> pc'.Idle?) && (PastReady(pc') ==> PastReady(pc) || (pc.WantReady? && s.ready))
  {
    if m.Go? {
      OwnStep(s, m.side, m.n);
      OthersStep(s, m.side, m.n);
    }
  }

  lemma {:induction false} SendingSinceReady(role: Roles, moves: seq<Move>, x: Side, k: nat)
    requires Legal(role, Start, moves) && k <= |moves|
    ensures !After(role, moves, k).pc.At(x).Idle? ==> InCall(moves, x, k)
    ensures PastReady(After(role, moves, k).pc.At(x)) ==> ReadySince(role, moves, x, k)
  {
    if k == 0 {
      assert moves[..0] == [];
    } else {
      SendingSinceReady(role, moves, x, k - 1);
      AfterNext(role, moves, k - 1);
      SinceReadyStep(role, moves, x, k - 1, After(role, moves, k - 1), After(role, moves, k));
    }
  }

  lemma SinceReadyStep(role: Roles, moves: seq<Move>, x: Side, k: nat, s: State, t: State)
    requires Legal(role, Start, moves) && k < |moves| && s == After(role, moves, k)
    requires Enabled(s, moves[k]) && t == Apply(role, s, moves[k])
    requires !s.pc.At(x).Idle? ==> InCall(moves, x, k)
    requires PastReady(s.pc.At(x)) ==> ReadySince(role, moves, x, k)
    ensures !t.pc.At(x).Idle? ==> InCall(moves, x, k + 1)
    ensures PastReady(t.pc.At(x)) ==> ReadySince(role, moves, x, k + 1)
  {
    PcMoves(role, s, moves[k], x);
    if !t.pc.At(x).Idle? {
      CallStays(moves, x, k);
    }
    if PastReady(t.pc.At(x)) {
      if !PastReady(s.pc.At(x)) {
        var c: nat :| LastCall(moves, x, c, k);
        assert ReadyIn(role, moves, x, k, c, k);
      }
      ReadyStays(role, moves, x, k);
    }
  }

  /** In every run, the move that sets TX_REQ is a step of a send_packet during which TX_RDY has been set. */
  lemma RequestNeedsReady(role: Roles, moves: seq<Move>, k: nat)
    requires Legal(role, Start, moves) && k < |moves|
    requires !After(role, moves, k).request && After(role, moves, k + 1).request
    ensures moves[k].Go? && ReadySince(role, moves, moves[k].side, k)
  {
    AfterNext(role, moves, k);
    if moves[k].Go? {
      SendingSinceReady(role, moves, moves[k].side, k);
    }
  }

  predicate PastWait(pc: Pc) {
    !pc.Idle? && !pc.WantReady? && !pc.WantRequest?
  }

  /** Nothing has been sent, and nobody has got past a wait. */
  predicate Silent(s: State) {
    && !s.ready && !s.request && !s.complete && s.pipe == Pair([], []) && s.received == []
    && !PastWait(s.pc.host) && !PastWait(s.pc.target)
  }

  /** While the controller never sets TX_RDY, TX_REQ stays clear, no byte is written and no packet received,
      whatever calls the parties make. */
  lemma {:induction false} NothingWithoutReady(role: Roles, s: State, moves: seq<Move>)
    requires Silent(s) && Legal(role, s, moves) && SetReady(true) !in moves
    ensures Silent(Exec(role, s, moves))
    decreases |moves|
  {
    if moves != [] {
      NothingWithoutReady(role, Apply(role, s, moves[0]), moves[1..]);
    }
  }

  /** In particular from the start of a run. */
  lemma NoTransferWithoutReady(role: Roles, moves: seq<Move>)
    requires Legal(role, Start, moves) && SetReady(true) !in moves
    ensures var s := Exec(role, Start, moves); !s.request && !s.complete && s.pipe == Pair([], []) && s.received == []
  {
    NothingWithoutReady(role, Start, moves);
  }

  // ---- Progress of every run ----

  /** Some party has yet to make the call that takes part in the current transfer. */
  predicate AwaitsCall(s: State) {
    exists x :: s.pc.At(x).Idle? && s.done.At(x) == Current(s)
  }

  /** Once both parties have made their calls and TX_RDY is granted, one of them can move. */
  lemma NeverStuck(role: Roles, moves: seq<Move>) returns (x: Side, n: nat)
    requires Legal(role, Start, moves)
    requires var s := Exec(role, Start, moves); s.ready && !AwaitsCall(s)
    ensures Enabled(Exec(role, Start, moves), Go(x, n))
  {
    RunKeepsInv(role, Start, moves);
    var s := Exec(role, Start, moves);
    var k, snd := Current(s), Sender(role, s);
    var rcv := Other(snd);
    assert !(s.pc.At(snd).Idle? && s.done.At(snd) == k) && !(s.pc.At(rcv).Idle? && s.done.At(rcv) == k);
    n := 1;
    if s.done.At(snd) == k && (!s.pc.At(snd).WantCleared? || !s.request) {
      x := snd;
    } else {
      x := rcv;
      if s.done.At(snd) == k + 1 {
        ReaderHasBytes(s.pc.At(rcv), s.pipe.At(snd), s.sent[k]);
      }
    }
  }

  /** With everything written, a receiver still reading finds bytes on the pipe. */
  lemma ReaderHasBytes(pc: Pc, pipe: seq<byte>, p: Packet)
    requires InFlight(pc, pipe, [], p)
    ensures pc.ReadHeader? || pc.ReadBody? ==> pipe != []
  {
    match pc
    case ReadHeader(got) => assert |got + pipe + []| == |Encode(p)|;
    case ReadBody(_, _, got) => assert |got + pipe + []| == |p.body|;
    case _ =>
  }

  function Rank(pc: Pc): nat {
    match pc
    case Idle => 6
    case WantReady(_) => 5
    case RaiseRequest(_) => 4
    case WantCleared(_) => 3
    case Writing(_) => 2
    case WantRequest => 5
    case ClearRequest => 4
    case ReadHeader(_) => 3
    case ReadBody(_, _, _) => 2
    case WantComplete(_) => 1
    case ClearComplete(_) => 0
  }

  function Stage(s: State, x: Side): nat {
    Rank(s.pc.At(x)) + if s.done.At(x) == Current(s) then 7 else 0
  }

  /** Bytes of the current packet that still have to be written count twice, those on the pipe once. */
  function BytesLeft(s: State, x: Side): nat {
    if s.done.At(x) != Current(s) then |s.pipe.At(x)|
    else
      match s.pc.At(x)
      case WantReady(p) => 2 * (HEADER_SIZE + |p.body|)
      case RaiseRequest(p) => 2 * (HEADER_SIZE + |p.body|)
      case WantCleared(p) => 2 * (HEADER_SIZE + |p.body|)
      case Writing(rest) => 2 * |rest| + |s.pipe.At(x)|
      case _ => 0
  }

  function Work(role: Roles, s: State): nat {
    Stage(s, Host) + Stage(s, Target) + BytesLeft(s, Sender(role, s))
  }

  /** The sender of the current packet has called send_packet. */
  predicate Started(role: Roles, s: State) {
    !(s.pc.At(Sender(role, s)).Idle? && s.done.At(Sender(role, s)) == Current(s))
  }

  ghost predicate Progress(role: Roles, s: State, m: Move, t: State) {
    || Current(t) == Current(s) + 1
    || (Current(t) == Current(s) && Started(role, t)
        && Work(role, t) + (if m.SetReady? then 0 else 1) <= Work(role, s))
  }

  lemma SenderMakesProgress(role: Roles, s: State, n: nat)
    requires Inv(role, s) && Enabled(s, Go(Sender(role, s), n)) && Started(role, s)
    ensures Progress(role, s, Go(Sender(role, s), n), Apply(role, s, Go(Sender(role, s), n)))
  {
  }

  lemma ReadMakesProgress(role: Roles, s: State, n: nat)
    requires Inv(role, s) && Started(role, s)
    requires var pc := s.pc.At(Other(Sender(role, s))); pc.ReadHeader? || pc.ReadBody?
    requires Enabled(s, Go(Other(Sender(role, s)), n))
    ensures Progress(role, s, Go(Other(Sender(role, s)), n), Apply(role, s, Go(Other(Sender(role, s)), n)))
  {
    var x := Sender(role, s);
    var y := Other(x);
    assert s.done.At(x) != Current(s) || s.pc.At(x).Writing?;
    var t := Step(s, y, n);
    assert Stage(t, y) <= Stage(s, y) by {
      assert Rank(t.pc.At(y)) <= Rank(s.pc.At(y));
    }
    assert Stage(t, x) == Stage(s, x);
    assert BytesLeft(t, x) == BytesLeft(s, x) - n;
  }

  lemma ReceiverMakesProgress(role: Roles, s: State, n: nat)
    requires Inv(role, s) && Enabled(s, Go(Other(Sender(role, s)), n)) && Started(role, s)
    ensures Progress(role, s, Go(Other(Sender(role, s)), n), Apply(role, s, Go(Other(Sender(role, s)), n)))
  {
    match s.pc.At(Other(Sender(role, s)))
    case ReadHeader(_) => ReadMakesProgress(role, s, n);
    case ReadBody(_, _, _) => ReadMakesProgress(role, s, n);
    case ClearComplete(q) => assert Current(Step(s, Other(Sender(role, s)), n)) == Current(s) + 1;
    case _ =>
  }

  lemma MoveMakesProgress(role: Roles, s: State, m: Move)
    requires Inv(role, s) && Enabled(s, m) && Started(role, s)
    ensures Progress(role, s, m, Apply(role, s, m))
  {
    match m
    case SetReady(_) =>
    case Call(_, _) =>
    case Go(x, n) =>
      if x == Sender(role, s) {
        SenderMakesProgress(role, s, n);
      } else {
        ReceiverMakesProgress(role, s, n);
      }
  }

  /** Number of moves made by the two programs, as opposed to the controller. */
  function ProgramMoves(moves: seq<Move>): nat {
    if moves == [] then 0 else (if moves[0].SetReady? then 0 else 1) + ProgramMoves(moves[1..])
  }

  lemma {:induction false} WorkBoundsRun(role: Roles, s: State, moves: seq<Move>) returns (i: nat)
    requires Inv(role, s) && Legal(role, s, moves) && Started(role, s)
    requires ProgramMoves(moves) > Work(role, s)
    ensures i <= |moves| && Legal(role, s, moves[..i]) && Current(Exec(role, s, moves[..i])) == Current(s) + 1
    decreases |moves|
  {
    var t := Apply(role, s, moves[0]);
    MoveMakesProgress(role, s, moves[0]);
    var tail := moves[1..];
    i := 0;
    if Current(t) == Current(s) {
      StepKeepsInv(role, s, moves[0]);
      i := WorkBoundsRun(role, t, tail);
    }
    assert moves[..i + 1][0] == moves[0] && moves[..i + 1][1..] == tail[..i];
    i := i + 1;
  }

  /** No livelock: from any reachable state in which a packet p is being sent, every schedule
      delivers it within 42 + 2|p| steps of the two programs. */
  lemma DeliveredWithinBound(role: Roles, moves: seq<Move>, more: seq<Move>) returns (i: nat)
    requires Legal(role, Start, moves)
    requires var s := Exec(role, Start, moves);
             && Started(role, s)
             && Legal(role, s, more)
             && (Current(s) < |s.sent| ==> ProgramMoves(more) > 42 + 2 * |s.sent[Current(s)].body|)
    ensures var s := Exec(role, Start, moves);
            && Current(s) < |s.sent|
            && i <= |more| && Legal(role, s, more[..i])
            && Exec(role, s, more[..i]).received == s.received + [s.sent[Current(s)]]
  {
    RunKeepsInv(role, Start, moves);
    var s := Exec(role, Start, moves);
    BytesLeftBound(role, s);
    i := WorkBoundsRun(role, s, more);
    NextIsReceived(role, s, more[..i]);
  }

  lemma NextIsReceived(role: Roles, s: State, moves: seq<Move>)
    requires Inv(role, s) && Legal(role, s, moves)
    requires Current(s) < |s.sent| && Current(Exec(role, s, moves)) == Current(s) + 1
    ensures Exec(role, s, moves).received == s.received + [s.sent[Current(s)]]
  {
    RunKeepsInv(role, s, moves);
    SentOnlyGrows(role, s, moves);
    var k, t := Current(s), Exec(role, s, moves);
    assert t.sent[..k + 1] == s.sent[..k] + [s.sent[k]];
  }

  lemma BytesLeftBound(role: Roles, s: State)
    requires Inv(role, s) && Started(role, s)
    ensures Current(s) < |s.sent|
    ensures BytesLeft(s, Sender(role, s)) <= 2 * (HEADER_SIZE + |s.sent[Current(s)].body|)
  {
    var k, x := Current(s), Sender(role, s);
    var pipe := s.pipe.At(x);
    if s.pc.At(x).Writing? || s.done.At(x) != k {
      var rest := if s.done.At(x) == k then s.pc.At(x).rest else [];
      match s.pc.At(Other(x))
      case ReadHeader(got) => assert |got + pipe + rest| == |Encode(s.sent[k])|;
      case ReadBody(_, _, got) => assert |got + pipe + rest| == |s.sent[k].body|;
      case _ =>
    }
  }

  lemma {:induction false} SentOnlyGrows(role: Roles, s: State, moves: seq<Move>)
    requires Legal(role, s, moves)
    ensures s.sent <= Exec(role, s, moves).sent
    decreases |moves|
  {
    if moves != [] {
      SentOnlyGrows(role, Apply(role, s, moves[0]), moves[1..]);
    }
  }
}
