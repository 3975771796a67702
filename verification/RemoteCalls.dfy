/**
 File calls of the target, end to end: a request laid out by the structs of packet.h goes through the
 dispatch, and the reply decoded by the rules of get_return is what the host's system call returned.
*/
module RemoteCalls {
  import opened Bytes
  import opened Lists
  import opened Wire
  import opened Naplink
  import opened RpcTrace

  /** int fields one behind the other. */
  function Fields(xs: seq<i32>): (b: seq<byte>)
    ensures |b| == 4 * |xs|
  {
    if xs == [] then [] else PutLE32(ToU32(xs[0])) + Fields(xs[1..])
  }

  lemma {:induction false} FieldsAt(xs: seq<i32>, tail: seq<byte>, i: nat)
    requires i < |xs|
    ensures FieldAt(Fields(xs) + tail, 4 * i) == xs[i]
  {
    var b := Fields(xs) + tail;
    if i == 0 {
      var w := PutLE32(ToU32(xs[0]));
      assert [ByteAt(b, 0), ByteAt(b, 1), ByteAt(b, 2), ByteAt(b, 3)] == w + [];
      LE32RoundTrip(ToU32(xs[0]), []);
      SignedUnsigned(xs[0]);
    } else {
      FieldsAt(xs[1..], tail, i - 1);
      var c := Fields(xs[1..]) + tail;
      assert forall k: nat :: ByteAt(b, k + 4) == ByteAt(c, k);
    }
  }

  /** A name as bytes, without its terminator. */
  function Chars(b: seq<byte>): string {
    if b == [] then "" else [b[0] as char] + Chars(b[1..])
  }

  lemma {:induction false} NameAt(b: seq<byte>, at: nat, name: seq<byte>)
    requires at + |name| < |b| && b[at..at + |name|] == name && b[at + |name|] == 0 && 0 !in name
    ensures CStringAt(b, at) == Chars(name)
    decreases |name|
  {
    if name != [] {
      assert name[0] == b[at];
      assert name[1..] == b[at + 1..at + |name|];
      NameAt(b, at + 1, name[1..]);
    }
  }

  /** The flag word is the sum of the target's bits for fl and of bits the host does not look at. */
  predicate WordFor(word: u32, fl: set<OpenFlag>, a: nat, b: nat, c: nat) {
    && a < 0x2 && b < 0x40
    && word == a
               + (if WriteOnly in fl then 0x2 else 0)
               + 0x4 * b
               + (if Append in fl then 0x100 else 0)
               + (if Create in fl then 0x200 else 0)
               + (if Truncate in fl then 0x400 else 0)
               + 0x800 * c
  }

  function Bit(on: bool): int {
    if on then 1 else 0
  }

  lemma Bit2(w: nat, low: nat, on: bool, high: nat)
    requires low < 0x2 && w == low + 0x2 * (Bit(on) + 2 * high)
    ensures w / 0x2 % 2 == Bit(on)
  {
    assert w / 0x2 == Bit(on) + 2 * high;
  }

  lemma Bit100(w: nat, low: nat, on: bool, high: nat)
    requires low < 0x100 && w == low + 0x100 * (Bit(on) + 2 * high)
    ensures w / 0x100 % 2 == Bit(on)
  {
    assert w / 0x100 == Bit(on) + 2 * high;
  }

  lemma Bit200(w: nat, low: nat, on: bool, high: nat)
    requires low < 0x200 && w == low + 0x200 * (Bit(on) + 2 * high)
    ensures w / 0x200 % 2 == Bit(on)
  {
    assert w / 0x200 == Bit(on) + 2 * high;
  }

  lemma Bit400(w: nat, low: nat, on: bool, high: nat)
    requires low < 0x400 && w == low + 0x400 * (Bit(on) + 2 * high)
    ensures w / 0x400 % 2 == Bit(on)
  {
    assert w / 0x400 == Bit(on) + 2 * high;
  }

  lemma BitsOfSum(w: u32, fl: set<OpenFlag>, a: nat, b: nat, c: nat)
    requires WordFor(w, fl, a, b, c)
    ensures w / 0x2 % 2 == Bit(WriteOnly in fl) && w / 0x100 % 2 == Bit(Append in fl)
    ensures w / 0x200 % 2 == Bit(Create in fl) && w / 0x400 % 2 == Bit(Truncate in fl)
  {
    var wr, ap, cr, tr := WriteOnly in fl, Append in fl, Create in fl, Truncate in fl;
    Bit2(w, a, wr, b + 0x40 * Bit(ap) + 0x80 * Bit(cr) + 0x100 * Bit(tr) + 0x200 * c);
    Bit100(w, a + 0x2 * Bit(wr) + 0x4 * b, ap, Bit(cr) + 2 * Bit(tr) + 4 * c);
    Bit200(w, a + 0x2 * Bit(wr) + 0x4 * b + 0x100 * Bit(ap), cr, Bit(tr) + 2 * c);
    Bit400(w, a + 0x2 * Bit(wr) + 0x4 * b + 0x100 * Bit(ap) + 0x200 * Bit(cr), tr, c);
  }

  lemma FlagsOfSum(flags: i32, fl: set<OpenFlag>, a: nat, b: nat, c: nat)
    requires WordFor(ToU32(flags), fl, a, b, c)
    ensures HostFlags(flags) == fl
  {
    BitsOfSum(ToU32(flags), fl, a, b, c);
    SameFlags(HostFlags(flags), fl);
  }

  lemma SameFlags(f: set<OpenFlag>, g: set<OpenFlag>)
    requires WriteOnly in f <==> WriteOnly in g
    requires Append in f <==> Append in g
    requires Create in f <==> Create in g
    requires Truncate in f <==> Truncate in g
    ensures f == g
  {
    forall x ensures x in f <==> x in g {
      match x case WriteOnly => case Append => case Create => case Truncate =>
    }
  }

  /** Every flag word asks for something. */
  lemma EveryWord(word: u32) returns (fl: set<OpenFlag>, a: nat, b: nat, c: nat)
    ensures WordFor(word, fl, a, b, c)
  {
    a, b, c := word % 0x2, word / 0x4 % 0x40, word / 0x800;
    var w2, w100, w200, w400 := word / 0x2 % 2 == 1, word / 0x100 % 2 == 1, word / 0x200 % 2 == 1, word / 0x400 % 2 == 1;
    fl := (if w2 then {WriteOnly} else {}) + (if w100 then {Append} else {})
          + (if w200 then {Create} else {}) + (if w400 then {Truncate} else {});
    WordDigits(word);
  }

  lemma WordDigits(word: u32)
    ensures word == word % 0x2 + 0x2 * (word / 0x2 % 2) + 0x4 * (word / 0x4 % 0x40) + 0x100 * (word / 0x100 % 2)
                    + 0x200 * (word / 0x200 % 2) + 0x400 * (word / 0x400 % 2) + 0x800 * (word / 0x800)
  {
    var x, y := word / 0x2, word / 0x4;
    var z := word / 0x100;
    assert word == word % 0x2 + 0x2 * x && x == x % 2 + 2 * y;
    assert y == y % 0x40 + 0x40 * z;
    HighDigits(z);
    assert word / 0x200 == z / 2 && word / 0x400 == z / 4 && word / 0x800 == z / 8;
  }

  lemma HighDigits(z: nat)
    ensures z == z % 2 + 2 * (z / 2 % 2) + 4 * (z / 4 % 2) + 8 * (z / 8)
  {
    var y := z / 2;
    var v := y / 2;
    assert z == z % 2 + 2 * y && y == y % 2 + 2 * v && v == v % 2 + 2 * (v / 2);
    assert z / 4 == v && z / 8 == v / 2;
  }

  /** open: for every set of flags, what the host opens, along the search path, is opened with exactly these;
      what follows the NUL behind the name is ignored. */
  lemma OpenCall(e: Engine, os: Os, flags: i32, fl: set<OpenFlag>, a: nat, b: nat, c: nat, name: seq<byte>, rest: seq<byte>)
    requires WordFor(ToU32(flags), fl, a, b, c)
    requires 0 !in name && Chars(name) != "/dev/tty"
    ensures ReturnValue(FileReply(e, Packet(PACKET_OPEN, Fields([flags]) + (name + [0] + rest)), os)) ==
            ToI32(TryAll(n => os.open(n, fl), Candidates(Chars(name), ToSeq(e.paths))))
  {
    FlagsOfSum(flags, fl, a, b, c);
    OpenFields(flags, name, rest);
    OpenBody(e, os, Fields([flags]) + (name + [0] + rest), flags, Chars(name));
    SameOpener(n => os.open(n, fl), Opener(os, fl), Candidates(Chars(name), ToSeq(e.paths)));
  }

  lemma OpenFields(flags: i32, name: seq<byte>, rest: seq<byte>)
    requires 0 !in name
    ensures var b := Fields([flags]) + (name + [0] + rest); FieldAt(b, 0) == flags && CStringAt(b, 4) == Chars(name)
  {
    var tail := name + [0] + rest;
    var b := Fields([flags]) + tail;
    FieldsAt([flags], tail, 0);
    assert b[4..4 + |name|] == name && b[4 + |name|] == 0;
    NameAt(b, 4, name);
  }

  lemma OpenBody(e: Engine, os: Os, b: seq<byte>, flags: i32, path: string)
    requires FieldAt(b, 0) == flags && CStringAt(b, 4) == path
    ensures var rv := ReturnValue(FileReply(e, Packet(PACKET_OPEN, b), os));
            && (path == "/dev/tty" ==> rv == 1)
            && (path != "/dev/tty" ==> rv == ToI32(TryAll(Opener(os, HostFlags(flags)), Candidates(path, ToSeq(e.paths)))))
  {
    ReturnRoundTrip(OpenResult(e, b, os), []);
  }

  lemma {:induction false} SameOpener(f: string -> int, g: string -> int, names: seq<string>)
    requires forall n :: f(n) == g(n)
    ensures TryAll(f, names) == TryAll(g, names)
  {
    if names != [] {
      SameOpener(f, g, names[1..]);
    }
  }

  /** Opening the terminal gives descriptor 1, whatever the flags and whatever the host would have answered. */
  lemma TerminalCall(e: Engine, os: Os, flags: i32, name: seq<byte>, rest: seq<byte>)
    requires 0 !in name && Chars(name) == "/dev/tty"
    ensures ReturnValue(FileReply(e, Packet(PACKET_OPEN, Fields([flags]) + (name + [0] + rest)), os)) == 1
  {
    OpenFields(flags, name, rest);
    OpenBody(e, os, Fields([flags]) + (name + [0] + rest), flags, Chars(name));
  }

  /** close: descriptors 0 to 2 (and negative ones) stay open on the host. */
  lemma CloseCall(e: Engine, os: Os, fd: i32)
    ensures ReturnValue(FileReply(e, Packet(PACKET_CLOSE, Fields([fd])), os)) ==
            if fd <= 2 then 0 else ToI32(os.close(fd))
  {
    FieldsAt([fd], [], 0);
    assert Fields([fd]) + [] == Fields([fd]);
    ReturnRoundTrip(if fd <= 2 then 0 else os.close(fd), []);
  }

  /** read: the bytes the host read arrive unchanged, and their number with them. */
  lemma ReadCall(e: Engine, os: Os, fd: i32, count: i32)
    requires !e.benchmarking
    ensures var reply := FileReply(e, Packet(PACKET_READ, Fields([fd, count])), os);
            match os.read(fd, count)
            case ReadError => ReturnValue(reply) == -1 && ReturnData(reply) == []
            case ReadBytes(data) => ReturnValue(reply) == ToI32(|data|) && ReturnData(reply) == data
  {
    FieldsAt([fd, count], [], 0);
    FieldsAt([fd, count], [], 1);
    assert Fields([fd, count]) + [] == Fields([fd, count]);
    match os.read(fd, count)
    case ReadError =>
      ReturnRoundTrip(-1, []);
      assert ReturnPacket(-1, [], -1) == ReturnPacket(-1, [], 0);
    case ReadBytes(data) => ReturnRoundTrip(|data|, data);
  }

  /** write: exactly the bytes of the request reach the host's write. */
  lemma WriteCall(e: Engine, os: Os, fd: i32, data: seq<byte>, rest: seq<byte>)
    requires !e.benchmarking && |data| < 0x8000_0000
    ensures ReturnValue(FileReply(e, Packet(PACKET_WRITE, Fields([fd, |data|]) + (data + rest)), os)) ==
            ToI32(os.write(fd, data))
  {
    var b := Fields([fd, |data|]) + (data + rest);
    FieldsAt([fd, |data|], data + rest, 0);
    FieldsAt([fd, |data|], data + rest, 1);
    assert BytesAt(b, 8, |data|) == data;
    ReturnRoundTrip(os.write(fd, data), []);
  }

  /** lseek: descriptor, offset and origin arrive in that order. */
  lemma LseekCall(e: Engine, os: Os, fd: i32, offset: i32, whence: i32)
    ensures ReturnValue(FileReply(e, Packet(PACKET_LSEEK, Fields([fd, offset, whence])), os)) ==
            ToI32(os.lseek(fd, offset, whence))
  {
    var xs := [fd, offset, whence];
    FieldsAt(xs, [], 0);
    FieldsAt(xs, [], 1);
    FieldsAt(xs, [], 2);
    assert Fields(xs) + [] == Fields(xs);
    ReturnRoundTrip(os.lseek(fd, offset, whence), []);
  }

  /** During a benchmark reads and writes claim to have moved everything, and no file plays a part in it: with
      the same heap, any other system would have led to the same reply. */
  lemma BenchmarkMovesNothing(e: Engine, os: Os, other: Os, fd: i32, count: i32)
    requires e.benchmarking && other.heap == os.heap
    ensures var write := Packet(PACKET_WRITE, Fields([fd, count]));
            ReturnValue(FileReply(e, write, os)) == count && FileReply(e, write, other) == FileReply(e, write, os)
    ensures var read := Packet(PACKET_READ, Fields([fd, count]));
            var reply := FileReply(e, read, os);
            && ReturnValue(reply) == count && |ReturnData(reply)| == (if count < 0 then 0 else count)
            && FileReply(e, read, other) == reply
  {
    FieldsAt([fd, count], [], 1);
    assert Fields([fd, count]) + [] == Fields([fd, count]);
    ReturnRoundTrip(count, []);
    if count < 0 {
      assert ReturnPacket(count, [], count) == ReturnPacket(count, [], 0);
    } else {
      var mine := seq<byte>(count, i requires i >= 0 => os.heap(i));
      assert mine == seq<byte>(count, i requires i >= 0 => other.heap(i));
      ReturnRoundTrip(count, mine);
    }
  }

  // ---- Benchmarks, whole ----

  /** The same packets, and a host that differs at most in what its reads and writes would do. */
  ghost predicate SameButData(a: seq<Arrival>, b: seq<Arrival>) {
    && |a| == |b|
    && forall i :: 0 <= i < |a| ==>
         && a[i].packet == b[i].packet && a[i].os.open == b[i].os.open && a[i].os.close == b[i].os.close
         && a[i].os.lseek == b[i].os.lseek && a[i].os.heap == b[i].os.heap
  }

  lemma DryReply(e: Engine, p: Packet, os: Os, other: Os)
    requires e.benchmarking && FileRequest(p.kind)
    requires os.open == other.open && os.close == other.close && os.lseek == other.lseek && os.heap == other.heap
    ensures FileReply(e, p, os) == FileReply(e, p, other)
  {
    var b := p.body;
    SameOpener(Opener(os, HostFlags(FieldAt(b, 0))), Opener(other, HostFlags(FieldAt(b, 0))),
               Candidates(CStringAt(b, 4), ToSeq(e.paths)));
    var count := FieldAt(b, 4);
    assert seq<byte>(if count < 0 then 0 else count, i requires i >= 0 => os.heap(i))
        == seq<byte>(if count < 0 then 0 else count, i requires i >= 0 => other.heap(i));
  }

  lemma {:induction false} BenchmarkLoopIsDry(e: Engine, a: seq<Arrival>, b: seq<Arrival>)
    requires e.benchmarking && SameButData(a, b) && forall i :: 0 <= i < |a| ==> a[i].packet.kind != PACKET_WAZZUP
    ensures var o, o' := Benchmark(e, a), Benchmark(e, b);
            o.events == o'.events && o.engine == o'.engine && o.result == o'.result
    decreases |a|
  {
    BenchmarkUnfold(e, a);
    BenchmarkUnfold(e, b);
    if a != [] {
      var p := a[0].packet;
      if FileRequest(p.kind) {
        DryReply(e, p, a[0].os, b[0].os);
      }
      if p.kind != PACKET_RETURN {
        BenchmarkLoopIsDry(Process(e, a).engine, a[1..], b[1..]);
      }
    }
  }

  /** A benchmark, up to the peer's RETURN, moves no file data: the packets are the same whatever the host's reads
      and writes would do. Afterwards they count again. */
  lemma {:induction false} BenchmarkIsDry(e: Engine, a: seq<Arrival>, b: seq<Arrival>)
    requires e.command == PACKET_BENCHMARK && SameButData(a, b) && a != [] && a[0].packet.kind == PACKET_WAZZUP
    requires forall i :: 1 <= i < |a| ==> a[i].packet.kind != PACKET_WAZZUP
    ensures Process(e, a).events == Process(e, b).events
    ensures Process(e, a).result.Some? ==> !Process(e, a).engine.benchmarking
  {
    var e1 := Polled(e).(benchmarking := true);
    BenchShape(e, a);
    BenchShape(e, b);
    BenchmarkLoopIsDry(e1, a[1..], b[1..]);
  }
}
