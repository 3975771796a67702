/**
 The table of connections that pksh serves (main in pksh.c): client[], the descriptor set for
 select, maxfd and maxi, and the scan that accepts, serves and releases connections.
*/
module ClientTable {

  const MAX_CLIENTS: nat := 10
  const SERVICES: nat := 4      // standard input, pko_srv_fd, log_fd, pksh_srv_fd

  datatype Table = Table(client: seq<int>, master: set<int>, maxfd: int, maxi: int)

  datatype Op = Accept(fd: int) | Release(slot: nat)

  /** The first free slot, as the accept loop finds it. */
  function FirstFree(client: seq<int>): (j: nat)
    requires Room(client)
    ensures j < |client| && client[j] < 0 && forall i :: 0 <= i < j ==> client[i] >= 0
    decreases |client|
  {
    if client[0] < 0 then 0
    else
      assert exists i :: 0 <= i < |client[1..]| && client[1..][i] < 0 by {
        var i :| 0 <= i < |client| && client[i] < 0;
        assert client[1..][i - 1] == client[i];
      }
      1 + FirstFree(client[1..])
  }

  /** The descriptor is new and there is room; a slot that is released has just been scanned. */
  predicate Legal(t: Table, op: Op) {
    match op
    case Accept(fd) => fd >= 0 && fd !in t.master && Room(t.client)
    case Release(i) => SERVICES <= i <= t.maxi && i < |t.client| && t.client[i] >= 0
  }

  function Apply(t: Table, op: Op): Table
    requires Legal(t, op)
  {
    match op
    case Accept(fd) =>
      var j := FirstFree(t.client);
      Table(t.client[j := fd], t.master + {fd}, if fd > t.maxfd then fd else t.maxfd, if j > t.maxi then j else t.maxi)
    case Release(i) =>
      Table(t.client[i := -1], t.master - {t.client[i]}, t.maxfd, t.maxi - 1)
  }

  predicate LegalRun(t: Table, ops: seq<Op>)
    decreases |ops|, 0
  {
    ops == [] || (LegalRun(t, ops[..|ops| - 1]) && Legal(Run(t, ops[..|ops| - 1]), ops[|ops| - 1]))
  }

  function Run(t: Table, ops: seq<Op>): Table
    requires LegalRun(t, ops)
    decreases |ops|, 1
  {
    if ops == [] then t else Apply(Run(t, ops[..|ops| - 1]), ops[|ops| - 1])
  }

  lemma RunSnoc(t: Table, ops: seq<Op>, op: Op)
    requires LegalRun(t, ops) && Legal(Run(t, ops), op)
    ensures LegalRun(t, ops + [op]) && Run(t, ops + [op]) == Apply(Run(t, ops), op)
  {
    assert (ops + [op])[..|ops|] == ops;
  }

  /** The table main starts with; the command server's descriptor, opened last, is the largest. */
  function Initial(srv: int, log: int, cmd: int): Table {
    Table([0, srv, log, cmd] + seq(MAX_CLIENTS - SERVICES, _ => -1), {0, srv, log, cmd}, cmd, SERVICES - 1)
  }

  predicate Services(srv: int, log: int, cmd: int) {
    0 < srv < cmd && 0 < log < cmd && srv != log
  }

  // ---- The invariant ----

  /** No descriptor is in the table twice. */
  predicate Distinct(client: seq<int>) {
    forall i, j :: 0 <= i < j < |client| && client[i] >= 0 ==> client[i] != client[j]
  }

  /** The descriptors in the table are exactly those in the set. */
  predicate Covers(client: seq<int>, master: set<int>) {
    && (forall i :: 0 <= i < |client| && client[i] >= 0 ==> client[i] in master)
    && (forall fd :: fd in master ==> fd >= 0 && fd in client)
  }

  predicate Inv(t: Table, srv: int, log: int, cmd: int) {
    && |t.client| == MAX_CLIENTS
    && t.client[..SERVICES] == [0, srv, log, cmd]
    && Services(srv, log, cmd)
    && Distinct(t.client)
    && Covers(t.client, t.master)
    && (forall fd :: fd in t.master ==> fd <= t.maxfd)
    && SERVICES - 1 <= t.maxi < MAX_CLIENTS
  }

  lemma InsertKeeps(client: seq<int>, master: set<int>, j: nat, fd: int)
    requires Distinct(client) && Covers(client, master)
    requires j < |client| && client[j] < 0 && fd >= 0 && fd !in master
    ensures Distinct(client[j := fd]) && Covers(client[j := fd], master + {fd})
  {
    var c := client[j := fd];
    assert forall i :: 0 <= i < |client| && i != j ==> client[i] != fd;
    forall x | x in master + {fd}
      ensures x >= 0 && x in c
    {
      if x == fd {
        assert c[j] == fd;
      } else {
        var i :| 0 <= i < |client| && client[i] == x;
        assert c[i] == x;
      }
    }
  }

  lemma RemoveKeeps(client: seq<int>, master: set<int>, j: nat)
    requires Distinct(client) && Covers(client, master) && j < |client| && client[j] >= 0
    ensures Distinct(client[j := -1]) && Covers(client[j := -1], master - {client[j]})
  {
    var c := client[j := -1];
    forall x | x in master - {client[j]}
      ensures x >= 0 && x in c
    {
      var i :| 0 <= i < |client| && client[i] == x;
      assert c[i] == x;
    }
  }

  lemma ServiceSlots(t: Table, srv: int, log: int, cmd: int)
    requires Inv(t, srv, log, cmd)
    ensures t.client[0] == 0 && t.client[1] == srv && t.client[2] == log && t.client[3] == cmd
    ensures forall i :: SERVICES <= i < MAX_CLIENTS ==> t.client[i] !in [0, srv, log, cmd]
  {
    assert forall i :: 0 <= i < SERVICES ==> t.client[i] == t.client[..SERVICES][i];
  }

  lemma AcceptKeepsInv(t: Table, fd: int, srv: int, log: int, cmd: int)
    requires Inv(t, srv, log, cmd) && Legal(t, Accept(fd))
    ensures Inv(Apply(t, Accept(fd)), srv, log, cmd)
  {
    ServiceSlots(t, srv, log, cmd);
    var j := FirstFree(t.client);
    InsertKeeps(t.client, t.master, j, fd);
    assert t.client[j := fd][..SERVICES] == t.client[..SERVICES];
  }

  lemma ReleaseKeepsInv(t: Table, slot: nat, srv: int, log: int, cmd: int)
    requires Inv(t, srv, log, cmd) && Legal(t, Release(slot))
    ensures Inv(Apply(t, Release(slot)), srv, log, cmd)
  {
    RemoveKeeps(t.client, t.master, slot);
    assert t.client[slot := -1][..SERVICES] == t.client[..SERVICES];
  }

  lemma ApplyKeepsInv(t: Table, op: Op, srv: int, log: int, cmd: int)
    requires Inv(t, srv, log, cmd) && Legal(t, op)
    ensures Inv(Apply(t, op), srv, log, cmd)
  {
    match op
    case Accept(fd) => AcceptKeepsInv(t, fd, srv, log, cmd);
    case Release(i) => ReleaseKeepsInv(t, i, srv, log, cmd);
  }

  lemma InitialInv(srv: int, log: int, cmd: int)
    requires Services(srv, log, cmd)
    ensures Inv(Initial(srv, log, cmd), srv, log, cmd)
  {
    var c := Initial(srv, log, cmd).client;
    InitialEntries(c, srv, log, cmd);
    assert c[..SERVICES] == [0, srv, log, cmd];
  }

  lemma InitialEntries(c: seq<int>, srv: int, log: int, cmd: int)
    requires Services(srv, log, cmd) && c == [0, srv, log, cmd] + seq(MAX_CLIENTS - SERVICES, _ => -1)
    ensures Distinct(c) && Covers(c, {0, srv, log, cmd})
  {
    assert c[0] == 0 && c[1] == srv && c[2] == log && c[3] == cmd;
    assert forall i :: SERVICES <= i < MAX_CLIENTS ==> c[i] == -1;
  }

  lemma InitialClient(c: seq<int>, srv: int, log: int, cmd: int)
    requires |c| == MAX_CLIENTS && c[0] == 0 && c[1] == srv && c[2] == log && c[3] == cmd
    requires forall i :: SERVICES <= i < MAX_CLIENTS ==> c[i] == -1
    ensures c == Initial(srv, log, cmd).client
  {
  }

  lemma {:induction false} TableInvariant(srv: int, log: int, cmd: int, ops: seq<Op>)
    requires Services(srv, log, cmd) && LegalRun(Initial(srv, log, cmd), ops)
    ensures Inv(Run(Initial(srv, log, cmd), ops), srv, log, cmd)
    decreases |ops|
  {
    var t := Initial(srv, log, cmd);
    if ops == [] {
      InitialInv(srv, log, cmd);
    } else {
      var before := ops[..|ops| - 1];
      TableInvariant(srv, log, cmd, before);
      ApplyKeepsInv(Run(t, before), ops[|ops| - 1], srv, log, cmd);
    }
  }

  // ---- A full table ----

  /** The descriptors of the live entries. */
  function Live(client: seq<int>): set<int> {
    if client == [] then {}
    else
      var fd := client[|client| - 1];
      Live(client[..|client| - 1]) + if fd >= 0 then {fd} else {}
  }

  predicate Room(client: seq<int>) {
    exists i :: 0 <= i < |client| && client[i] < 0
  }

  lemma {:induction false} LiveIs(client: seq<int>)
    ensures forall fd :: fd in Live(client) <==> fd >= 0 && fd in client
    decreases |client|
  {
    if client != [] {
      var n := |client| - 1;
      LiveIs(client[..n]);
      assert client == client[..n] + [client[n]];
    }
  }

  lemma RoomMore(client: seq<int>, fd: int)
    ensures Room(client + [fd]) <==> Room(client) || fd < 0
  {
    var c := client + [fd];
    if Room(client) {
      var i :| 0 <= i < |client| && client[i] < 0;
      assert c[i] < 0;
    }
    if fd < 0 {
      assert c[|client|] < 0;
    }
  }

  lemma LiveMore(client: seq<int>, fd: int)
    requires fd in client ==> fd < 0
    ensures |Live(client + [fd])| == |Live(client)| + if fd >= 0 then 1 else 0
  {
    LiveIs(client);
    assert (client + [fd])[..|client|] == client;
  }

  lemma {:induction false} LiveCount(client: seq<int>)
    requires Distinct(client)
    ensures |Live(client)| <= |client|
    ensures |Live(client)| < |client| <==> Room(client)
    decreases |client|
  {
    if client != [] {
      var n := |client| - 1;
      LiveCount(client[..n]);
      assert client == client[..n] + [client[n]];
      LiveMore(client[..n], client[n]);
      RoomMore(client[..n], client[n]);
    }
  }

  function Connections(ops: seq<Op>): int {
    if ops == [] then 0
    else Connections(ops[..|ops| - 1]) + if ops[|ops| - 1].Accept? then 1 else -1
  }

  lemma ApplySize(t: Table, op: Op, srv: int, log: int, cmd: int)
    requires Inv(t, srv, log, cmd) && Legal(t, op)
    ensures |Apply(t, op).master| == |t.master| + if op.Accept? then 1 else -1
  {
  }

  /** The set holds the services and the connections. */
  lemma {:induction false} SetSize(srv: int, log: int, cmd: int, ops: seq<Op>)
    requires Services(srv, log, cmd) && LegalRun(Initial(srv, log, cmd), ops)
    ensures |Run(Initial(srv, log, cmd), ops).master| == SERVICES + Connections(ops)
    decreases |ops|
  {
    var t := Initial(srv, log, cmd);
    if ops != [] {
      var before := ops[..|ops| - 1];
      SetSize(srv, log, cmd, before);
      TableInvariant(srv, log, cmd, before);
      ApplySize(Run(t, before), ops[|ops| - 1], srv, log, cmd);
    }
  }

  lemma SetSizeRoom(t: Table, srv: int, log: int, cmd: int)
    requires Inv(t, srv, log, cmd)
    ensures Room(t.client) <==> |t.master| < MAX_CLIENTS
  {
    LiveIs(t.client);
    LiveCount(t.client);
    forall fd ensures fd in Live(t.client) <==> fd in t.master {
    }
    assert Live(t.client) == t.master;
  }

  /** After every run, a further connection finds a free slot if and only if fewer than six are open; with six
      the accept loop runs off the table. */
  lemma AcceptFindsRoomIff(srv: int, log: int, cmd: int, ops: seq<Op>)
    requires Services(srv, log, cmd) && LegalRun(Initial(srv, log, cmd), ops)
    ensures Room(Run(Initial(srv, log, cmd), ops).client) <==> Connections(ops) < MAX_CLIENTS - SERVICES
  {
    TableInvariant(srv, log, cmd, ops);
    SetSize(srv, log, cmd, ops);
    SetSizeRoom(Run(Initial(srv, log, cmd), ops), srv, log, cmd);
  }

  // ---- Connections the scan no longer reaches ----

  /** No connection lies beyond the part of the table that is scanned. */
  predicate Tight(t: Table) {
    forall i :: 0 <= i < |t.client| && t.client[i] >= 0 ==> i <= t.maxi
  }

  /** The live connections are exactly the slots 0 to maxi. */
  predicate Compact(t: Table) {
    forall i :: 0 <= i < |t.client| ==> (t.client[i] >= 0 <==> i <= t.maxi)
  }

  lemma LegalPrefix(t: Table, ops: seq<Op>, k: nat)
    requires LegalRun(t, ops) && k <= |ops|
    ensures LegalRun(t, ops[..k])
    decreases |ops|
  {
    if k == |ops| {
      assert ops[..k] == ops;
    } else {
      LegalPrefix(t, ops[..|ops| - 1], k);
      assert ops[..|ops| - 1][..k] == ops[..k];
    }
  }

  ghost predicate AlwaysTight(t: Table, ops: seq<Op>)
    requires LegalRun(t, ops)
  {
    forall k :: 0 <= k <= |ops| ==> LegalRun(t, ops[..k]) && Tight(Run(t, ops[..k]))
  }

  /** Every release frees the slot that is `maxi` at that moment. */
  ghost predicate ReleasesTop(t: Table, ops: seq<Op>)
    requires LegalRun(t, ops)
  {
    forall k :: 0 <= k < |ops| && ops[k].Release? ==> LegalRun(t, ops[..k]) && ops[k].slot == Run(t, ops[..k]).maxi
  }

  lemma ApplyTop(t: Table, op: Op, srv: int, log: int, cmd: int)
    requires Inv(t, srv, log, cmd) && Legal(t, op) && Compact(t)
    ensures op.Release? && op.slot != t.maxi ==> !Tight(Apply(t, op))
    ensures op.Release? ==> op.slot == t.maxi ==> Compact(Apply(t, op))
    ensures op.Accept? ==> Compact(Apply(t, op))
  {
    var t' := Apply(t, op);
    if op.Release? && op.slot != t.maxi {
      assert t'.client[t.maxi] >= 0;
    }
  }

  lemma {:induction false} TopReleasesKeepCompact(srv: int, log: int, cmd: int, ops: seq<Op>)
    requires Services(srv, log, cmd) && LegalRun(Initial(srv, log, cmd), ops)
    requires ReleasesTop(Initial(srv, log, cmd), ops)
    ensures Compact(Run(Initial(srv, log, cmd), ops))
    decreases |ops|
  {
    var t := Initial(srv, log, cmd);
    if ops != [] {
      var n := |ops| - 1;
      TopReleasesPrefix(t, ops, n);
      TopReleasesKeepCompact(srv, log, cmd, ops[..n]);
      TableInvariant(srv, log, cmd, ops[..n]);
      ApplyTop(Run(t, ops[..n]), ops[n], srv, log, cmd);
    }
  }

  lemma TopReleasesPrefix(t: Table, ops: seq<Op>, n: nat)
    requires LegalRun(t, ops) && n <= |ops| && LegalRun(t, ops[..n]) && ReleasesTop(t, ops)
    ensures ReleasesTop(t, ops[..n])
  {
    forall k | 0 <= k < n && ops[..n][k].Release?
      ensures LegalRun(t, ops[..n][..k]) && ops[..n][k].slot == Run(t, ops[..n][..k]).maxi
    {
      assert ops[..n][..k] == ops[..k];
    }
  }

  /** Index of the first release that does not free slot maxi. */
  lemma {:induction false} FirstLowRelease(t: Table, ops: seq<Op>) returns (k: nat)
    requires LegalRun(t, ops) && !ReleasesTop(t, ops)
    ensures k < |ops| && LegalRun(t, ops[..k]) && ReleasesTop(t, ops[..k])
    ensures ops[k].Release? && ops[k].slot != Run(t, ops[..k]).maxi
    decreases |ops|
  {
    var n := |ops| - 1;
    var init := ops[..n];
    if ReleasesTop(t, init) {
      k := n;
      if !(ops[k].Release? && ops[k].slot != Run(t, init).maxi) {
        forall i | 0 <= i < |ops| && ops[i].Release?
          ensures LegalRun(t, ops[..i]) && ops[i].slot == Run(t, ops[..i]).maxi
        {
          assert i < n ==> init[..i] == ops[..i] && init[i] == ops[i];
        }
      }
    } else {
      k := FirstLowRelease(t, init);
      assert init[..k] == ops[..k];
    }
  }

  lemma TopReleasesAlwaysTight(srv: int, log: int, cmd: int, ops: seq<Op>)
    requires Services(srv, log, cmd) && LegalRun(Initial(srv, log, cmd), ops)
    requires ReleasesTop(Initial(srv, log, cmd), ops)
    ensures AlwaysTight(Initial(srv, log, cmd), ops)
  {
    var t := Initial(srv, log, cmd);
    forall k | 0 <= k <= |ops|
      ensures LegalRun(t, ops[..k]) && Tight(Run(t, ops[..k]))
    {
      LegalPrefix(t, ops, k);
      TopReleasesPrefix(t, ops, k);
      TopReleasesKeepCompact(srv, log, cmd, ops[..k]);
    }
  }

  lemma LowReleaseLoosens(srv: int, log: int, cmd: int, ops: seq<Op>) returns (k: nat)
    requires Services(srv, log, cmd) && LegalRun(Initial(srv, log, cmd), ops)
    requires !ReleasesTop(Initial(srv, log, cmd), ops)
    ensures k <= |ops| && LegalRun(Initial(srv, log, cmd), ops[..k]) && !Tight(Run(Initial(srv, log, cmd), ops[..k]))
  {
    var t := Initial(srv, log, cmd);
    k := FirstLowRelease(t, ops);
    TopReleasesKeepCompact(srv, log, cmd, ops[..k]);
    TableInvariant(srv, log, cmd, ops[..k]);
    LegalPrefix(t, ops, k + 1);
    var upto := ops[..k + 1];
    assert upto[..|upto| - 1] == ops[..k] && upto[|upto| - 1] == ops[k];
    ApplyTop(Run(t, ops[..k]), ops[k], srv, log, cmd);
    k := k + 1;
  }

  /** In a run every connection stays within reach of the scan at every moment if and only if each
      release happens to free the topmost slot: `maxi--` is right for that slot alone. */
  lemma ReachableIffReleasesTop(srv: int, log: int, cmd: int, ops: seq<Op>)
    requires Services(srv, log, cmd) && LegalRun(Initial(srv, log, cmd), ops)
    ensures AlwaysTight(Initial(srv, log, cmd), ops) <==> ReleasesTop(Initial(srv, log, cmd), ops)
  {
    if ReleasesTop(Initial(srv, log, cmd), ops) {
      TopReleasesAlwaysTight(srv, log, cmd, ops);
    } else {
      var k := LowReleaseLoosens(srv, log, cmd, ops);
    }
  }

  lemma AcceptAt(t: Table, fd: int, j: nat)
    requires j < |t.client| && t.client[j] < 0 && forall i :: 0 <= i < j ==> t.client[i] >= 0
    requires fd >= 0 && fd !in t.master
    ensures Legal(t, Accept(fd))
    ensures var t' := Apply(t, Accept(fd));
            && t'.client == t.client[j := fd] && t'.master == t.master + {fd}
            && t'.maxi == if j > t.maxi then j else t.maxi
  {
  }

  lemma RunThree(t: Table, x: Op, y: Op, z: Op)
    requires Legal(t, x) && Legal(Apply(t, x), y) && Legal(Apply(Apply(t, x), y), z)
    ensures LegalRun(t, [x, y, z]) && Run(t, [x, y, z]) == Apply(Apply(Apply(t, x), y), z)
  {
    assert LegalRun(t, []) && Run(t, []) == t;
    RunSnoc(t, [], x);
    assert [] + [x] == [x];
    RunSnoc(t, [x], y);
    assert [x] + [y] == [x, y];
    RunSnoc(t, [x, y], z);
    assert [x, y] + [z] == [x, y, z];
  }

  /** Two connections come, the first one goes: the second is still in the table but beyond maxi. */
  lemma HiddenConnection(srv: int, log: int, cmd: int, a: int, b: int)
    requires Services(srv, log, cmd) && cmd < a && cmd < b && a != b
    ensures var t, ops := Initial(srv, log, cmd), [Accept(a), Accept(b), Release(4)];
            && LegalRun(t, ops) && !AlwaysTight(t, ops)
            && |Run(t, ops).client| == MAX_CLIENTS && Run(t, ops).client[5] == b && Run(t, ops).maxi == 4
  {
    var t, ops := Initial(srv, log, cmd), [Accept(a), Accept(b), Release(4)];
    assert t.client[0] == 0 && t.client[1] == srv && t.client[2] == log && t.client[3] == cmd && t.client[4] == -1;
    AcceptAt(t, a, 4);
    AcceptAt(Apply(t, Accept(a)), b, 5);
    RunThree(t, Accept(a), Accept(b), Release(4));
    assert ops[..3] == ops && !Tight(Run(t, ops)) by {
      assert Run(t, ops).client[5] == b && Run(t, ops).maxi == 4;
    }
  }

  // ---- The scan ----

  class Server {
    const client: array<int>
    const srv: int
    const log: int
    const cmd: int
    var master: set<int>
    var maxfd: int
    var maxi: int
    var served: seq<int>        // descriptors served, in order

    ghost function View(): Table
      reads this, client
    {
      Table(client[..], master, maxfd, maxi)
    }

    ghost predicate Valid()
      reads this, client
    {
      client.Length == MAX_CLIENTS && Inv(View(), srv, log, cmd)
    }

    constructor (srv: int, log: int, cmd: int)
      requires Services(srv, log, cmd)
      ensures Valid() && View() == Initial(srv, log, cmd) && served == [] && fresh(client)
      ensures this.srv == srv && this.log == log && this.cmd == cmd
    {
      this.srv, this.log, this.cmd := srv, log, cmd;
      client := new int[MAX_CLIENTS](_ => -1);
      master, maxfd, maxi, served := {0, srv, log, cmd}, cmd, SERVICES - 1, [];
      new;
      SetUp();
      InitialInv(srv, log, cmd);
    }

    /** The four services take the first slots. */
    method SetUp()
      requires client.Length == MAX_CLIENTS && forall i :: 0 <= i < MAX_CLIENTS ==> client[i] == -1
      modifies client
      ensures client[..] == Initial(srv, log, cmd).client
    {
      client[0], client[1], client[2], client[3] := 0, srv, log, cmd;
      InitialClient(client[..], srv, log, cmd);
    }

    /** The loop that looks for a free slot. */
    method FindFree() returns (j: nat)
      requires client.Length == MAX_CLIENTS && exists i :: 0 <= i < MAX_CLIENTS && client[..][i] < 0
      ensures j == FirstFree(client[..]) < MAX_CLIENTS && client[j] < 0
    {
      ghost var free := FirstFree(client[..]);
      j := 0;
      while client[j] >= 0
        invariant 0 <= j <= free < MAX_CLIENTS && client[..][free] < 0
        invariant forall i :: 0 <= i < j ==> client[i] >= 0
        decreases free - j
      {
        j := j + 1;
      }
    }

    /** A new connection on the command server. */
    method AcceptClient(connfd: int)
      requires Valid() && Legal(View(), Accept(connfd))
      modifies this`master, this`maxfd, this`maxi, client
      ensures Valid() && View() == Apply(old(View()), Accept(connfd))
    {
      ApplyKeepsInv(View(), Accept(connfd), srv, log, cmd);
      var j := FindFree();
      client[j] := connfd;
      master := master + {connfd};
      if connfd > maxfd {
        maxfd := connfd;
      }
      if j > maxi {
        maxi := j;
      }
    }

    /** The connection in slot i has ended. */
    method ReleaseClient(i: nat)
      requires Valid() && Legal(View(), Release(i))
      modifies this`master, this`maxi, client
      ensures Valid() && View() == Apply(old(View()), Release(i))
    {
      ApplyKeepsInv(View(), Release(i), srv, log, cmd);
      master := master - {client[i]};
      client[i] := -1;
      maxi := maxi - 1;
    }

    /** Serves the connection in slot i if it has input: `gone` are the descriptors whose peer has
        hung up, connfd is what accept returns. */
    method ServeSlot(i: nat, ready: set<int>, gone: set<int>, connfd: int) returns (ghost ops: seq<Op>)
      requires Valid() && i <= maxi
      requires i < SERVICES && cmd in ready ==> Legal(View(), Accept(connfd))
      modifies this`master, this`maxfd, this`maxi, this`served, client
      ensures Valid() && LegalRun(old(View()), ops) && View() == Run(old(View()), ops)
      ensures var fd := old(client[i]);
              var live := fd >= 0 && fd in ready;
              var ended := live && fd !in {0, srv, log, cmd} && fd in gone;
              && |ops| <= 1
              && (ops == [Accept(connfd)] <==> live && fd == cmd)
              && (ops == [Release(i)] <==> ended)
              && (ops == [] <==> !(live && fd == cmd) && !ended)
      ensures i < SERVICES - 1 ==> ops == []
      ensures served == old(served) + if old(client[i]) >= 0 && old(client[i]) in ready then [old(client[i])] else []
    {
      ServiceSlots(View(), srv, log, cmd);
      ops := [];
      var sockfd := client[i];
      if sockfd < 0 || sockfd !in ready {
        return;
      }
      served := served + [sockfd];
      if sockfd == log || sockfd == 0 || sockfd == srv {
      } else if sockfd == cmd {
        ops := [Accept(connfd)];
        RunSnoc(old(View()), [], Accept(connfd));
        AcceptClient(connfd);
      } else if sockfd in gone {
        ops := [Release(i)];
        RunSnoc(old(View()), [], Release(i));
        ReleaseClient(i);
      }
    }

    /** The next slot of the scan. */
    method ScanSlot(i: nat, ready: set<int>, gone: set<int>, connfd: int, ghost t: Table, ghost ops: seq<Op>,
                    ghost handled: seq<int>) returns (ghost ops': seq<Op>, ghost handled': seq<int>)
      requires Valid() && i <= maxi && (i < SERVICES ==> ops == [] && (cmd in ready ==> Legal(View(), Accept(connfd))))
      requires LegalRun(t, ops) && View() == Run(t, ops)
      requires Scanned(t, i, ready, gone, connfd, srv, log, cmd, ops, handled)
      modifies this`master, this`maxfd, this`maxi, this`served, client
      ensures Valid() && (i + 1 < SERVICES ==> ops' == [])
      ensures LegalRun(t, ops') && View() == Run(t, ops')
      ensures Scanned(t, i + 1, ready, gone, connfd, srv, log, cmd, ops', handled')
      ensures handled <= handled' && served == old(served) + handled'[|handled|..]
    {
      ghost var u := View();
      ghost var slot := client[i];
      ghost var more := ServeSlot(i, ready, gone, connfd);
      ops' := ops + more;
      handled' := handled + if slot >= 0 && slot in ready then [slot] else [];
      ServiceSlots(u, srv, log, cmd);
      ScanStep(t, u, i, ready, gone, connfd, srv, log, cmd, ops, handled, more);
    }

    /** One pass over the table after select. Whatever it accepts and releases on the way: each of the four
        services that has input is served, and so is each connection that has input and was in a slot up to
        maxi as it is in the end. Only what has input is served. A new connection is accepted once if there
        is one, and exactly those connections served are released that have ended. */
    method Scan(ready: set<int>, gone: set<int>, connfd: int) returns (ghost ops: seq<Op>, ghost handled: seq<int>)
      requires Valid()
      requires cmd in ready ==> Legal(View(), Accept(connfd))
      modifies this`master, this`maxfd, this`maxi, this`served, client
      ensures Valid()
      ensures LegalRun(old(View()), ops) && View() == Run(old(View()), ops)
      ensures served == old(served) + handled
      ensures forall fd :: fd in handled ==> fd in ready
      ensures forall fd :: fd in [0, srv, log, cmd] && fd in ready ==> fd in handled
      ensures forall k :: 0 <= k <= maxi && old(client[k]) >= 0 && old(client[k]) in ready ==> old(client[k]) in handled
      ensures AcceptedBy(ops) == if cmd in ready then [connfd] else []
      ensures FreedBy(old(View()), ops) == Hung(handled, gone, {0, srv, log, cmd})
    {
      ghost var t := View();
      ghost var n;
      ops, handled, n := ScanAll(ready, gone, connfd);
      ScanEnd(t, n, maxi, ready, srv, log, cmd, handled);
    }

    /** The loop; n slots have been looked at in the end. */
    method ScanAll(ready: set<int>, gone: set<int>, connfd: int) returns (ghost ops: seq<Op>, ghost handled: seq<int>, ghost n: nat)
      requires Valid() && (cmd in ready ==> Legal(View(), Accept(connfd)))
      modifies this`master, this`maxfd, this`maxi, this`served, client
      ensures Valid() && LegalRun(old(View()), ops) && View() == Run(old(View()), ops)
      ensures served == old(served) + handled
      ensures maxi < n && Scanned(old(View()), n, ready, gone, connfd, srv, log, cmd, ops, handled)
    {
      ghost var t := View();
      ops, handled := [], [];
      var i := 0;
      while i <= maxi
        invariant Valid() && 0 <= i <= MAX_CLIENTS && (i < SERVICES ==> ops == [])
        invariant LegalRun(t, ops) && View() == Run(t, ops)
        invariant Scanned(t, i, ready, gone, connfd, srv, log, cmd, ops, handled)
        invariant served == old(served) + handled
        decreases MAX_CLIENTS - i
      {
        ops, handled := ScanSlot(i, ready, gone, connfd, t, ops, handled);
        i := i + 1;
      }
      n := i;
    }
  }

  /** The new connections of a run, in order. */
  function AcceptedBy(ops: seq<Op>): seq<int> {
    if ops == [] then []
    else
      var op := ops[|ops| - 1];
      AcceptedBy(ops[..|ops| - 1]) + if op.Accept? then [op.fd] else []
  }

  /** The connections a run releases, in order. */
  function FreedBy(t: Table, ops: seq<Op>): seq<int>
    requires LegalRun(t, ops)
    decreases |ops|
  {
    if ops == [] then []
    else
      var before, op := ops[..|ops| - 1], ops[|ops| - 1];
      FreedBy(t, before) + if op.Release? then [Run(t, before).client[op.slot]] else []
  }

  /** Those that have ended, services aside. */
  function Hung(handled: seq<int>, gone: set<int>, services: set<int>): seq<int> {
    if handled == [] then []
    else
      var fd := handled[|handled| - 1];
      Hung(handled[..|handled| - 1], gone, services) + if fd in gone && fd !in services then [fd] else []
  }

  /** The slots from i on that were taken in table t are as they were. */
  predicate Untouched(t: seq<int>, u: seq<int>, i: nat)
    requires |t| == |u|
  {
    forall k :: i <= k < |t| && t[k] >= 0 ==> u[k] == t[k]
  }

  /** Each connection with input in the slots before i of table t has been served, and nothing without. */
  predicate ServedUpTo(t: seq<int>, i: nat, ready: set<int>, handled: seq<int>)
    requires i <= |t|
  {
    && (forall k :: 0 <= k < i && t[k] >= 0 && t[k] in ready ==> t[k] in handled)
    && (forall fd :: fd in handled ==> fd in ready)
  }

  /** Where the scan of table t has come to with the slots before i. */
  ghost predicate Scanned(t: Table, i: nat, ready: set<int>, gone: set<int>, connfd: int, srv: int, log: int, cmd: int,
                          ops: seq<Op>, handled: seq<int>)
    requires LegalRun(t, ops)
  {
    && |t.client| == |Run(t, ops).client| == MAX_CLIENTS && i <= MAX_CLIENTS
    && ServedUpTo(t.client, i, ready, handled)
    && Untouched(t.client, Run(t, ops).client, i)
    && AcceptedBy(ops) == (if i >= SERVICES && cmd in ready then [connfd] else [])
    && FreedBy(t, ops) == Hung(handled, gone, {0, srv, log, cmd})
  }

  lemma RunNext(t: Table, a: seq<Op>, b: seq<Op>)
    requires LegalRun(t, a) && LegalRun(Run(t, a), b) && |b| <= 1
    ensures LegalRun(t, a + b) && Run(t, a + b) == Run(Run(t, a), b)
  {
    if b == [] {
      assert a + b == a;
    } else {
      assert b == [b[0]] && b[..0] == [];
      RunSnoc(t, a, b[0]);
    }
  }

  lemma HungSnoc(handled: seq<int>, fd: int, gone: set<int>, services: set<int>)
    ensures Hung(handled + [fd], gone, services) == Hung(handled, gone, services) + if fd in gone && fd !in services then [fd] else []
  {
    assert (handled + [fd])[..|handled|] == handled;
  }

  lemma OpsSnoc(t: Table, ops: seq<Op>, op: Op)
    requires LegalRun(t, ops) && Legal(Run(t, ops), op)
    ensures LegalRun(t, ops + [op]) && Run(t, ops + [op]) == Apply(Run(t, ops), op)
    ensures AcceptedBy(ops + [op]) == AcceptedBy(ops) + if op.Accept? then [op.fd] else []
    ensures FreedBy(t, ops + [op]) == FreedBy(t, ops) + if op.Release? then [Run(t, ops).client[op.slot]] else []
  {
    assert (ops + [op])[..|ops|] == ops;
  }

  lemma UntouchedStep(t: seq<int>, u: Table, i: nat, op: Op)
    requires |t| == |u.client| && Untouched(t, u.client, i) && Legal(u, op) && (op.Release? ==> op.slot == i)
    ensures Untouched(t, Apply(u, op).client, i + 1)
  {
  }

  lemma ServedStep(t: seq<int>, u: seq<int>, i: nat, ready: set<int>, handled: seq<int>)
    requires |t| == |u| && i < |t| && Untouched(t, u, i) && ServedUpTo(t, i, ready, handled)
    ensures ServedUpTo(t, i + 1, ready, handled + if u[i] >= 0 && u[i] in ready then [u[i]] else [])
  {
  }

  /** What a slot contributes. */
  lemma ScanStep(t: Table, u: Table, i: nat, ready: set<int>, gone: set<int>, connfd: int, srv: int, log: int, cmd: int,
                 ops: seq<Op>, handled: seq<int>, more: seq<Op>)
    requires LegalRun(t, ops) && u == Run(t, ops) && Scanned(t, i, ready, gone, connfd, srv, log, cmd, ops, handled)
    requires i < MAX_CLIENTS && cmd >= 0 && (u.client[i] == cmd <==> i == SERVICES - 1) && LegalRun(u, more)
    requires var fd := u.client[i];
             var live := fd >= 0 && fd in ready;
             var ended := live && fd !in {0, srv, log, cmd} && fd in gone;
             more == if live && fd == cmd then [Accept(connfd)] else if ended then [Release(i)] else []
    ensures var fd := u.client[i];
            && LegalRun(t, ops + more) && Run(t, ops + more) == Run(u, more)
            && Scanned(t, i + 1, ready, gone, connfd, srv, log, cmd, ops + more, handled + if fd >= 0 && fd in ready then [fd] else [])
  {
    var fd := u.client[i];
    var now := handled + if fd >= 0 && fd in ready then [fd] else [];
    ServedStep(t.client, u.client, i, ready, handled);
    RunNext(t, ops, more);
    assert more != [] ==> more == [more[0]] && more[..0] == [];
    LedgerStep(t, ops, more, i, fd, handled, now, gone, {0, srv, log, cmd});
    if more != [] {
      UntouchedStep(t.client, u, i, more[0]);
    }
  }

  /** A slot's entry in the accounts. */
  lemma LedgerStep(t: Table, ops: seq<Op>, more: seq<Op>, i: nat, fd: int, handled: seq<int>, now: seq<int>, gone: set<int>,
                   services: set<int>)
    requires LegalRun(t, ops) && i < |Run(t, ops).client| && fd == Run(t, ops).client[i]
    requires now == handled || now == handled + [fd]
    requires more == [] || (|more| == 1 && Legal(Run(t, ops), more[0]))
    requires (more != [] && more[0].Release? ==> more == [Release(i)])
    requires now != handled && fd in gone && fd !in services <==> more != [] && more[0].Release?
    ensures LegalRun(t, ops + more) && Run(t, ops + more) == if more == [] then Run(t, ops) else Apply(Run(t, ops), more[0])
    ensures AcceptedBy(ops + more) == AcceptedBy(ops) + if more != [] && more[0].Accept? then [more[0].fd] else []
    ensures FreedBy(t, ops) == Hung(handled, gone, services) ==> FreedBy(t, ops + more) == Hung(now, gone, services)
  {
    HungSnoc(handled, fd, gone, services);
    if more == [] {
      assert ops + more == ops;
    } else {
      assert more == [more[0]];
      OpsSnoc(t, ops, more[0]);
    }
  }

  lemma ScanEnd(t: Table, i: nat, last: int, ready: set<int>, srv: int, log: int, cmd: int, handled: seq<int>)
    requires Inv(t, srv, log, cmd) && SERVICES - 1 <= last < i <= MAX_CLIENTS && ServedUpTo(t.client, i, ready, handled)
    ensures forall fd :: fd in [0, srv, log, cmd] && fd in ready ==> fd in handled
    ensures forall k :: 0 <= k <= last && t.client[k] >= 0 && t.client[k] in ready ==> t.client[k] in handled
  {
    ServiceSlots(t, srv, log, cmd);
    assert t.client[0] in ready ==> t.client[0] in handled;
    assert t.client[1] in ready ==> t.client[1] in handled;
    assert t.client[2] in ready ==> t.client[2] in handled;
    assert t.client[3] in ready ==> t.client[3] in handled;
  }
}
