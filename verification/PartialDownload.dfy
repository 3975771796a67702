/**
 The download loop of cli_copy against a peer that delivers less than it is asked for (pksh.c,
 netfsproto_core.c). The results of the reads are ignored, and a whole piece of the buffer is written each time.
*/
module PartialDownload {
  import opened Bytes
  import opened NetFs
  import opened FileServer
  import opened NetFsClient
  import opened Copy

  /** What one reply brings into the buffer, and the buffer. */
  type Data = b: seq<byte> | |b| <= CHUNK
  type Block = b: seq<byte> | |b| == CHUNK witness seq(CHUNK, _ => 0)

  /** What the loop writes in all, when the replies bring `datas` into the buffer. */
  function Fetched(buffer: Block, size: int, datas: seq<Data>): seq<byte>
    decreases |datas|
  {
    if size <= 0 || datas == [] then []
    else
      var filled := Splice(buffer, 0, datas[0]);
      Piece(filled, size) + Fetched(filled, size - CHUNK, datas[1..])
  }

  /** The buffer after those replies. */
  function Filled(buffer: Block, datas: seq<Data>): (r: Block)
    decreases |datas|
  {
    if datas == [] then buffer else Filled(Splice(buffer, 0, datas[0]), datas[1..])
  }

  lemma {:induction false} FetchedSnoc(buffer: Block, size: int, datas: seq<Data>, d: Data)
    requires size > CHUNK * |datas|
    ensures var filled := Splice(Filled(buffer, datas), 0, d);
            && Filled(buffer, datas + [d]) == filled
            && Fetched(buffer, size, datas + [d]) == Fetched(buffer, size, datas) + Piece(filled, size - CHUNK * |datas|)
    decreases |datas|
  {
    var all := datas + [d];
    if datas == [] {
      assert all == [d] && all[1..] == [];
      assert Fetched(Splice(buffer, 0, d), size - CHUNK, []) == [];
    } else {
      assert all[1..] == datas[1..] + [d];
      FetchedSnoc(Splice(buffer, 0, datas[0]), size - CHUNK, datas[1..], d);
    }
  }

  // ---- A server that reads on from where it is ----

  /** What such a server brings, of what is left of its file. */
  function Datas(rest: seq<byte>, deals: seq<Deal>): (datas: seq<Data>)
    ensures |datas| == |deals|
    decreases |deals|
  {
    if deals == [] then []
    else
      var b := Part(Chunk(rest, 0, CHUNK), deals[0].most);
      [b] + Datas(rest[|b|..], deals[1..])
  }

  predicate AllWhole(deals: seq<Deal>) {
    deals == [] || (deals[0].Whole? && AllWhole(deals[1..]))
  }

  /** The server has the file open, and nothing is in transit. */
  ghost predicate Serving(c: Client, fd: int, base: Disk, name: seq<byte>, pos: nat, content: seq<byte>, deals: seq<Deal>)
    reads c
  {
    && c.Quiet() && fd == base.next < 0x8000_0000 && pos <= |content| && AllWhole(deals)
    && c.server == Flaky(Opened(base, name, READING, pos, content), deals)
  }

  /** And has brought `datas` of what it will bring in all. */
  ghost predicate Bringing(c: Client, fd: int, base: Disk, name: seq<byte>, pos: nat, content: seq<byte>, deals: seq<Deal>,
                           datas: seq<Data>, all: seq<Data>)
    reads c
  {
    && Serving(c, fd, base, name, pos, content, deals)
    && |datas| + |deals| == |all| && all == datas + Datas(content[pos..], deals)
  }

  lemma Regroup(datas: seq<Data>, data: seq<byte>, more: seq<Data>)
    ensures datas + ([data] + more) == datas + [data] + more
  {
  }

  lemma ReadsPart(base: Disk, name: seq<byte>, pos: nat, content: seq<byte>, most: int)
    requires pos <= |content|
    ensures var b := Part(Chunk(content[pos..], 0, CHUNK), most);
            var (d', v, got) := ReadPart(Opened(base, name, READING, pos, content), base.next, CHUNK, most);
            d' == Opened(base, name, READING, pos + |b|, content) && got == b && content[pos..][|b|..] == content[pos + |b|..]
  {
    var b := Part(Chunk(content[pos..], 0, CHUNK), most);
    if most < 0 {
      assert pos + |b| == pos;
    } else {
      Moves(base, name, READING, pos, pos + |b|, content);
      assert Chunk(content, pos, if CHUNK <= most then CHUNK else most) == b;
    }
  }

  // ---- The loop ----

  /** Where the loop has come to, from the buffer `first` and the local file `local`, when `datas` have arrived. */
  ghost predicate Copied(fd0: LocalFile, buffer: array<byte>, first: Block, local: seq<byte>, size: int, datas: seq<Data>)
    reads fd0, buffer
  {
    && buffer[..] == Filled(first, datas)
    && fd0.content == Overwrite(local, 0, Fetched(first, size, datas)) && fd0.pos == |Fetched(first, size, datas)|
  }

  /** A pass; a server that serves parts reads on from where it is. */
  method NextPass(c: Client, fd1: i32, fd0: LocalFile, buffer: array<byte>, size: int, ghost first: Block,
                  ghost local: seq<byte>, ghost datas: seq<Data>, ghost base: Disk, ghost name: seq<byte>, ghost at: nat,
                  ghost remote: seq<byte>, ghost deals: seq<Deal>, ghost all: seq<Data>) returns (ghost data: Data)
    requires c.Valid() && c.connected && buffer.Length == CHUNK && size > 0
    requires buffer != c.sendPacket && buffer != c.recvPacket
    requires Copied(fd0, buffer, first, local, size + CHUNK * |datas|, datas)
    modifies c`rx, c`unserved, c`server, c`connected, c.sendPacket, c.recvPacket, buffer, fd0
    ensures Copied(fd0, buffer, first, local, size + CHUNK * |datas|, datas + [data])
    ensures old(Bringing(c, fd1, base, name, at, remote, deals, datas, all)) && deals != [] ==>
              Bringing(c, fd1, base, name, at + |data|, remote, deals[1..], datas + [data], all)
  {
    data := BringingPass(c, fd1, fd0, buffer, size, base, name, at, remote, deals, datas, all);
    CopiedMore(first, local, size, datas, data);
  }

  /** FetchedSnoc, counted from what is left. */
  lemma FetchedNext(first: Block, size: int, datas: seq<Data>, data: Data)
    requires size > 0
    ensures var all, filled := size + CHUNK * |datas|, Splice(Filled(first, datas), 0, data);
            && Filled(first, datas + [data]) == filled
            && Fetched(first, all, datas + [data]) == Fetched(first, all, datas) + Piece(filled, size)
  {
    FetchedSnoc(first, size + CHUNK * |datas|, datas, data);
  }

  lemma CopiedMore(first: Block, local: seq<byte>, size: int, datas: seq<Data>, data: Data)
    requires size > 0
    ensures var before := Fetched(first, size + CHUNK * |datas|, datas);
            var filled := Splice(Filled(first, datas), 0, data);
            var after := Fetched(first, size + CHUNK * |datas|, datas + [data]);
            && Filled(first, datas + [data]) == filled
            && Overwrite(Overwrite(local, 0, before), |before|, Piece(filled, size)) == Overwrite(local, 0, after)
            && |after| == |before| + |Piece(filled, size)|
  {
    FetchedNext(first, size, datas, data);
    OverwriteMore(local, Fetched(first, size + CHUNK * |datas|, datas), Piece(Splice(Filled(first, datas), 0, data), size));
  }

  method BringingPass(c: Client, fd1: i32, fd0: LocalFile, buffer: array<byte>, size: int, ghost base: Disk, ghost name: seq<byte>,
                      ghost at: nat, ghost remote: seq<byte>, ghost deals: seq<Deal>, ghost datas: seq<Data>,
                      ghost all: seq<Data>) returns (ghost data: Data)
    requires c.Valid() && c.connected && buffer.Length == CHUNK && size > 0
    requires buffer != c.sendPacket && buffer != c.recvPacket
    modifies c`rx, c`unserved, c`server, c`connected, c.sendPacket, c.recvPacket, buffer, fd0
    ensures buffer[..] == Splice(old(buffer[..]), 0, data)
    ensures fd0.content == Overwrite(old(fd0.content), old(fd0.pos), Piece(buffer[..], size))
    ensures fd0.pos == old(fd0.pos) + |Piece(buffer[..], size)|
    ensures old(Bringing(c, fd1, base, name, at, remote, deals, datas, all)) && deals != [] ==>
              Bringing(c, fd1, base, name, at + |data|, remote, deals[1..], datas + [data], all)
  {
    data := ServedPass(c, fd1, fd0, buffer, size, base, name, at, remote, deals);
    if old(Bringing(c, fd1, base, name, at, remote, deals, datas, all)) && deals != [] {
      Regroup(datas, data, Datas(remote[at + |data|..], deals[1..]));
    }
  }

  method ServedPass(c: Client, fd1: i32, fd0: LocalFile, buffer: array<byte>, size: int, ghost base: Disk, ghost name: seq<byte>,
                    ghost at: nat, ghost remote: seq<byte>, ghost deals: seq<Deal>) returns (ghost data: Data)
    requires c.Valid() && c.connected && buffer.Length == CHUNK && size > 0
    requires buffer != c.sendPacket && buffer != c.recvPacket
    modifies c`rx, c`unserved, c`server, c`connected, c.sendPacket, c.recvPacket, buffer, fd0
    ensures buffer[..] == Splice(old(buffer[..]), 0, data)
    ensures fd0.content == Overwrite(old(fd0.content), old(fd0.pos), Piece(buffer[..], size))
    ensures fd0.pos == old(fd0.pos) + |Piece(buffer[..], size)|
    ensures old(Serving(c, fd1, base, name, at, remote, deals)) && deals != [] ==>
              && Serving(c, fd1, base, name, at + |data|, remote, deals[1..])
              && Datas(remote[at..], deals) == [data] + Datas(remote[at + |data|..], deals[1..])
  {
    if at <= |remote| && deals != [] {
      ReadsPart(base, name, at, remote, deals[0].most);
    }
    data := DownloadPass(c, fd1, fd0, buffer, size);
  }

  method DownloadFrom(c: Client, fd1: i32, fd0: LocalFile, buffer: array<byte>, size0: int, ghost first: Block,
                      ghost local: seq<byte>, ghost base: Disk, ghost name: seq<byte>, ghost remote: seq<byte>,
                      ghost deals: seq<Deal>, ghost all: seq<Data>, ghost serving: bool)
      returns (ghost datas: seq<Data>)
    requires c.Valid() && c.connected && buffer.Length == CHUNK && buffer != c.sendPacket && buffer != c.recvPacket
    requires Copied(fd0, buffer, first, local, size0, [])
    requires serving ==> CHUNK * |all| >= size0 && Bringing(c, fd1, base, name, 0, remote, deals, [], all)
    modifies c`rx, c`unserved, c`server, c`connected, c.sendPacket, c.recvPacket, buffer, fd0
    ensures Copied(fd0, buffer, first, local, size0, datas)
    ensures c.connected ==> CHUNK * |datas| >= size0
    ensures serving ==> c.connected && datas <= all
  {
    var size := size0;
    datas := [];
    ghost var at: nat, more := 0, deals;
    while size > 0 && c.connected
      invariant size == size0 - CHUNK * |datas| && Copied(fd0, buffer, first, local, size0, datas)
      invariant serving ==> Bringing(c, fd1, base, name, at, remote, more, datas, all)
    {
      ghost var data := NextPass(c, fd1, fd0, buffer, size, first, local, datas, base, name, at, remote, more, all);
      if serving {
        at, more := at + |data|, more[1..];
      }
      datas := datas + [data];
      size := size - CHUNK;
    }
  }

  /** The download loop against any peer, as long as the connection stays open; and against a server that
      answers every read with at least some of the bytes from where it is. */
  method DownloadPasses(c: Client, fd1: i32, fd0: LocalFile, buffer: array<byte>, size0: int, ghost base: Disk,
                        ghost name: seq<byte>, ghost remote: seq<byte>, ghost deals: seq<Deal>)
      returns (ghost datas: seq<Data>)
    requires c.Valid() && c.connected && buffer.Length == CHUNK && fd0.pos == 0
    requires buffer != c.sendPacket && buffer != c.recvPacket
    modifies c`rx, c`unserved, c`server, c`connected, c.sendPacket, c.recvPacket, buffer, fd0
    ensures c.connected ==> CHUNK * |datas| >= size0
    ensures fd0.content == Overwrite(old(fd0.content), 0, Fetched(old(buffer[..]), size0, datas))
    ensures old(Serving(c, fd1, base, name, 0, remote, deals)) && CHUNK * |deals| >= size0 ==>
              && c.connected && datas <= Datas(remote, deals)
              && fd0.content == Overwrite(old(fd0.content), 0, Fetched(old(buffer[..]), size0, Datas(remote, deals)))
  {
    ghost var serving := Serving(c, fd1, base, name, 0, remote, deals) && CHUNK * |deals| >= size0;
    ghost var first, local, all := buffer[..], fd0.content, Datas(remote, deals);
    assert remote[0..] == remote && [] + all == all;
    assert Fetched(first, size0, []) == [] && Overwrite(local, 0, []) == local;
    datas := DownloadFrom(c, fd1, fd0, buffer, size0, first, local, base, name, remote, deals, all, serving);
    if serving {
      FetchedPrefix(first, size0, datas, all);
    }
  }

  // ---- Pass by pass ----

  /** Each reply brings its chunk, as far as the buffer does not hold it already. */
  predicate Delivered(buffer: Block, rest: seq<byte>, datas: seq<Data>)
    decreases |datas|
  {
    var b := Chunk(rest, 0, CHUNK);
    if rest == [] then true
    else if datas == [] then false
    else
      var filled := Splice(buffer, 0, datas[0]);
      filled[..|b|] == b && Delivered(filled, rest[|b|..], datas[1..])
  }

  /** For replies of any kind, the download equals the remote file if and only if in every pass the buffer holds
      the chunk after the read, stale bytes and all. */
  lemma {:induction false} FetchedIff(buffer: Block, rest: seq<byte>, datas: seq<Data>)
    ensures Fetched(buffer, |rest|, datas) == rest <==> Delivered(buffer, rest, datas)
    decreases |datas|
  {
    if rest != [] && datas != [] {
      var b, filled := Chunk(rest, 0, CHUNK), Splice(buffer, 0, datas[0]);
      var piece, more := Piece(filled, |rest|), Fetched(filled, |rest| - CHUNK, datas[1..]);
      FetchedIff(filled, rest[|b|..], datas[1..]);
      assert rest == b + rest[|b|..];
      assert piece == filled[..|b|];
      assert |rest| <= CHUNK ==> more == [] && rest[|b|..] == [];
      if piece + more == rest {
        assert (piece + more)[..|b|] == piece && (piece + more)[|b|..] == more;
      }
    }
  }

  /** A reply that brings only part of a chunk leaves the chunk right if and only if the stale bytes
      behind it happen to be the missing ones. */
  lemma ShortReply(buffer: Block, b: Data, n: nat)
    requires n <= |b|
    ensures Splice(buffer, 0, b[..n])[..|b|] == b <==> buffer[n..|b|] == b[n..]
  {
    assert Splice(buffer, 0, b[..n])[..|b|] == b[..n] + buffer[n..|b|];
    assert b == b[..n] + b[n..];
    if b[..n] + buffer[n..|b|] == b {
      assert b[n..] == (b[..n] + buffer[n..|b|])[n..];
    }
  }

  // ---- When the file is right ----

  /** Replies that were not waited for do not matter. */
  lemma {:induction false} FetchedPrefix(buffer: Block, size: int, datas: seq<Data>, all: seq<Data>)
    requires datas <= all && CHUNK * |datas| >= size
    ensures Fetched(buffer, size, all) == Fetched(buffer, size, datas)
    decreases |datas|
  {
    if size > 0 {
      FetchedPrefix(Splice(buffer, 0, datas[0]), size - CHUNK, datas[1..], all[1..]);
    }
  }

  /** Each read of a file of n bytes is served in full, as far as the file goes. */
  predicate FullReads(n: int, deals: seq<Deal>)
    decreases |deals|
  {
    n <= 0 || (deals != [] && deals[0].most >= (if n < CHUNK then n else CHUNK) && FullReads(n - CHUNK, deals[1..]))
  }

  lemma {:induction false} FullReadsFetch(buffer: Block, rest: seq<byte>, deals: seq<Deal>)
    requires FullReads(|rest|, deals)
    ensures Fetched(buffer, |rest|, Datas(rest, deals)) == rest
    decreases |deals|
  {
    if rest != [] {
      var b := Chunk(rest, 0, CHUNK);
      SplicePrefix(buffer, b);
      FullReadsFetch(Splice(buffer, 0, b), rest[|b|..], deals[1..]);
      assert rest == b + rest[|b|..];
    }
  }

  /** Where the first read that is not served in full leaves off. */
  function Missing(n: nat, deals: seq<Deal>): (at: nat)
    requires !FullReads(n, deals)
    ensures at < n
    decreases |deals|
  {
    var m := if n < CHUNK then n else CHUNK;
    if deals == [] || deals[0].most < 0 then 0
    else if deals[0].most < m then deals[0].most
    else
      assert !FullReads(n - CHUNK, deals[1..]);
      CHUNK + Missing(n - CHUNK, deals[1..])
  }

  /** Zeroes, but for a one in the given place. */
  function Marked(n: nat, at: nat): (f: seq<byte>)
    requires at < n
    ensures |f| == n && forall i :: 0 <= i < n ==> f[i] == if i == at then 1 else 0
  {
    seq(n, i => if i == at then 1 else 0)
  }

  function Zeroes(): (b: Block)
    ensures forall i :: 0 <= i < CHUNK ==> b[i] == 0
  {
    seq(CHUNK, _ => 0)
  }

  lemma FetchedFirst(buffer: Block, rest: seq<byte>, deals: seq<Deal>)
    requires rest != [] && deals != []
    ensures var b := Part(Chunk(rest, 0, CHUNK), deals[0].most);
            var filled := Splice(buffer, 0, b);
            Fetched(buffer, |rest|, Datas(rest, deals)) ==
            Piece(filled, |rest|) + Fetched(filled, |rest| - CHUNK, Datas(rest[|b|..], deals[1..]))
  {
    var b := Part(Chunk(rest, 0, CHUNK), deals[0].most);
    assert Datas(rest, deals)[1..] == Datas(rest[|b|..], deals[1..]);
  }

  lemma MissingHere(f: seq<byte>, b: seq<byte>, more: seq<byte>)
    requires |b| < |f| && |b| < CHUNK && f[|b|] == 1
    ensures Piece(Splice(Zeroes(), 0, b), |f|) + more != f
  {
    var filled := Splice(Zeroes(), 0, b);
    assert filled[|b|] == Zeroes()[|b|] == 0;
    assert (Piece(filled, |f|) + more)[|b|] == 0;
  }

  lemma MarkedFurther(n: nat, at: nat)
    requires CHUNK <= at < n
    ensures Splice(Zeroes(), 0, Marked(n, at)[..CHUNK]) == Zeroes()
    ensures Marked(n, at)[CHUNK..] == Marked(n - CHUNK, at - CHUNK)
  {
  }

  /** A file whose one non-zero byte is the first that is missing is not fetched. */
  lemma {:induction false} MissingByte(n: nat, deals: seq<Deal>)
    requires !FullReads(n, deals)
    ensures var f := Marked(n, Missing(n, deals)); Fetched(Zeroes(), n, Datas(f, deals)) != f
    decreases |deals|
  {
    var at := Missing(n, deals);
    var f := Marked(n, at);
    if deals != [] {
      var b := Part(Chunk(f, 0, CHUNK), deals[0].most);
      var filled := Splice(Zeroes(), 0, b);
      var more := Fetched(filled, n - CHUNK, Datas(f[|b|..], deals[1..]));
      FetchedFirst(Zeroes(), f, deals);
      if |b| < CHUNK && |b| < n {
        MissingHere(f, b, more);
      } else {
        assert b == f[..CHUNK];
        MarkedFurther(n, at);
        MissingByte(n - CHUNK, deals[1..]);
        SamePiece(f, more);
      }
    }
  }

  lemma SamePiece(f: seq<byte>, more: seq<byte>)
    requires |f| >= CHUNK && more != f[CHUNK..]
    ensures Piece(Zeroes(), |f|) + more != f
  {
    assert (Piece(Zeroes(), |f|) + more)[CHUNK..] == more;
  }

  /** The download is the remote file, whatever that file and the buffer held. */
  ghost predicate AlwaysFetched(n: nat, deals: seq<Deal>) {
    forall remote, buffer: Block :: |remote| == n ==> Fetched(buffer, n, Datas(remote, deals)) == remote
  }

  /** The results of the reads are ignored, so that is so if and only if every read is served in full. */
  lemma AlwaysFetchedIff(n: nat, deals: seq<Deal>)
    ensures AlwaysFetched(n, deals) <==> FullReads(n, deals)
  {
    if FullReads(n, deals) {
      forall remote: seq<byte>, buffer: Block | |remote| == n
        ensures Fetched(buffer, n, Datas(remote, deals)) == remote
      {
        FullReadsFetch(buffer, remote, deals);
      }
    } else {
      MissingByte(n, deals);
      assert |Marked(n, Missing(n, deals))| == n;
    }
  }

  /** For instance a file of two bytes of which the one read yields the first: the loop ends, and the second byte
      is what was in the buffer. */
  lemma ShortDownload(x: byte, y: byte, buffer: Block)
    requires buffer[1] != y
    ensures var got := Fetched(buffer, 2, Datas([x, y], [Whole(1)])); got == [x, buffer[1]] && got != [x, y]
  {
    var b := Part(Chunk([x, y], 0, CHUNK), 1);
    assert b == [x];
    assert Datas([x, y], [Whole(1)]) == [[x]] + Datas([y], []);
    assert Fetched(buffer, 2, [[x]]) == Piece(Splice(buffer, 0, [x]), 2) + [];
  }
}
