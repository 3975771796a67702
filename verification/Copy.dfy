/**
 The two copy loops of cli_copy (pksh.c): download from and upload to a ps2netfs file, in chunks
 of 65536 bytes, over the byte stream of NetFsClient.
*/
module Copy {
  import opened Bytes
  import opened NetFs
  import opened FileServer
  import opened NetFsClient

  const CHUNK: nat := 65536

  /** An open file on the host. */
  class LocalFile {
    var content: seq<byte>
    var pos: nat

    constructor (content: seq<byte>)
      ensures this.content == content && pos == 0
    {
      this.content, pos := content, 0;
    }

    method Read(buffer: array<byte>) returns (n: nat)
      modifies this`pos, buffer
      ensures var b := Chunk(content, old(pos), buffer.Length);
              n == |b| && buffer[..n] == b && pos == old(pos) + n
    {
      var b := Chunk(content, pos, buffer.Length);
      forall i | 0 <= i < |b| {
        buffer[i] := b[i];
      }
      n := |b|;
      pos := pos + n;
    }

    method Write(b: seq<byte>)
      modifies this
      ensures content == Overwrite(old(content), old(pos), b) && pos == old(pos) + |b|
    {
      content := Overwrite(content, pos, b);
      pos := pos + |b|;
    }
  }

  lemma OverwriteMore(f: seq<byte>, x: seq<byte>, y: seq<byte>)
    ensures Overwrite(Overwrite(f, 0, x), |x|, y) == Overwrite(f, 0, x + y)
  {
  }

  lemma ChunkNext(f: seq<byte>, at: nat)
    requires at <= |f|
    ensures var b := Chunk(f, at, CHUNK);
            f[..at] + b == f[..at + |b|] && |b| == if |f| - at < CHUNK then |f| - at else CHUNK
  {
  }

  // ---- The remote file ----

  function Existing(d: Disk, name: seq<byte>): seq<byte> {
    if name in d.files then d.files[name] else []
  }

  /** How the two loops have their file open. */
  const READING: i32 := O_RDONLY
  const WRITING: i32 := O_WRONLY + O_CREAT

  /** The disk `base` with one more file open: `name`, which holds `content`, at position `pos`. */
  function Opened(base: Disk, name: seq<byte>, mode: i32, pos: nat, content: seq<byte>): Disk {
    Disk(base.files[name := content], base.handles[base.next := Handle(name, mode, pos)], base.next + 1)
  }

  /** And after it has been closed again. */
  function Closed(base: Disk, name: seq<byte>, content: seq<byte>): Disk {
    Disk(base.files[name := content], base.handles, base.next + 1)
  }

  /** The connection is in sync and fd is the file opened on the disk `base`. */
  ghost predicate Positioned(c: Client, fd: int, base: Disk, name: seq<byte>, mode: i32, pos: nat, content: seq<byte>)
    reads c
  {
    && c.InSync() && ValidDisk(base) && fd == base.next < 0x8000_0000
    && c.server.disk == Opened(base, name, mode, pos, content)
  }

  /** Opens a file at its start; with O_CREAT a name that does not exist becomes an empty file. */
  method OpenRemote(c: Client, path: seq<byte>, mode: i32) returns (fd: i32)
    requires c.InSync() && ValidDisk(c.server.disk)
    modifies c`rx, c`unserved, c`server, c`connected, c.sendPacket, c.recvPacket
    ensures var d, name := old(c.server.disk), Name(path);
            if d.next >= 0x8000_0000 || (name !in d.files && !Creates(mode)) then
              fd == -1 && c.InSync() && c.server.disk == d
            else
              Positioned(c, fd, d, name, mode, 0, if HasMode(mode, O_TRUNC) then [] else Existing(d, name))
  {
    fd := c.ReqOpen(path, mode);
    ghost var d, name := old(c.server.disk), Name(path);
    if name in d.files {
      assert d.files[name := d.files[name]] == d.files;
    }
  }

  /** A seek on the open file. */
  method SeekRemote(c: Client, fd: i32, whence: i32, ghost base: Disk, ghost name: seq<byte>, ghost pos: nat,
                    ghost content: seq<byte>) returns (at: i32)
    requires Positioned(c, fd, base, name, READING, pos, content) && (whence == SEEK_SET || whence == SEEK_END)
    modifies c`rx, c`unserved, c`server, c`connected, c.sendPacket, c.recvPacket
    ensures var to := if whence == SEEK_SET then 0 else |content|;
            if to < 0x8000_0000 then at == to && Positioned(c, fd, base, name, READING, to, content)
            else at == -1 && Positioned(c, fd, base, name, READING, pos, content)
  {
    at := c.ReqLseek(fd, 0, whence);
    ghost var to := if whence == SEEK_SET then 0 else |content|;
    Moves(base, name, READING, pos, to, content);
  }

  /** The size of the file by two seeks; -1 if it does not fit an int. */
  method RemoteSize(c: Client, fd: i32, ghost base: Disk, ghost name: seq<byte>, ghost content: seq<byte>) returns (size: i32)
    requires Positioned(c, fd, base, name, READING, 0, content)
    modifies c`rx, c`unserved, c`server, c`connected, c.sendPacket, c.recvPacket
    ensures Positioned(c, fd, base, name, READING, 0, content)
    ensures size == if |content| < 0x8000_0000 then |content| else -1
  {
    size := SeekRemote(c, fd, SEEK_END, base, name, 0, content);
    var _ := SeekRemote(c, fd, SEEK_SET, base, name, if size == -1 then 0 else size, content);
  }

  method CloseRemote(c: Client, fd: i32, ghost base: Disk, ghost name: seq<byte>, ghost mode: i32, ghost pos: nat, ghost content: seq<byte>)
    requires Positioned(c, fd, base, name, mode, pos, content)
    modifies c`rx, c`unserved, c`server, c`connected, c.sendPacket, c.recvPacket
    ensures c.InSync() && c.server.disk == Closed(base, name, content)
  {
    var _ := c.ReqClose(fd);
    assert base.handles[base.next := Handle(name, mode, pos)] - {base.next} == base.handles;
  }

  /** Moving the position, or replacing the content, of the open file. */
  lemma Moves(base: Disk, name: seq<byte>, mode: i32, pos: nat, to: nat, content: seq<byte>)
    ensures var d := Opened(base, name, mode, pos, content);
            d.(handles := d.handles[base.next := Handle(name, mode, to)]) == Opened(base, name, mode, to, content)
  {
  }

  lemma WritesOn(base: Disk, name: seq<byte>, pos: nat, before: seq<byte>, b: seq<byte>)
    requires |b| < 0x8000_0000
    ensures Write(Opened(base, name, WRITING, pos, before), base.next, b) ==
            (Opened(base, name, WRITING, pos + |b|, Overwrite(before, pos, b)), |b|)
  {
    var h := base.handles[base.next := Handle(name, WRITING, pos)];
    assert base.files[name := before][name := Overwrite(before, pos, b)] == base.files[name := Overwrite(before, pos, b)];
    assert h[base.next := Handle(name, WRITING, pos + |b|)] == base.handles[base.next := Handle(name, WRITING, pos + |b|)];
  }

  lemma ReadsOn(base: Disk, name: seq<byte>, pos: nat, content: seq<byte>)
    ensures var b := Chunk(content, pos, CHUNK);
            Read(Opened(base, name, READING, pos, content), base.next, CHUNK) ==
            (Opened(base, name, READING, pos + |b|, content), |b|, b)
  {
    Moves(base, name, READING, pos, pos + |Chunk(content, pos, CHUNK)|, content);
  }

  // ---- One pass through the download loop, against any peer ----

  /** The piece of the buffer a pass writes. */
  function Piece(buffer: seq<byte>, size: int): (b: seq<byte>)
    requires |buffer| == CHUNK && size > 0
  {
    if size < CHUNK then buffer[..size] else buffer
  }

  /** ps2netfs_req_read into the buffer, whose result is ignored. `data` is what the reply brought into the
      buffer; the rest of the buffer is what it was. */
  method ReadChunk(c: Client, fd1: i32, buffer: array<byte>) returns (ghost data: seq<byte>)
    requires c.Valid() && c.connected && buffer.Length == CHUNK && buffer != c.sendPacket && buffer != c.recvPacket
    modifies c`rx, c`unserved, c`server, c`connected, c.sendPacket, c.recvPacket, buffer
    ensures |data| <= CHUNK && buffer[..] == Splice(old(buffer[..]), 0, data)
    ensures old(c.InSync()) ==>
              var (d', v, b) := Read(old(c.server).disk, fd1, CHUNK);
              c.InSync() && c.server == Files(d') && data == b
    ensures old(c.Dealing()) ==>
              var (d', v, b) := ReadPart(old(c.server).disk, fd1, CHUNK, old(c.server).deals[0].most);
              c.Quiet() && c.server == Flaky(d', old(c.server).deals[1..]) && data == b
  {
    ghost var was := buffer[..];
    ghost var sent := React(c.server, c.unserved + TransferRequest(READ_CMD, fd1, CHUNK));
    ghost var a := Accept(c.recvPacket[..], c.rx + sent.output, READ_REQ, READ_RLY, c.broken);
    if c.InSync() {
      ReadInSync(c.recvPacket[..], c.server.disk, fd1, CHUNK, was, c.broken);
    } else if c.Dealing() {
      ReadPartInSync(c.recvPacket[..], c.server.disk, c.server.deals, fd1, CHUNK, was, c.broken);
    }
    var r := c.ReqRead(fd1, buffer, CHUNK);
    data := Brought(a, r);
    assert Splice(was, 0, []) == was;
  }

  function Brought(a: Accepted, r: int): (data: seq<byte>)
    ensures |data| <= CHUNK
    ensures a.ret != 0 && r == |a.rx| <= CHUNK ==> data == a.rx
  {
    var n := if r <= |a.rx| then r else |a.rx|;
    if a.ret != 0 && r > 0 then a.rx[..if n <= CHUNK then n else CHUNK] else []
  }

  /** The read, and the write of a chunk from the buffer. */
  method DownloadPass(c: Client, fd1: i32, fd0: LocalFile, buffer: array<byte>, size: int) returns (ghost data: seq<byte>)
    requires c.Valid() && c.connected && buffer.Length == CHUNK && size > 0
    requires buffer != c.sendPacket && buffer != c.recvPacket
    modifies c`rx, c`unserved, c`server, c`connected, c.sendPacket, c.recvPacket, buffer, fd0
    ensures |data| <= CHUNK && buffer[..] == Splice(old(buffer[..]), 0, data)
    ensures fd0.content == Overwrite(old(fd0.content), old(fd0.pos), Piece(buffer[..], size))
    ensures fd0.pos == old(fd0.pos) + |Piece(buffer[..], size)|
    ensures old(c.InSync()) ==>
              var (d', v, b) := Read(old(c.server).disk, fd1, CHUNK);
              c.InSync() && c.server == Files(d') && data == b
    ensures old(c.Dealing()) ==>
              var (d', v, b) := ReadPart(old(c.server).disk, fd1, CHUNK, old(c.server).deals[0].most);
              c.Quiet() && c.server == Flaky(d', old(c.server).deals[1..]) && data == b
  {
    data := ReadChunk(c, fd1, buffer);
    if size < CHUNK {
      fd0.Write(buffer[..size]);
    } else {
      fd0.Write(buffer[..]);
    }
  }

  // ---- Download ----

  /** What the local file holds afterwards: nothing is truncated. */
  function Downloaded(remote: seq<byte>, local: seq<byte>): seq<byte> {
    if |remote| < 0x8000_0000 then Overwrite(local, 0, remote) else local
  }

  /** A pass on the open file: the server delivers the whole chunk. */
  method FetchChunk(c: Client, fd1: i32, fd0: LocalFile, buffer: array<byte>, size: int, ghost base: Disk,
                    ghost name: seq<byte>, ghost remote: seq<byte>)
    requires Positioned(c, fd1, base, name, READING, fd0.pos, remote) && fd0.pos + size == |remote| && size > 0
    requires buffer.Length == CHUNK && buffer != c.sendPacket && buffer != c.recvPacket
    modifies c`rx, c`unserved, c`server, c`connected, c.sendPacket, c.recvPacket, buffer, fd0
    ensures var b := Chunk(remote, old(fd0.pos), CHUNK);
            && fd0.content == Overwrite(old(fd0.content), old(fd0.pos), b) && fd0.pos == old(fd0.pos) + |b|
            && Positioned(c, fd1, base, name, READING, fd0.pos, remote)
  {
    ghost var b, was := Chunk(remote, fd0.pos, CHUNK), buffer[..];
    ReadsOn(base, name, fd0.pos, remote);
    ghost var data := DownloadPass(c, fd1, fd0, buffer, size);
    SplicePrefix(was, b);
    assert Piece(buffer[..], size) == b;
  }

  method DownloadLoop(c: Client, fd1: i32, fd0: LocalFile, size0: int, ghost base: Disk, ghost name: seq<byte>,
                      ghost remote: seq<byte>) returns (ghost got: nat)
    requires Positioned(c, fd1, base, name, READING, 0, remote) && fd0.pos == 0
    requires size0 == if |remote| < 0x8000_0000 then |remote| else -1
    modifies c`rx, c`unserved, c`server, c`connected, c.sendPacket, c.recvPacket, fd0
    ensures Positioned(c, fd1, base, name, READING, got, remote)
    ensures fd0.content == Downloaded(remote, old(fd0.content))
  {
    var buffer := new byte[CHUNK](_ => 0);
    ghost var local := fd0.content;
    var size := size0;
    got := 0;
    assert Overwrite(local, 0, remote[..0]) == local;
    while size > 0
      invariant 0 <= got <= |remote| && fd0.pos == got
      invariant Positioned(c, fd1, base, name, READING, got, remote)
      invariant |remote| >= 0x8000_0000 ==> size == -1 && got == 0
      invariant |remote| < 0x8000_0000 ==> if size > 0 then got + size == |remote| else got == |remote|
      invariant fd0.content == Overwrite(local, 0, remote[..got])
    {
      ghost var b := Chunk(remote, got, CHUNK);
      ChunkNext(remote, got);
      OverwriteMore(local, remote[..got], b);
      FetchChunk(c, fd1, fd0, buffer, size, base, name, remote);
      got := got + |b|;
      size := size - CHUNK;
    }
    assert got == |remote| ==> remote[..got] == remote;
  }

  method Download(c: Client, src: seq<byte>, fd0: LocalFile) returns (ret: int)
    requires c.InSync() && ValidDisk(c.server.disk) && fd0.pos == 0
    modifies c`rx, c`unserved, c`server, c`connected, c.sendPacket, c.recvPacket, fd0
    ensures c.InSync() && ValidDisk(c.server.disk)
    ensures var d, name := old(c.server.disk), Name(src);
            if name in d.files && d.next < 0x8000_0000 then
              && ret == 0 && fd0.content == Downloaded(d.files[name], old(fd0.content))
              && c.server.disk == d.(next := d.next + 1)
            else ret == -1 && fd0.content == old(fd0.content) && c.server.disk == d
  {
    ghost var d, name := c.server.disk, Name(src);
    var fd1 := OpenRemote(c, src, O_RDONLY);
    if fd1 < 0 {
      return -1;
    }
    ghost var remote := Existing(d, name);
    var size := RemoteSize(c, fd1, d, name, remote);
    ghost var pos := DownloadLoop(c, fd1, fd0, size, d, name, remote);
    CloseRemote(c, fd1, d, name, READING, pos, remote);
    assert d.files[name := d.files[name]] == d.files;
    ret := 0;
  }

  // ---- One pass through the upload loop, against any peer ----

  /** The state of the upload loop: the position in the local file, the sum of the results, the connection. */
  datatype Progress = Progress(pos: nat, total: int, link: Connection)

  predicate Ready(u: Progress) {
    |u.link.buf| == PACKET_MAXSIZE
  }

  /** One pass. */
  function UploadStep(local: seq<byte>, broken: bool, fd: i32, u: Progress): (u': Progress)
    requires |u.link.buf| == PACKET_MAXSIZE
    ensures |u'.link.buf| == PACKET_MAXSIZE
  {
    var b := Chunk(local, u.pos, CHUNK);
    var (link, r) := Written(u.link, broken, fd, b);
    Progress(u.pos + |b|, u.total + r, link)
  }

  /** step is one pass, as a function on states. */
  ghost predicate IsPass(step: Progress -> Progress, local: seq<byte>, broken: bool, fd: i32) {
    forall u {:trigger Ready(u)} :: Ready(u) ==> step(u) == UploadStep(local, broken, fd, u)
  }

  /** There is such a function. */
  function PassFunction(local: seq<byte>, broken: bool, fd: i32): (step: Progress -> Progress)
    ensures IsPass(step, local, broken, fd)
  {
    u => if Ready(u) then UploadStep(local, broken, fd, u) else u
  }

  function Iterate<T>(f: T -> T, x: T, n: nat): T {
    if n == 0 then x else f(Iterate(f, x, n - 1))
  }

  predicate Going(local: seq<byte>, u: Progress) {
    u.total < ToI32(|local|) && u.link.connected
  }

  /** The loop goes through n passes from `start` on. */
  predicate Uploading(local: seq<byte>, step: Progress -> Progress, start: Progress, n: nat)
    decreases n
  {
    n == 0 || (Uploading(local, step, start, n - 1) && Going(local, Iterate(step, start, n - 1)))
  }

  /** And comes to u. */
  predicate Reached(local: seq<byte>, step: Progress -> Progress, start: Progress, n: nat, u: Progress) {
    Uploading(local, step, start, n) && u == Iterate(step, start, n)
  }

  /** Body of the loop: a chunk is read and sent, and whatever the write reports is added up. */
  method UploadPass(c: Client, fd0: LocalFile, fd1: i32, buffer: array<byte>, total: int) returns (next: int, ghost r: i32)
    requires c.Valid() && c.connected && buffer.Length == CHUNK
    requires buffer != c.sendPacket && buffer != c.recvPacket
    modifies c`rx, c`unserved, c`server, c`connected, c.sendPacket, c.recvPacket, fd0`pos, buffer
    ensures Progress(fd0.pos, next, c.View()) ==
            UploadStep(fd0.content, c.broken, fd1, Progress(old(fd0.pos), total, old(c.View())))
    ensures var b := Chunk(fd0.content, old(fd0.pos), CHUNK);
            && fd0.pos == old(fd0.pos) + |b| && next == total + r
            && (old(c.InSync()) ==> c.Refines(old(c.server).disk, r, Write(old(c.server).disk, fd1, b)))
  {
    var result := fd0.Read(buffer);
    result := c.ReqWrite(fd1, buffer[..result]);
    next := total + result;
    r := result;
  }

  /** The same; if `traced`, what the pass does is given by the function `step`. */
  method TracedPass(c: Client, fd0: LocalFile, fd1: i32, buffer: array<byte>, total: int, ghost local: seq<byte>,
                    ghost traced: bool, ghost step: Progress -> Progress) returns (next: int, ghost r: i32)
    requires c.Valid() && c.connected && buffer.Length == CHUNK
    requires buffer != c.sendPacket && buffer != c.recvPacket
    requires local == fd0.content && (traced ==> IsPass(step, local, c.broken, fd1))
    modifies c`rx, c`unserved, c`server, c`connected, c.sendPacket, c.recvPacket, fd0`pos, buffer
    ensures traced ==> Progress(fd0.pos, next, c.View()) == step(Progress(old(fd0.pos), total, old(c.View())))
    ensures var b := Chunk(local, old(fd0.pos), CHUNK);
            && fd0.pos == old(fd0.pos) + |b| && next == total + r
            && (old(c.InSync()) ==> c.Refines(old(c.server).disk, r, Write(old(c.server).disk, fd1, b)))
  {
    ghost var u := Progress(fd0.pos, total, c.View());
    ghost var v := UploadStep(local, c.broken, fd1, u);
    assert Ready(u);
    next, r := UploadPass(c, fd0, fd1, buffer, total);
    assert Progress(fd0.pos, next, c.View()) == v;
  }

  /** The loop against any peer, for at most `limit` passes: after a short or failed write it would not
      stop by itself. A reply of the wrong type closes the connection, and the next request never
      returns. */
  method UploadPasses(c: Client, fd0: LocalFile, fd1: i32, limit: nat, ghost step: Progress -> Progress)
      returns (total: int, ghost n: nat)
    requires c.Valid() && c.connected && fd0.pos == 0 && IsPass(step, fd0.content, c.broken, fd1)
    modifies c`rx, c`unserved, c`server, c`connected, c.sendPacket, c.recvPacket, fd0`pos
    ensures Reached(fd0.content, step, Progress(0, 0, old(c.View())), n, Progress(fd0.pos, total, c.View()))
    ensures n <= limit && (total >= ToI32(|fd0.content|) || !c.connected || n == limit)
  {
    var buffer := new byte[CHUNK](_ => 0);
    ghost var local, start := fd0.content, Progress(0, 0, c.View());
    var size := ToI32(|fd0.content|);
    var passes := 0;
    total, n := 0, 0;
    while total < size && passes < limit && c.connected
      invariant passes == n <= limit && Reached(local, step, start, n, Progress(fd0.pos, total, c.View()))
      decreases limit - passes
    {
      ghost var r;
      total, r := TracedPass(c, fd0, fd1, buffer, total, local, true, step);
      n := n + 1;
      passes := passes + 1;
    }
  }

  // ---- Upload ----

  /** Number of bytes the upload loop moves: the size is kept in an int, and whole chunks are read. */
  function Moved(n: nat): nat {
    var size := ToI32(n);
    if size <= 0 then 0 else if size == n then n else (size + CHUNK - 1) / CHUNK * CHUNK
  }

  /** All of a file is moved exactly if its size fits an int. */
  lemma MovedAllIff(n: nat)
    ensures Moved(n) <= n
    ensures Moved(n) == n <==> n < 0x8000_0000
  {
    var size: int := ToI32(n);
    if size > 0 && size != n {
      assert n >= size + 0x1_0000_0000;
    }
  }

  /** What the remote file holds afterwards. */
  function Uploaded(local: seq<byte>, remote: seq<byte>): seq<byte> {
    MovedAllIff(|local|);
    Overwrite(remote, 0, local[..Moved(|local|)])
  }

  /** A pass on the open file: the server takes the whole chunk. */
  method StoreChunk(c: Client, fd0: LocalFile, fd1: i32, buffer: array<byte>, total: int, ghost base: Disk,
                    ghost name: seq<byte>, ghost before: seq<byte>) returns (next: int)
    requires total == fd0.pos && Positioned(c, fd1, base, name, WRITING, fd0.pos, before)
    requires buffer.Length == CHUNK && buffer != c.sendPacket && buffer != c.recvPacket
    modifies c`rx, c`unserved, c`server, c`connected, c.sendPacket, c.recvPacket, fd0`pos, buffer
    ensures var b := Chunk(fd0.content, old(fd0.pos), CHUNK);
            && next == total + |b| == fd0.pos
            && Positioned(c, fd1, base, name, WRITING, fd0.pos, Overwrite(before, old(fd0.pos), b))
  {
    ghost var d, at, b := c.server.disk, fd0.pos, Chunk(fd0.content, fd0.pos, CHUNK);
    WritesOn(base, name, at, before, b);
    ghost var after := Opened(base, name, WRITING, at + |b|, Overwrite(before, at, b));
    assert Write(d, fd1, b) == (after, |b|);
    ghost var r;
    next, r := TracedPass(c, fd0, fd1, buffer, total, fd0.content, false, u => u);
    assert c.server == Files(after);
  }

  method UploadLoop(c: Client, fd0: LocalFile, fd1: i32, ghost base: Disk, ghost name: seq<byte>, ghost remote: seq<byte>)
      returns (ghost sent: nat)
    requires Positioned(c, fd1, base, name, WRITING, 0, remote) && fd0.pos == 0
    modifies c`rx, c`unserved, c`server, c`connected, c.sendPacket, c.recvPacket, fd0`pos
    ensures Positioned(c, fd1, base, name, WRITING, sent, Uploaded(fd0.content, remote))
  {
    var buffer := new byte[CHUNK](_ => 0);
    ghost var local := fd0.content;
    var size := ToI32(|fd0.content|);
    var total: int := 0;
    MovedAllIff(|local|);
    assert Overwrite(remote, 0, local[..0]) == remote;
    while total < size
      invariant 0 <= total <= Moved(|local|) && fd0.pos == total
      invariant total == |local| || total % CHUNK == 0
      invariant Positioned(c, fd1, base, name, WRITING, total, Overwrite(remote, 0, local[..total]))
      decreases size - total
    {
      ChunkNext(local, total);
      MovedChunk(|local|, total);
      OverwriteMore(remote, local[..total], Chunk(local, total, CHUNK));
      total := StoreChunk(c, fd0, fd1, buffer, total, base, name, Overwrite(remote, 0, local[..total]));
    }
    MovedEnd(|local|, total);
    sent := total;
  }

  method Upload(c: Client, fd0: LocalFile, dst: seq<byte>) returns (ret: int)
    requires c.InSync() && ValidDisk(c.server.disk) && fd0.pos == 0
    modifies c`rx, c`unserved, c`server, c`connected, c.sendPacket, c.recvPacket, fd0`pos
    ensures c.InSync() && ValidDisk(c.server.disk)
    ensures var d, name := old(c.server.disk), Name(dst);
            if d.next < 0x8000_0000 then
              ret == 0 && c.server.disk == Closed(d, name, Uploaded(fd0.content, Existing(d, name)))
            else ret == -1 && c.server.disk == d
  {
    ghost var d, name := c.server.disk, Name(dst);
    var fd1 := OpenRemote(c, dst, O_WRONLY + O_CREAT);
    if fd1 < 0 {
      return -1;
    }
    ghost var sent := UploadLoop(c, fd0, fd1, d, name, Existing(d, name));
    CloseRemote(c, fd1, d, name, WRITING, sent, Uploaded(fd0.content, Existing(d, name)));
    ret := 0;
  }

  lemma MovedChunk(n: nat, total: nat)
    requires total < ToI32(n) && (total == n || total % CHUNK == 0)
    ensures var b := if n - total < CHUNK then n - total else CHUNK;
            b > 0 && total + b <= Moved(n) && (total + b == n || (total + b) % CHUNK == 0)
  {
  }

  lemma MovedEnd(n: nat, total: nat)
    requires ToI32(n) <= total <= Moved(n) && (total == n || total % CHUNK == 0)
    ensures total == Moved(n)
  {
  }

  // ---- End to end ----

  /** Two copies over one connection, through the framed stream: a file is uploaded, and what it was
      uploaded to is downloaded into a fresh file. For every length an int can hold, 0 and exact
      multiples of a chunk included, both succeed, and the fresh file equals the original if and only
      if the target was not longer before. */
  method UploadThenDownload(c: Client, original: LocalFile, path: seq<byte>, copy: LocalFile) returns (up: int, down: int)
    requires c.InSync() && ValidDisk(c.server.disk) && c.server.disk.next + 1 < 0x8000_0000
    requires original != copy && original.pos == 0 && copy.pos == 0 && copy.content == []
    requires |original.content| < 0x8000_0000
    modifies c`rx, c`unserved, c`server, c`connected, c.sendPacket, c.recvPacket, original`pos, copy
    ensures up == 0 && down == 0 && c.InSync()
    ensures var d, name := old(c.server.disk), Name(path);
            var target := Uploaded(original.content, Existing(d, name));
            && c.server.disk == Closed(d, name, target).(next := d.next + 2)
            && copy.content == Downloaded(target, [])
            && (|Existing(d, name)| < 0x8000_0000 ==>
                  (copy.content == original.content <==> |Existing(d, name)| <= |original.content|))
  {
    ghost var before := Existing(c.server.disk, Name(path));
    up := Upload(c, original, path);
    down := Download(c, path, copy);
    CopiesDoNotTruncate(original.content, before, []);
  }

  /** In general what was there beyond the end of the source survives in both copies. */
  lemma CopiesDoNotTruncate(local: seq<byte>, remote: seq<byte>, target: seq<byte>)
    requires |local| < 0x8000_0000
    ensures var r := local + if |local| < |remote| then remote[|local|..] else [];
            && Uploaded(local, remote) == r
            && Downloaded(r, target) ==
                 if |r| >= 0x8000_0000 then target else r + if |r| < |target| then target[|r|..] else []
  {
    MovedAllIff(|local|);
    assert local[..|local|] == local;
  }
}
