/**
 The far end of a ps2netfs connection. The server is not part of the repository; this one reads
 the request bytes by the packet layouts of linkproto_core.h. It serves every request in full, except
 that it may serve only part of a read or write, and then says so. A file is read and written only as far as
 the mode it was opened with allows, and emptied if the mode asks for that.
*/
module FileServer {
  import opened Bytes
  import opened NetFs

  datatype Handle = Handle(path: seq<byte>, mode: i32, pos: nat)

  datatype Disk = Disk(files: map<seq<byte>, seq<byte>>, handles: map<int, Handle>, next: nat)

  /** Every open handle belongs to an existing file and an old descriptor. */
  predicate ValidDisk(d: Disk) {
    forall fd :: fd in d.handles ==> fd < d.next && d.handles[fd].path in d.files
  }

  // ---- Serving one request ----

  predicate HasMode(mode: i32, bit: i32)
    requires bit > 0
  {
    ToU32(mode) / bit % 2 == 1
  }

  predicate Creates(mode: i32) {
    HasMode(mode, O_CREAT)
  }

  /** The result of every operation is paired with the new disk. */
  function Open(d: Disk, path: seq<byte>, mode: i32): (Disk, i32) {
    if d.next >= 0x8000_0000 || (path !in d.files && !Creates(mode)) then (d, -1 as i32)
    else
      (Disk(if path in d.files && !HasMode(mode, O_TRUNC) then d.files else d.files[path := []],
            d.handles[d.next := Handle(path, mode, 0)], d.next + 1), d.next as i32)
  }

  function Close(d: Disk, fd: int): (Disk, i32) {
    if fd in d.handles then (d.(handles := d.handles - {fd}), 0) else (d, -1)
  }

  function Lseek(d: Disk, fd: int, offset: int, whence: int): (Disk, i32) {
    if fd !in d.handles || d.handles[fd].path !in d.files then (d, -1)
    else
      var h := d.handles[fd];
      var base := if whence == SEEK_SET then 0 else if whence == SEEK_END then |d.files[h.path]| else h.pos;
      var at := base + offset;
      if 0 <= at < 0x8000_0000 then (d.(handles := d.handles[fd := h.(pos := at)]), at) else (d, -1)
  }

  /** The n bytes of f from `at`, or as many as there are. */
  function Chunk(f: seq<byte>, at: nat, n: nat): (b: seq<byte>)
    ensures |b| <= n
  {
    if at >= |f| then [] else if at + n <= |f| then f[at..at + n] else f[at..]
  }

  function Read(d: Disk, fd: int, n: int): (Disk, i32, seq<byte>)
    requires n < 0x8000_0000
  {
    if fd !in d.handles || d.handles[fd].path !in d.files || !HasMode(d.handles[fd].mode, O_RDONLY) || n < 0 then (d, -1, [])
    else
      var h := d.handles[fd];
      var b := Chunk(d.files[h.path], h.pos, n);
      (d.(handles := d.handles[fd := h.(pos := h.pos + |b|)]), |b|, b)
  }

  /** f with b written at `at`, extended as far as necessary. */
  function Overwrite(f: seq<byte>, at: nat, b: seq<byte>): seq<byte> {
    (if at <= |f| then f[..at] else f + seq(at - |f|, _ => 0))
    + b
    + if at + |b| <= |f| then f[at + |b|..] else []
  }

  function Write(d: Disk, fd: int, b: seq<byte>): (Disk, i32)
    requires |b| < 0x8000_0000
  {
    if fd !in d.handles || d.handles[fd].path !in d.files || !HasMode(d.handles[fd].mode, O_WRONLY) then (d, -1)
    else
      var h := d.handles[fd];
      (d.(files := d.files[h.path := Overwrite(d.files[h.path], h.pos, b)],
          handles := d.handles[fd := h.(pos := h.pos + |b|)]), |b|)
  }

  /** Enough for every request. */
  const ALL: i32 := 0x7FFF_FFFF

  /** The first `most` bytes of b; nothing if most is negative. */
  function Part(b: seq<byte>, most: int): (t: seq<byte>)
    ensures t <= b && (|b| <= most ==> t == b)
  {
    if most < 0 then [] else if |b| <= most then b else b[..most]
  }

  /** A write of which at most `most` bytes are stored; it is refused if most is negative. */
  function WritePart(d: Disk, fd: int, b: seq<byte>, most: int): (Disk, i32)
    requires |b| < 0x8000_0000
  {
    if most < 0 then (d, -1) else Write(d, fd, Part(b, most))
  }

  /** A read that yields at most `most` bytes; it is refused if most is negative. */
  function ReadPart(d: Disk, fd: int, n: int, most: int): (Disk, i32, seq<byte>)
    requires n < 0x8000_0000
  {
    if most < 0 then (d, -1, []) else Read(d, fd, if n <= most then n else most)
  }

  // ---- Requests and replies as bytes ----

  function Head(kind: u32, len: u16): (b: seq<byte>)
    ensures |b| == HDR
  {
    PutBE32(kind) + PutBE16(len)
  }

  /** strncpy into a field of MAX_PATH bytes. */
  function PathField(path: seq<byte>): (b: seq<byte>)
    ensures |b| == MAX_PATH
  {
    if |path| >= MAX_PATH then path[..MAX_PATH] else path + seq(MAX_PATH - |path|, _ => 0)
  }

  function UpToNul(b: seq<byte>): seq<byte> {
    if b == [] || b[0] == 0 then [] else [b[0]] + UpToNul(b[1..])
  }

  /** The name the server sees: the path field up to its first NUL. */
  function Name(path: seq<byte>): seq<byte> {
    UpToNul(PathField(path))
  }

  function FileRequest(kind: u32, flags: seq<byte>, path: seq<byte>): (b: seq<byte>)
    requires |flags| == 4
    ensures |b| == FILE_REQ
  {
    Head(kind, FILE_REQ) + flags + PathField(path)
  }

  function CloseRequest(kind: u32, fd: int): (b: seq<byte>)
    ensures |b| == CLOSE_REQ
  {
    Head(kind, CLOSE_REQ) + PutInt32(fd)
  }

  function TransferRequest(kind: u32, fd: int, n: int): (b: seq<byte>)
    ensures |b| == READ_REQ
  {
    Head(kind, READ_REQ) + PutInt32(fd) + PutInt32(n)
  }

  function LseekRequest(fd: int, offset: int, whence: int): (b: seq<byte>)
    ensures |b| == LSEEK_REQ
  {
    Head(LSEEK_CMD, LSEEK_REQ) + PutInt32(fd) + PutInt32(offset) + PutInt32(whence)
  }

  function FileReply(kind: u32, retval: i32): (b: seq<byte>)
    ensures |b| == FILE_RLY
  {
    Head(kind, FILE_RLY) + PutInt32(retval)
  }

  function ReadReply(retval: i32): (b: seq<byte>)
    ensures |b| == READ_REQ
  {
    Head(READ_RLY, READ_REQ) + PutInt32(retval) + PutInt32(retval)
  }

  // ---- The server as a reader of bytes ----

  /** The outcome of the first request in p: the disk, what is left of p, and the reply. */
  datatype Served = Wait | Served(disk: Disk, rest: seq<byte>, reply: seq<byte>)

  /** `most` bounds what is read or stored, if the request is a read or a write. */
  function Serve(d: Disk, p: seq<byte>, most: int): Served {
    if |p| < HDR || |p| < LengthOf(p) then Wait
    else
      var kind, n := KindOf(p), LengthOf(p);
      if kind == OPEN_CMD && n == FILE_REQ then
        var (d', r) := Open(d, UpToNul(p[HDR + 4..FILE_REQ]), Int32At(p, HDR));
        Served(d', p[n..], FileReply(OPEN_RLY, r))
      else if kind == CLOSE_CMD && n == CLOSE_REQ then
        var (d', r) := Close(d, Int32At(p, HDR));
        Served(d', p[n..], FileReply(CLOSE_RLY, r))
      else if kind == LSEEK_CMD && n == LSEEK_REQ then
        var (d', r) := Lseek(d, Int32At(p, HDR), Int32At(p, HDR + 4), Int32At(p, HDR + 8));
        Served(d', p[n..], FileReply(LSEEK_RLY, r))
      else if kind == READ_CMD && n == READ_REQ then
        var (d', r, b) := ReadPart(d, Int32At(p, HDR), Int32At(p, HDR + 4), most);
        Served(d', p[n..], ReadReply(r) + b)
      else if kind == WRITE_CMD && n == READ_REQ then
        var m := Int32At(p, HDR + 4);
        if m < 0 then Served(d, p[n..], FileReply(WRITE_RLY, -1))
        else if |p| < n + m then Wait
        else
          var (d', r) := WritePart(d, Int32At(p, HDR), p[n..n + m], most);
          Served(d', p[n + m..], FileReply(WRITE_RLY, r))
      else Wait
  }

  lemma HeadFields(p: seq<byte>, kind: u32, len: u16, body: seq<byte>)
    requires p == Head(kind, len) + body
    ensures |p| >= HDR && KindOf(p) == kind && LengthOf(p) == len
  {
    BE32RoundTrip(kind);
    BE16RoundTrip(len);
    assert forall i :: 0 <= i < 4 ==> p[i] == PutBE32(kind)[i];
    assert forall i :: 0 <= i < 2 ==> p[4..][i] == PutBE16(len)[i];
  }

  /** The server recovers the operation from the bytes of each request. */
  lemma ServeOpen(d: Disk, path: seq<byte>, mode: i32, most: int)
    ensures Serve(d, FileRequest(OPEN_CMD, PutInt32(mode), path), most) ==
            Served(Open(d, Name(path), mode).0, [], FileReply(OPEN_RLY, Open(d, Name(path), mode).1))
  {
    var p := FileRequest(OPEN_CMD, PutInt32(mode), path);
    assert p == Head(OPEN_CMD, FILE_REQ) + (PutInt32(mode) + PathField(path));
    HeadFields(p, OPEN_CMD, FILE_REQ, PutInt32(mode) + PathField(path));
    Int32RoundTrip(p, HDR, mode);
    assert p[HDR + 4..FILE_REQ] == PathField(path);
  }

  lemma ServeClose(d: Disk, fd: i32, most: int)
    ensures Serve(d, CloseRequest(CLOSE_CMD, fd), most) == Served(Close(d, fd).0, [], FileReply(CLOSE_RLY, Close(d, fd).1))
  {
    var p := CloseRequest(CLOSE_CMD, fd);
    HeadFields(p, CLOSE_CMD, CLOSE_REQ, PutInt32(fd));
    Int32RoundTrip(p, HDR, fd);
  }

  lemma ServeLseek(d: Disk, fd: i32, offset: i32, whence: i32, most: int)
    ensures Serve(d, LseekRequest(fd, offset, whence), most) ==
            Served(Lseek(d, fd, offset, whence).0, [], FileReply(LSEEK_RLY, Lseek(d, fd, offset, whence).1))
  {
    var p := LseekRequest(fd, offset, whence);
    assert p == Head(LSEEK_CMD, LSEEK_REQ) + (PutInt32(fd) + PutInt32(offset) + PutInt32(whence));
    HeadFields(p, LSEEK_CMD, LSEEK_REQ, PutInt32(fd) + PutInt32(offset) + PutInt32(whence));
    Int32RoundTrip(p, HDR, fd);
    Int32RoundTrip(p, HDR + 4, offset);
    Int32RoundTrip(p, HDR + 8, whence);
  }

  lemma TransferFields(kind: u32, fd: i32, n: i32, data: seq<byte>)
    ensures var p := TransferRequest(kind, fd, n) + data;
            && KindOf(p) == kind && LengthOf(p) == READ_REQ
            && Int32At(p, HDR) == fd && Int32At(p, HDR + 4) == n
            && p[READ_REQ..] == data
  {
    var p := TransferRequest(kind, fd, n) + data;
    assert p == Head(kind, READ_REQ) + (PutInt32(fd) + PutInt32(n) + data);
    HeadFields(p, kind, READ_REQ, PutInt32(fd) + PutInt32(n) + data);
    Int32RoundTrip(p, HDR, fd);
    Int32RoundTrip(p, HDR + 4, n);
  }

  lemma ServeRead(d: Disk, fd: i32, n: i32, most: int)
    ensures var (d', r, b) := ReadPart(d, fd, n, most);
            Serve(d, TransferRequest(READ_CMD, fd, n), most) == Served(d', [], ReadReply(r) + b)
  {
    TransferFields(READ_CMD, fd, n, []);
    assert TransferRequest(READ_CMD, fd, n) + [] == TransferRequest(READ_CMD, fd, n);
  }

  /** A write is served once its data is there too. */
  lemma ServeWrite(d: Disk, fd: i32, data: seq<byte>, most: int)
    requires |data| < 0x8000_0000
    ensures var (d', r) := WritePart(d, fd, data, most);
            && Serve(d, TransferRequest(WRITE_CMD, fd, |data|) + data, most) == Served(d', [], FileReply(WRITE_RLY, r))
            && (data != [] ==> Serve(d, TransferRequest(WRITE_CMD, fd, |data|), most) == Wait)
  {
    TransferFields(WRITE_CMD, fd, |data|, data);
    TransferFields(WRITE_CMD, fd, |data|, []);
    var h := TransferRequest(WRITE_CMD, fd, |data|);
    assert h + [] == h;
    assert (h + data)[READ_REQ..READ_REQ + |data|] == data;
  }
}
