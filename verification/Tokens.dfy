/**
 The two tokenisers (common.c). fix_cmd_arg packs the tokens of a command line into one buffer, each
 ended by a NUL and with host: in front of the names of files; build_argv makes an array of strings.
 They split the same line with different loops.
*/
module Tokens {
  import opened Lists
  import opened Strings
  import Paths

  const MAX_ARGV: nat := 256

  /** Where the word at position i ends. */
  function WordEnd(s: string, i: nat): (e: nat)
    requires i <= |s|
    ensures i <= e <= |s| && (forall k :: i <= k < e ==> s[k] != ' ') && (e < |s| ==> s[e] == ' ')
    decreases |s| - i
  {
    if i == |s| || s[i] == ' ' then i else WordEnd(s, i + 1)
  }

  /** Where the next word starts. */
  function SkipSpaces(s: string, i: nat): (n: nat)
    requires i <= |s|
    ensures i <= n <= |s| && (forall k :: i <= k < n ==> s[k] == ' ') && (n < |s| ==> s[n] != ' ')
  {
    SkipBlanks(s, false, i)
  }

  /** The tokens fix_cmd_arg cuts from position pi on. Each one starts at ai, just behind the space that
      ended the one before, so further spaces in between become part of it. */
  function FixTokens(cmd: string, ai: nat, pi: nat): (ts: seq<string>)
    requires pi <= |cmd| && (pi < |cmd| ==> ai <= pi)
    decreases |cmd| - pi
  {
    if pi == |cmd| then [] else
      var e := WordEnd(cmd, pi);
      [cmd[ai..e]] + FixTokens(cmd, e + 1, SkipSpaces(cmd, e))
  }

  /** The words build_argv cuts from position `at` on. */
  function Words(s: string, at: nat): seq<string>
    requires at <= |s|
    decreases |s| - at
  {
    if at == |s| then [] else
      var e := WordEnd(s, at);
      [s[at..e]] + Words(s, SkipSpaces(s, e))
  }

  /** The strings with a single space between each two. */
  function Join(ts: seq<string>): string {
    if ts == [] then "" else JoinOn(ts[0], ts[1..])
  }

  function JoinOn(t: string, rest: seq<string>): string
    decreases |rest|
  {
    if rest == [] then t else t + " " + JoinOn(rest[0], rest[1..])
  }

  /** host: goes in front of a token that names a file and no device. */
  function FixArg(arg: string, isFile: string -> bool): string {
    if isFile(arg) && Paths.DeviceCheck(arg) == 0 then Paths.HOST + arg else arg
  }

  function FixArgs(ts: seq<string>, isFile: string -> bool): (fs: seq<string>)
    ensures |fs| == |ts| && forall i :: 0 <= i < |ts| ==> fs[i] == FixArg(ts[i], isFile)
  {
    if ts == [] then [] else [FixArg(ts[0], isFile)] + FixArgs(ts[1..], isFile)
  }

  /** Strings laid out one behind the other, each with its terminator. */
  function Pack(ts: seq<string>): string {
    if ts == [] then "" else ts[0] + [NUL] + Pack(ts[1..])
  }

  /** The strings laid out in a buffer. */
  function Unpack(buf: string): seq<string>
    decreases |buf|
  {
    if buf == "" then []
    else
      var t := Text(buf);
      if t == buf then [t] else [t] + Unpack(buf[|t| + 1..])
  }

  /** The loop both tokenisers run over a word. */
  method ScanWord(s: string, at: nat) returns (e: nat)
    requires at <= |s|
    ensures e == WordEnd(s, at)
  {
    e := at;
    while e < |s| && s[e] != ' '
      invariant at <= e <= |s| && WordEnd(s, e) == WordEnd(s, at)
    {
      e := e + 1;
    }
  }

  /** The loop both tokenisers run over the spaces behind a word. */
  method ScanSpaces(s: string, at: nat) returns (e: nat)
    requires at <= |s|
    ensures e == SkipSpaces(s, at)
  {
    e := at;
    while e < |s| && s[e] == ' '
      invariant at <= e <= |s| && SkipSpaces(s, e) == SkipSpaces(s, at)
    {
      e := e + 1;
    }
  }

  // ---- fix_cmd_arg ----

  /** The characters of s stand in the buffer from `at` on. */
  ghost predicate Laid(argv: array<char>, at: nat, s: string)
    reads argv
  {
    at + |s| <= argv.Length && forall k :: at <= k < at + |s| ==> argv[k] == s[k - at]
  }

  lemma LaidAppend(argv: array<char>, s: string, t: string)
    requires Laid(argv, 0, s) && Laid(argv, |s|, t)
    ensures Laid(argv, 0, s + t)
  {
  }

  /** memcpy of a string into the buffer. */
  method Copy(argv: array<char>, at: nat, s: string)
    requires at + |s| <= argv.Length
    modifies argv
    ensures Laid(argv, at, s)
    ensures forall k :: 0 <= k < argv.Length && !(at <= k < at + |s|) ==> argv[k] == old(argv[k])
  {
    var i := 0;
    while i < |s|
      invariant i <= |s|
      invariant forall k :: at <= k < at + i ==> argv[k] == s[k - at]
      invariant forall k :: 0 <= k < argv.Length && !(at <= k < at + i) ==> argv[k] == old(argv[k])
    {
      argv[at + i] := s[i];
      i := i + 1;
    }
  }

  /** A file argument, prefixed if it names no device. */
  method PutFile(argv: array<char>, ac: nat, arg: string) returns (next: nat)
    requires ac + |arg| + 5 <= argv.Length || (Paths.DeviceCheck(arg) == 1 && ac + |arg| <= argv.Length)
    modifies argv
    ensures var s := if Paths.DeviceCheck(arg) == 0 then Paths.HOST + arg else arg;
            next == ac + |s| && Laid(argv, ac, s)
    ensures forall k :: 0 <= k < argv.Length && !(ac <= k < next) ==> argv[k] == old(argv[k])
  {
    if Paths.DeviceCheck(arg) == 0 {
      Copy(argv, ac, Paths.HOST);
      Copy(argv, ac + 5, arg);
      next := ac + |arg| + 5;
    } else {
      Copy(argv, ac, arg);
      next := ac + |arg|;
    }
  }

  /** Body of the outer loop: appends one argument and its terminator. */
  method PutArg(argv: array<char>, ac: nat, arg: string, isFile: string -> bool) returns (next: nat)
    requires ac + |FixArg(arg, isFile)| < argv.Length
    modifies argv
    ensures next == ac + |FixArg(arg, isFile)| + 1 && Laid(argv, ac, FixArg(arg, isFile) + [NUL])
    ensures forall k :: 0 <= k < argv.Length && !(ac <= k < next) ==> argv[k] == old(argv[k])
  {
    if isFile(arg) {
      next := PutFile(argv, ac, arg);
    } else {
      Copy(argv, ac, arg);
      next := ac + |arg|;
    }
    assert Laid(argv, ac, FixArg(arg, isFile));
    argv[next] := NUL;
    next := next + 1;
  }

  /** One round of the outer loop: the word at pi ends the next token. */
  method NextArg(argv: array<char>, cmd: string, ai: nat, pi: nat, ac: nat, isFile: string -> bool)
      returns (ai': nat, pi': nat, ac': nat)
    requires ai <= pi < |cmd|
    requires var t := FixTokens(cmd, ai, pi)[0]; |t| < MAXPATHLEN && ac + |FixArg(t, isFile)| < argv.Length
    modifies argv
    ensures pi < pi' <= |cmd| && (pi' < |cmd| ==> ai' <= pi')
    ensures FixTokens(cmd, ai, pi)[1..] == FixTokens(cmd, ai', pi')
    ensures var f := FixArg(FixTokens(cmd, ai, pi)[0], isFile); ac' == ac + |f| + 1 && Laid(argv, ac, f + [NUL])
    ensures forall k :: 0 <= k < argv.Length && !(ac <= k < ac') ==> argv[k] == old(argv[k])
  {
    var end := ScanWord(cmd, pi);
    ac' := PutArg(argv, ac, cmd[ai..end], isFile);
    ai' := end + 1;
    pi' := ScanSpaces(cmd, end);
  }

  /** fix_cmd_arg. Each token has to fit the local buffer, and all of them argv. */
  method FixCmdArg(argv: array<char>, cmd: string, isFile: string -> bool) returns (argc: nat, argvlen: nat)
    requires NUL !in cmd && |Pack(FixArgs(FixTokens(cmd, 0, 0), isFile))| <= argv.Length
    requires Short(FixTokens(cmd, 0, 0))
    modifies argv
    ensures argc == |FixTokens(cmd, 0, 0)|
    ensures argvlen <= argv.Length && argv[..argvlen] == Pack(FixArgs(FixTokens(cmd, 0, 0), isFile))
    ensures var ts, us := FixTokens(cmd, 0, 0), Unpack(argv[..argvlen]);
            && |us| == |ts|
            && forall i :: 0 <= i < |ts| ==> us[i] == if isFile(ts[i]) && ':' !in ts[i] then "host:" + ts[i] else ts[i]
    ensures argvlen == if cmd == "" then 0 else |RTrim(cmd, false)| + 1 + 5 * Prefixes(FixTokens(cmd, 0, 0), isFile)
    ensures forall k :: argvlen <= k < argv.Length ==> argv[k] == old(argv[k])
  {
    ghost var all := FixTokens(cmd, 0, 0);
    ghost var packed := "";
    var ai: nat, pi: nat, ac: nat := 0, 0, 0;
    argc := 0;
    while pi < |cmd|
      invariant pi <= |cmd| && (pi < |cmd| ==> ai <= pi)
      invariant argc + |FixTokens(cmd, ai, pi)| == |all| && Short(FixTokens(cmd, ai, pi))
      invariant packed + Pack(FixArgs(FixTokens(cmd, ai, pi), isFile)) == Pack(FixArgs(all, isFile))
      invariant ac == |packed| && Laid(argv, 0, packed)
      invariant forall k :: ac <= k < argv.Length ==> argv[k] == old(argv[k])
      decreases |cmd| - pi
    {
      ghost var ts := FixTokens(cmd, ai, pi);
      ghost var f := FixArg(ts[0], isFile) + [NUL];
      PackStep(packed, ts, isFile);
      ai, pi, ac := NextArg(argv, cmd, ai, pi, ac, isFile);
      LaidAppend(argv, packed, f);
      packed := packed + f;
      argc := argc + 1;
    }
    argvlen := ac;
    assert argv[..argvlen] == packed;
    PackedTokensUnpack(cmd, isFile);
    PackedLength(cmd, isFile);
  }

  ghost predicate Short(ts: seq<string>) {
    forall i :: 0 <= i < |ts| ==> |ts[i]| < MAXPATHLEN
  }

  lemma PackStep(packed: string, ts: seq<string>, isFile: string -> bool)
    requires ts != []
    ensures packed + Pack(FixArgs(ts, isFile)) == packed + (FixArg(ts[0], isFile) + [NUL]) + Pack(FixArgs(ts[1..], isFile))
    ensures Short(ts) ==> Short(ts[1..])
  {
    assert FixArgs(ts, isFile)[1..] == FixArgs(ts[1..], isFile);
  }

  // ---- build_argv ----

  /** The result of build_argv for a line of n words: one too many when the loop runs off its end. */
  function ArgvCount(n: nat): nat {
    if n <= MAX_ARGV then n else MAX_ARGV + 1
  }

  /** build_argv */
  method BuildArgv(argv: array<Option<string>>, arg: Option<string>) returns (r: nat)
    requires 1 <= argv.Length && (arg.Some? ==> |Words(arg.value, 0)| <= argv.Length || MAX_ARGV <= argv.Length)
    modifies argv
    ensures var words := if arg.None? then [] else Words(arg.value, 0);
            && r == ArgvCount(|words|)
            && (words == [] ==> argv[0] == None)
            && (forall i :: 0 <= i < |words| && i < MAX_ARGV ==> argv[i] == Some(words[i]))
            && (forall i :: (if words == [] then 1 else if |words| <= MAX_ARGV then |words| else MAX_ARGV) <= i < argv.Length ==> argv[i] == old(argv[i]))
  {
    if arg.None? || arg.value == "" {
      argv[0] := None;
      return 0;
    }
    var s := arg.value;
    ghost var words := Words(s, 0);
    var i, at := 0, 0;
    while i < MAX_ARGV
      invariant i <= MAX_ARGV && i < |words| && at < |s| && words[i..] == Words(s, at)
      invariant forall j :: 0 <= j < i ==> j < argv.Length && argv[j] == Some(words[j])
      invariant forall j :: i <= j < argv.Length ==> argv[j] == old(argv[j])
    {
      var next;
      next := TakeWord(argv, i, s, at);
      assert words[i..][0] == words[i] && words[i..][1..] == words[i + 1..];
      at := next;
      if at == |s| {
        break;
      }
      i := i + 1;
    }
    r := i + 1;
  }

  /** Body of the loop: one word, and the spaces behind it. */
  method TakeWord(argv: array<Option<string>>, i: nat, s: string, at: nat) returns (next: nat)
    requires i < argv.Length && at < |s|
    modifies argv
    ensures at < next <= |s| && argv[..] == old(argv[..])[i := argv[i]]
    ensures argv[i].Some? && Words(s, at) == [argv[i].value] + Words(s, next)
  {
    var ai := ScanWord(s, at);
    argv[i] := Some(s[at..ai]);
    next := ScanSpaces(s, ai);
  }

  // ---- What the tokens are ----

  /** Where the line ends without its trailing spaces. */
  function End(cmd: string): (k: nat)
    ensures k <= |cmd| && RTrim(cmd, false) == cmd[..k]
    ensures (forall i :: k <= i < |cmd| ==> cmd[i] == ' ') && (0 < k ==> cmd[k - 1] != ' ')
  {
    DropBlanks(cmd, false, |cmd|)
  }

  /** Where a token may start: behind the previous one, with only spaces up to the next word. */
  ghost predicate AtToken(cmd: string, ai: nat, pi: nat) {
    ai <= pi < |cmd| && (forall k :: ai <= k < pi ==> cmd[k] == ' ') && (cmd[pi] != ' ' || pi == 0)
  }

  lemma NextToken(cmd: string, ai: nat, pi: nat)
    requires AtToken(cmd, ai, pi)
    ensures var e := WordEnd(cmd, pi); var n := SkipSpaces(cmd, e);
            if n == |cmd| then End(cmd) == e else e < n < End(cmd) && AtToken(cmd, e + 1, n) && cmd[n] != ' '
  {
    var e, k := WordEnd(cmd, pi), End(cmd);
    if SkipSpaces(cmd, e) == |cmd| {
      assert k <= e;
      assert 0 < e ==> cmd[e - 1] != ' ';
    }
  }

  lemma TokensStep(cmd: string, ai: nat, pi: nat)
    requires ai <= pi < |cmd|
    ensures var e := WordEnd(cmd, pi);
            && FixTokens(cmd, ai, pi) != [] && FixTokens(cmd, ai, pi)[0] == cmd[ai..e]
            && FixTokens(cmd, ai, pi)[1..] == FixTokens(cmd, e + 1, SkipSpaces(cmd, e))
  {
  }

  lemma CutAtSpace(cmd: string, ai: nat, e: nat, k: nat)
    requires ai <= e < k <= |cmd| && cmd[e] == ' '
    ensures cmd[ai..k] == cmd[ai..e] + " " + cmd[e + 1..k]
  {
  }

  lemma {:induction false} JoinFrom(cmd: string, ai: nat, pi: nat, ts: seq<string>)
    requires AtToken(cmd, ai, pi) && ts == FixTokens(cmd, ai, pi)
    ensures ts != [] && ai <= End(cmd) && JoinOn(ts[0], ts[1..]) == cmd[ai..End(cmd)]
    decreases |cmd| - pi
  {
    var e, k := WordEnd(cmd, pi), End(cmd);
    var n := SkipSpaces(cmd, e);
    var rest := FixTokens(cmd, e + 1, n);
    TokensStep(cmd, ai, pi);
    NextToken(cmd, ai, pi);
    if n < |cmd| {
      JoinFrom(cmd, e + 1, n, rest);
      CutAtSpace(cmd, ai, e, k);
    }
  }

  /** Joined by single spaces the tokens are the line without the spaces at its end: further spaces
      are not lost, they stand at the start of the next token. */
  lemma TokensJoin(cmd: string)
    ensures Join(FixTokens(cmd, 0, 0)) == RTrim(cmd, false)
    ensures FixTokens(cmd, 0, 0) == [] <==> cmd == ""
  {
    if cmd != "" {
      JoinFrom(cmd, 0, 0, FixTokens(cmd, 0, 0));
    }
  }

  /** A token after the first: any spaces, then a word. */
  ghost predicate Spaced(t: string) {
    var m := SkipSpaces(t, 0);
    m < |t| && forall i :: m <= i < |t| ==> t[i] != ' '
  }

  ghost predicate AllSpaced(ts: seq<string>) {
    ts == [] || (Spaced(ts[0]) && AllSpaced(ts[1..]))
  }

  /** The first token has no spaces at all; it is empty if the line starts with one. */
  ghost predicate Shaped(ts: seq<string>) {
    ts != [] && ' ' !in ts[0] && AllSpaced(ts[1..])
  }

  lemma TokenIsSpaced(cmd: string, ai: nat, pi: nat)
    requires AtToken(cmd, ai, pi) && cmd[pi] != ' '
    ensures Spaced(cmd[ai..WordEnd(cmd, pi)])
  {
    var t := cmd[ai..WordEnd(cmd, pi)];
    assert forall i :: 0 <= i < |t| ==> t[i] == cmd[ai + i];
    assert t[pi - ai] == cmd[pi];
  }

  lemma {:induction false} TailShaped(cmd: string, ai: nat, pi: nat, ts: seq<string>)
    requires AtToken(cmd, ai, pi) && cmd[pi] != ' ' && ts == FixTokens(cmd, ai, pi)
    ensures AllSpaced(ts)
    decreases |cmd| - pi
  {
    var e := WordEnd(cmd, pi);
    var n := SkipSpaces(cmd, e);
    TokenIsSpaced(cmd, ai, pi);
    TokensStep(cmd, ai, pi);
    NextToken(cmd, ai, pi);
    if n < |cmd| {
      TailShaped(cmd, e + 1, n, ts[1..]);
    }
  }

  lemma JoinStarts(t: string, rest: seq<string>)
    ensures t <= JoinOn(t, rest) && (rest != [] ==> |t| < |JoinOn(t, rest)| && JoinOn(t, rest)[|t|] == ' ')
    ensures rest == [] ==> t == JoinOn(t, rest)
  {
  }

  ghost predicate MayStart(t: string, first: bool) {
    if first then ' ' !in t else Spaced(t)
  }

  /** A head cannot be a proper prefix of another: that one would have to go on with a space. */
  lemma NoLongerHead(t: string, t': string, first: bool)
    requires MayStart(t, first) && MayStart(t', first) && t <= t' && |t| < |t'|
    ensures t'[|t|] != ' '
  {
    var m := SkipSpaces(t, 0);
    assert !first ==> t'[m] == t[m];
  }

  lemma SameHead(t: string, rest: seq<string>, t': string, rest': seq<string>, first: bool)
    requires MayStart(t, first) && MayStart(t', first) && JoinOn(t, rest) == JoinOn(t', rest')
    ensures t == t'
  {
    var u := JoinOn(t, rest);
    JoinStarts(t, rest);
    JoinStarts(t', rest');
    assert t == u[..|t|] && t' == u[..|t'|];
    if |t| < |t'| {
      NoLongerHead(t, t', first);
    } else if |t'| < |t| {
      NoLongerHead(t', t, first);
    }
  }

  lemma {:induction false} SameSplit(t: string, rest: seq<string>, t': string, rest': seq<string>, first: bool)
    requires MayStart(t, first) && MayStart(t', first) && AllSpaced(rest) && AllSpaced(rest')
    requires JoinOn(t, rest) == JoinOn(t', rest')
    ensures t == t' && rest == rest'
    decreases |rest|
  {
    SameHead(t, rest, t', rest', first);
    JoinStarts(t, rest);
    JoinStarts(t', rest');
    if rest != [] {
      var u, v := JoinOn(rest[0], rest[1..]), JoinOn(rest'[0], rest'[1..]);
      Cancel(t + " ", u, v);
      SameSplit(rest[0], rest[1..], rest'[0], rest'[1..], false);
      SameList(rest, rest');
    }
  }

  lemma Cancel(a: string, b: string, c: string)
    requires a + b == a + c
    ensures b == c
  {
    assert (a + b)[|a|..] == b && (a + c)[|a|..] == c;
  }

  lemma SameList<T>(a: seq<T>, b: seq<T>)
    requires a != [] && b != [] && a[0] == b[0] && a[1..] == b[1..]
    ensures a == b
  {
    assert a == [a[0]] + a[1..] && b == [b[0]] + b[1..];
  }

  lemma TokensShaped(cmd: string)
    requires cmd != ""
    ensures Shaped(FixTokens(cmd, 0, 0))
  {
    TokensStep(cmd, 0, 0);
    NextToken(cmd, 0, 0);
    var e := WordEnd(cmd, 0);
    var n := SkipSpaces(cmd, e);
    if n < |cmd| {
      TailShaped(cmd, e + 1, n, FixTokens(cmd, e + 1, n));
    }
  }

  /** The tokens of a line are the only list of that shape that joins to it. */
  lemma TokensAreUnique(cmd: string, ts: seq<string>)
    requires cmd != ""
    ensures ts == FixTokens(cmd, 0, 0) <==> Shaped(ts) && Join(ts) == RTrim(cmd, false)
  {
    var tokens := FixTokens(cmd, 0, 0);
    TokensJoin(cmd);
    TokensShaped(cmd);
    if Shaped(ts) && Join(ts) == RTrim(cmd, false) {
      SameSplit(ts[0], ts[1..], tokens[0], tokens[1..], true);
      SameList(ts, tokens);
    }
  }

  lemma {:induction false} TokensNulFree(cmd: string, ai: nat, pi: nat)
    requires pi <= |cmd| && (pi < |cmd| ==> ai <= pi) && NUL !in cmd
    ensures forall i :: 0 <= i < |FixTokens(cmd, ai, pi)| ==> NUL !in FixTokens(cmd, ai, pi)[i]
    decreases |cmd| - pi
  {
    if pi < |cmd| {
      var e := WordEnd(cmd, pi);
      TokensNulFree(cmd, e + 1, SkipSpaces(cmd, e));
    }
  }

  lemma {:induction false} UnpackPacked(ts: seq<string>)
    requires forall i :: 0 <= i < |ts| ==> NUL !in ts[i]
    ensures Unpack(Pack(ts)) == ts
  {
    if ts != [] {
      var buf := Pack(ts);
      assert buf[|ts[0]|] == NUL && ts[0] <= buf;
      TextIs(buf, ts[0]);
      assert buf[|ts[0]| + 1..] == Pack(ts[1..]);
      UnpackPacked(ts[1..]);
    }
  }

  /** Taking the packed buffer apart at its NULs gives back the tokens, one for one: with host: in front if the
      token names a file and holds no colon, and as it was otherwise. */
  lemma PackedTokensUnpack(cmd: string, isFile: string -> bool)
    requires NUL !in cmd
    ensures var ts, us := FixTokens(cmd, 0, 0), Unpack(Pack(FixArgs(FixTokens(cmd, 0, 0), isFile)));
            && |us| == |ts|
            && forall i :: 0 <= i < |ts| ==> us[i] == if isFile(ts[i]) && ':' !in ts[i] then "host:" + ts[i] else ts[i]
  {
    TokensNulFree(cmd, 0, 0);
    UnpackPacked(FixArgs(FixTokens(cmd, 0, 0), isFile));
  }

  /** How many tokens name a file and hold no colon. */
  function Prefixes(ts: seq<string>, isFile: string -> bool): nat {
    if ts == [] then 0 else (if isFile(ts[0]) && ':' !in ts[0] then 1 else 0) + Prefixes(ts[1..], isFile)
  }

  lemma {:induction false} PackedJoin(ts: seq<string>, isFile: string -> bool)
    requires ts != []
    ensures |Pack(FixArgs(ts, isFile))| == |Join(ts)| + 1 + 5 * Prefixes(ts, isFile)
  {
    PackStep("", ts, isFile);
    var rest := Pack(FixArgs(ts[1..], isFile));
    assert |Pack(FixArgs(ts, isFile))| == |FixArg(ts[0], isFile)| + 1 + |rest|;
    if |ts| > 1 {
      PackedJoin(ts[1..], isFile);
    }
  }

  /** The length of the packed buffer: that of the line without trailing spaces, one terminator, and
      five for each token that names a file and holds no colon. An empty line packs to nothing. */
  lemma PackedLength(cmd: string, isFile: string -> bool)
    ensures var ts := FixTokens(cmd, 0, 0);
            |Pack(FixArgs(ts, isFile))| == if cmd == "" then 0 else |RTrim(cmd, false)| + 1 + 5 * Prefixes(ts, isFile)
  {
    TokensJoin(cmd);
    if cmd != "" {
      PackedJoin(FixTokens(cmd, 0, 0), isFile);
    }
  }

  /** t without the spaces at its start. */
  function LTrim(t: string): string {
    t[SkipSpaces(t, 0)..]
  }

  lemma LTrimToken(s: string, ai: nat, pi: nat)
    requires AtToken(s, ai, pi)
    ensures LTrim(s[ai..WordEnd(s, pi)]) == s[pi..WordEnd(s, pi)]
  {
    var t := s[ai..WordEnd(s, pi)];
    assert forall i :: 0 <= i < |t| ==> t[i] == s[ai + i];
    assert SkipSpaces(t, 0) == pi - ai;
  }

  lemma {:induction false} SameTokens(s: string, ai: nat, pi: nat, ws: seq<string>, ts: seq<string>)
    requires AtToken(s, ai, pi) && ws == Words(s, pi) && ts == FixTokens(s, ai, pi)
    ensures ws == LTrims(ts)
    decreases |s| - pi
  {
    var e := WordEnd(s, pi);
    var n := SkipSpaces(s, e);
    var rest := FixTokens(s, e + 1, n);
    LTrimToken(s, ai, pi);
    TokensStep(s, ai, pi);
    NextToken(s, ai, pi);
    assert ts[1..] == rest;
    if n < |s| {
      SameTokens(s, e + 1, n, Words(s, n), rest);
    }
  }

  function LTrims(ts: seq<string>): (ws: seq<string>)
    ensures |ws| == |ts| && forall i :: 0 <= i < |ts| ==> ws[i] == LTrim(ts[i])
  {
    if ts == [] then [] else [LTrim(ts[0])] + LTrims(ts[1..])
  }

  /** The two tokenisers agree on every line, empty and all-space ones included: as many tokens, and the
      words of build_argv are those of fix_cmd_arg without leading spaces. The counts they return
      agree exactly up to one token more than build_argv can hold. */
  lemma TokenisersAgree(s: string)
    ensures |Words(s, 0)| == |FixTokens(s, 0, 0)|
    ensures forall i :: 0 <= i < |Words(s, 0)| ==> Words(s, 0)[i] == LTrim(FixTokens(s, 0, 0)[i])
    ensures ArgvCount(|Words(s, 0)|) == |FixTokens(s, 0, 0)| <==> |FixTokens(s, 0, 0)| <= MAX_ARGV + 1
  {
    if s != "" {
      SameTokens(s, 0, 0, Words(s, 0), FixTokens(s, 0, 0));
    }
  }

  /** For instance 258 words of one letter, of which build_argv reports 257. */
  lemma TooManyWords()
    ensures exists cmd :: |FixTokens(cmd, 0, 0)| == 258 && ArgvCount(|Words(cmd, 0)|) == 257
  {
    var ts := seq<string>(258, _ => "a");
    var cmd := Join(ts);
    LettersSpaced(ts[1..]);
    LettersEnd(ts[0], ts[1..]);
    RTrimIs(cmd, false, |cmd|);
    assert cmd[..|cmd|] == cmd;
    TokensAreUnique(cmd, ts);
    TokenisersAgree(cmd);
    assert |FixTokens(cmd, 0, 0)| == 258;
  }

  lemma {:induction false} LettersSpaced(ts: seq<string>)
    requires forall i :: 0 <= i < |ts| ==> ts[i] == "a"
    ensures AllSpaced(ts)
  {
    if ts != [] {
      assert SkipSpaces("a", 0) == 0;
      LettersSpaced(ts[1..]);
    }
  }

  lemma {:induction false} LettersEnd(t: string, rest: seq<string>)
    requires t == "a" && forall i :: 0 <= i < |rest| ==> rest[i] == "a"
    ensures var u := JoinOn(t, rest); u != "" && u[|u| - 1] == 'a'
    decreases |rest|
  {
    if rest != [] {
      LettersEnd(rest[0], rest[1..]);
    }
  }
}
