/**
 Configuration lines (common.c, and the body of the read_config loop in pksh.c): a line is cut at its
 first '=', the key is trimmed and the value stripped, all inside their buffers.
*/
module Config {
  import opened Lists
  import opened Strings

  /** Length of the part of a line before its first '='. */
  function KeyLength(line: string): (n: nat)
    ensures n <= |line| && '=' !in line[..n] && (n < |line| ==> line[n] == '=')
  {
    if line == "" || line[0] == '=' then 0 else 1 + KeyLength(line[1..])
  }

  function KeyPart(line: string): string { line[..KeyLength(line)] }

  /** What follows the first '='; empty if there is none. */
  function ValuePart(line: string): string {
    var n := KeyLength(line);
    if n < |line| then line[n + 1..] else ""
  }

  lemma KeyLengthIs(line: string, n: nat)
    requires n <= |line| && '=' !in line[..n] && (n < |line| ==> line[n] == '=')
    ensures KeyLength(line) == n
  {
    var m := KeyLength(line);
    assert forall i :: 0 <= i < n ==> line[i] == line[..n][i];
    assert forall i :: 0 <= i < m ==> line[i] == line[..m][i];
  }

  /** The first '=', or the end of the line. */
  method FindEquals(line: array<char>) returns (i: nat)
    requires |Text(line[..])| < line.Length
    ensures i == KeyLength(Text(line[..])) < line.Length && (line[i] == NUL <==> i == |Text(line[..])|)
  {
    ghost var t := Text(line[..]);
    assert forall k :: 0 <= k < |t| ==> line[k] == t[k] != NUL;
    assert line[|t|] == NUL;
    i := 0;
    while line[i] != NUL && line[i] != '='
      invariant i <= |t| && '=' !in t[..i]
      decreases |t| - i
    {
      assert t[..i + 1] == t[..i] + [t[i]];
      i := i + 1;
    }
    KeyLengthIs(t, i);
  }

  /** strsep with "=": ends the first field and says where the next one starts. */
  method Strsep(line: array<char>) returns (next: Option<nat>)
    requires |Text(line[..])| < line.Length
    modifies line
    ensures var t := old(Text(line[..]));
            && Text(line[..]) == KeyPart(t)
            && next == (if KeyLength(t) < |t| then Some(KeyLength(t) + 1) else None)
            && (next.Some? ==> next.value < line.Length && Text(line[next.value..]) == ValuePart(t))
  {
    ghost var t := Text(line[..]);
    var i := FindEquals(line);
    if line[i] == NUL {
      assert KeyPart(t) == t;
      return None;
    }
    TextDrop(line[..], i + 1);
    Terminate(line, i);
    next := Some(i + 1);
  }

  /** read_pair */
  method ReadPair(line: array<char>, k: array<char>, v: array<char>)
    requires line != k && k != v && v != line && |Text(line[..])| < line.Length
    requires |KeyPart(Text(line[..]))| < k.Length && |ValuePart(Text(line[..]))| < v.Length
    modifies line, k, v
    ensures Text(line[..]) == old(KeyPart(Text(line[..])))
    ensures Text(k[..]) == old(KeyPart(Text(line[..]))) && Text(v[..]) == old(ValuePart(Text(line[..])))
  {
    var rest := Strsep(line);
    Strcpy(k, 0, Text(line[..]));
    if rest.Some? {
      Strcpy(v, 0, Text(line[rest.value..]));
    } else {
      Strcpy(v, 0, "");
    }
    assert k[0..] == k[..] && v[0..] == v[..];
  }

  /** The text trim leaves at the start of its buffer. The leading spaces are skipped by moving the
      pointer, and the terminator is then placed at an index counted from the moved pointer. */
  function Trimmed(t: string): string {
    var n := Lead(t, false) + |RTrim(t, false)|;
    if n < |t| then t[..n] else t
  }

  /** The characters of t stand in the buffer from `at` on. */
  ghost predicate Stands(s: array<char>, at: nat, t: string)
    reads s
  {
    at + |t| <= s.Length && forall k :: 0 <= k < |t| ==> s[at + k] == t[k]
  }

  /** The first loop of trim: backs up over the spaces at the end. */
  method RightEdge(s: array<char>, len: nat, ghost t: string) returns (i: nat)
    requires Stands(s, 0, t) && len == |t|
    ensures i == |RTrim(t, false)|
  {
    i := len;
    while i > 0 && s[i - 1] == ' '
      invariant i <= |t| && Blanks(t, false, i, |t|)
    {
      i := i - 1;
    }
    RTrimIs(t, false, i);
  }

  /** The second loop of trim: advances over the spaces at the start. */
  method LeftEdge(s: array<char>, len: nat, ghost t: string) returns (at: nat)
    requires Stands(s, 0, t) && len == |t|
    ensures at == Lead(t, false)
  {
    at := 0;
    var left := len;
    while left > 0 && s[at] == ' '
      invariant at + left == |t| && Blanks(t, false, 0, at)
    {
      at, left := at + 1, left - 1;
    }
    LeadIs(t, false, at);
  }

  /** The terminator trim writes stays inside a buffer of n characters. */
  predicate TrimFits(t: string, n: nat) {
    Lead(t, false) + |RTrim(t, false)| < n
  }

  /** A text that fits the buffer and has no leading space is safe to trim. */
  lemma TrimFitsWithoutLead(t: string, n: nat)
    requires |t| < n && Lead(t, false) == 0
    ensures TrimFits(t, n)
  {
  }

  /** With leading spaces it need not be: for a key of spaces up to the middle of the buffer and one letter
      behind them, trim writes past the end. */
  lemma TrimOverruns(n: nat)
    requires n > 2 && n % 2 == 0
    ensures var line := seq(n / 2, _ => ' ') + "a";
            |line| < n && KeyPart(line) == line && !TrimFits(line, n)
  {
    var line := seq(n / 2, _ => ' ') + "a";
    assert line[n / 2] == 'a';
    KeyLengthIs(line, |line|);
    assert line[..|line|] == line;
    LeadIs(line, false, n / 2);
    RTrimIs(line, false, |line|);
  }

  /** trim: the pointer returned is the offset `at`. */
  method Trim(s: array<char>) returns (at: nat)
    requires |Text(s[..])| < s.Length
    requires TrimFits(Text(s[..]), s.Length)
    modifies s
    ensures at == Lead(old(Text(s[..])), false)
    ensures Text(s[..]) == Trimmed(old(Text(s[..])))
  {
    ghost var t := Text(s[..]);
    assert Stands(s, 0, t);
    var len := Length(s);
    var i := RightEdge(s, len, t);
    at := LeftEdge(s, len, t);
    Terminate(s, at + i);
  }

  /** The buffer ends up trimmed on the right exactly if the text has no leading space or no trailing
      one; with both, at least one trailing space stays. */
  lemma TrimmedOnTheRightIff(t: string)
    ensures Trimmed(t) == RTrim(t, false) <==> Lead(t, false) == 0 || RTrim(t, false) == t
  {
  }

  /** Exactly: as many of the spaces at the end stay as there are at the start, if there are that many. */
  lemma TrimLeaves(lead: string, body: string, trail: string)
    requires Blanks(lead, false, 0, |lead|) && Blanks(trail, false, 0, |trail|)
    requires body != "" && body[0] != ' ' && body[|body| - 1] != ' '
    ensures Trimmed(lead + body + trail) == lead + body + trail[..if |lead| < |trail| then |lead| else |trail|]
    ensures Lead(lead + body + trail, false) == |lead|
  {
    var t, n := lead + body + trail, |lead| + |body|;
    assert forall k :: 0 <= k < |lead| ==> t[k] == lead[k];
    assert t[|lead|] == body[0] && t[n - 1] == body[|body| - 1];
    assert forall k :: n <= k < |t| ==> t[k] == trail[k - n];
    LeadIs(t, false, |lead|);
    RTrimIs(t, false, n);
    assert |lead| < |trail| ==> t[..n + |lead|] == lead + body + trail[..|lead|];
    assert trail[..|trail|] == trail;
  }

  /** For instance " a " keeps its trailing space. */
  lemma TrimmedKeepsSpace()
    ensures Trimmed(" a ") == " a " && RTrim(" a ", false) == " a"
  {
    RTrimIs(" a ", false, 2);
    LeadIs(" a ", false, 1);
  }

  /** The first loop of stripwhite. */
  method SkipWhite(s: array<char>) returns (at: nat)
    requires |Text(s[..])| < s.Length
    ensures at == Lead(Text(s[..]), true) && Text(s[at..]) == Text(s[..])[at..]
  {
    ghost var t := Text(s[..]);
    assert s[|t|] == NUL && forall k :: 0 <= k < |t| ==> s[k] == t[k] != NUL;
    at := 0;
    while White(s[at], true)
      invariant at <= |t| && Blanks(t, true, 0, at)
      decreases |t| - at
    {
      at := at + 1;
    }
    LeadIs(t, true, at);
    TextIs(s[at..], t[at..]);
  }

  /** The second loop of stripwhite: the end of a text that starts with no blank. */
  method LastBlack(s: array<char>, at: nat, n: nat, ghost t: string) returns (end: nat)
    requires Stands(s, at, t) && 0 < n == |t| && !White(t[0], true)
    ensures at < end <= at + n && RTrim(t, true) == t[..end - at]
  {
    end := at + n;
    while end - 1 > at && White(s[end - 1], true)
      invariant at < end <= at + n && Blanks(t, true, end - at, |t|)
    {
      end := end - 1;
    }
    RTrimIs(t, true, end - at);
  }

  /** stripwhite */
  method StripWhite(s: array<char>) returns (at: nat)
    requires |Text(s[..])| < s.Length
    modifies s
    ensures at < s.Length && Text(s[at..]) == Strip(old(Text(s[..])), true)
  {
    at := SkipWhite(s);
    if s[at] != NUL {
      CutWhite(s, at);
    }
  }

  /** stripwhite after its first loop. */
  method CutWhite(s: array<char>, at: nat)
    requires at < s.Length && |Text(s[at..])| < s.Length - at
    requires s[at] != NUL && !White(s[at], true)
    modifies s
    ensures Text(s[at..]) == RTrim(old(Text(s[at..])), true)
  {
    ghost var t := Text(s[at..]);
    assert t[0] == s[at] && Stands(s, at, t);
    var n := Strlen(s, at);
    var end := LastBlack(s, at, n, t);
    TerminateAt(s, at, end - at);
    assert t[..|t|] == t;
  }

  /** One line of the configuration file, as far as the key and the value: comments are skipped. The three
      buffers are of the same size; what the code needs beyond that is that trim stays inside its one. */
  method ParseLine(line: array<char>, key: array<char>, value: array<char>) returns (ptr: Option<nat>)
    requires line != key && key != value && value != line && |Text(line[..])| < line.Length
    requires key.Length == value.Length == line.Length
    requires line[0] != '#' ==> TrimFits(KeyPart(Text(line[..])), key.Length)
    modifies line, key, value
    ensures ptr.None? <==> old(line[0]) == '#'
    ensures ptr.Some? ==>
              && ptr.value < value.Length
              && Text(key[..]) == Trimmed(KeyPart(old(Text(line[..]))))
              && Text(value[ptr.value..]) == Strip(ValuePart(old(Text(line[..]))), true)
  {
    if line[0] == '#' {
      return None;
    }
    ReadPair(line, key, value);
    var trimmed := Trim(key);
    var at := StripWhite(value);
    ptr := Some(at);
  }

  /** A key and a value printed as a line come back exactly: the key may be followed by spaces, the
      value surrounded by spaces and tabs, and the value may hold '=' or be empty. The line is a comment only if
      the key starts with #. */
  lemma ConfigLineRoundTrip(key: string, after: string, before: string, value: string, end: string)
    requires '=' !in key && key != "" && key[0] != ' ' && key[|key| - 1] != ' '
    requires Blanks(after, false, 0, |after|) && Blanks(before, true, 0, |before|) && Blanks(end, true, 0, |end|)
    requires value != "" ==> !White(value[0], true) && !White(value[|value| - 1], true)
    ensures var line := (key + after) + "=" + (before + value + end);
            && Lead(KeyPart(line), false) == 0 && Trimmed(KeyPart(line)) == key && Strip(ValuePart(line), true) == value
            && (line[0] == '#' <==> key[0] == '#')
  {
    LineParts(key + after, before + value + end);
    KeyPadded(key, after);
    ValuePadded(before, value, end);
  }

  lemma LineParts(k: string, v: string)
    requires '=' !in k
    ensures KeyPart(k + "=" + v) == k && ValuePart(k + "=" + v) == v
  {
    var line := k + "=" + v;
    assert line[..|k|] == k && line[|k| + 1..] == v;
    KeyLengthIs(line, |k|);
  }

  lemma KeyPadded(key: string, after: string)
    requires key != "" && key[0] != ' ' && key[|key| - 1] != ' ' && Blanks(after, false, 0, |after|)
    ensures Lead(key + after, false) == 0 && Trimmed(key + after) == key
  {
    var t := key + after;
    assert t[|key|..] == after && t[..|key|] == key;
    LeadIs(t, false, 0);
    RTrimIs(t, false, |key|);
  }

  lemma ValuePadded(before: string, value: string, end: string)
    requires Blanks(before, true, 0, |before|) && Blanks(end, true, 0, |end|)
    requires value != "" ==> !White(value[0], true) && !White(value[|value| - 1], true)
    ensures Strip(before + value + end, true) == value
  {
    var t := before + value + end;
    if value == "" {
      LeadIs(t, true, |t|);
      assert t[|t|..] == "";
    } else {
      assert t[..|before|] == before && t[|before|..] == value + end;
      LeadIs(t, true, |before|);
      assert (value + end)[|value|..] == end && (value + end)[..|value|] == value;
      RTrimIs(value + end, true, |value|);
    }
  }
}
