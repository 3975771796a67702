/**
 C strings: substring search, and strings held in buffers.

 A buffer is a character array. The string at an offset of it is what stands there up to the next NUL
 (or the end of the buffer).
*/
module Strings {
  import opened Lists

  const NUL: char := '\0'

  /** The value common.h sets under Windows; elsewhere it is the system's, 4096 on Linux. No result depends
      on it. */
  const MAXPATHLEN: nat := 1024

  // ---- Substrings ----

  predicate OccursAt(s: string, t: string, i: nat) {
    i + |t| <= |s| && s[i..i + |t|] == t
  }

  predicate Contains(s: string, t: string) {
    exists i :: 0 <= i <= |s| && OccursAt(s, t, i)
  }

  /** strstr: the first occurrence of t in s at or after `from`. */
  function FindFrom(s: string, t: string, from: nat): (r: Option<nat>)
    requires from <= |s|
    ensures r.Some? ==> from <= r.value <= |s| && OccursAt(s, t, r.value)
    ensures r.Some? ==> forall i :: from <= i < r.value ==> !OccursAt(s, t, i)
    ensures r.None? ==> forall i :: from <= i <= |s| ==> !OccursAt(s, t, i)
    decreases |s| - from
  {
    if OccursAt(s, t, from) then Some(from)
    else if from == |s| then None
    else FindFrom(s, t, from + 1)
  }

  function Find(s: string, t: string): (r: Option<nat>)
    ensures r.Some? <==> Contains(s, t)
    ensures r.Some? ==> r.value <= |s| && OccursAt(s, t, r.value)
    ensures r.Some? ==> forall i :: 0 <= i < r.value ==> !OccursAt(s, t, i)
  {
    FindFrom(s, t, 0)
  }

  lemma OccursChar(s: string, c: char, i: nat)
    ensures OccursAt(s, [c], i) <==> i < |s| && s[i] == c
  {
    if i < |s| {
      assert s[i..i + 1] == [s[i]];
    }
  }

  /** strchr: searching for a single character. */
  lemma FindChar(s: string, c: char, from: nat)
    requires from <= |s|
    ensures var r := FindFrom(s, [c], from);
            && (r.Some? ==> from <= r.value < |s| && s[r.value] == c && forall i :: from <= i < r.value ==> s[i] != c)
            && (r.None? ==> forall i :: from <= i < |s| ==> s[i] != c)
  {
    forall i | from <= i <= |s| ensures OccursAt(s, [c], i) <==> i < |s| && s[i] == c {
      OccursChar(s, c, i);
    }
    var r := FindFrom(s, [c], from);
    forall i | from <= i < |s| && (r.Some? ==> i < r.value) ensures s[i] != c {
      assert !OccursAt(s, [c], i);
    }
  }

  lemma ContainsChar(s: string, c: char)
    ensures Contains(s, [c]) <==> c in s
  {
    if i :| 0 <= i <= |s| && OccursAt(s, [c], i) {
      assert s[i..i + 1][0] == s[i];
    }
    if i :| 0 <= i < |s| && s[i] == c {
      assert OccursAt(s, [c], i);
    }
  }

  // ---- Blanks at the edges ----

  /** A space or, where the code uses readline's whitespace(), also a tab. */
  predicate White(c: char, tabs: bool) {
    c == ' ' || (tabs && c == '\t')
  }

  /** Only blanks from i up to j. */
  predicate Blanks(t: string, tabs: bool, i: nat, j: nat)
    requires i <= j <= |t|
  {
    forall k :: i <= k < j ==> White(t[k], tabs)
  }

  /** The first position from i on that holds no blank. */
  function SkipBlanks(t: string, tabs: bool, i: nat): (n: nat)
    requires i <= |t|
    ensures i <= n <= |t| && (forall k :: i <= k < n ==> White(t[k], tabs)) && (n < |t| ==> !White(t[n], tabs))
    decreases |t| - i
  {
    if i == |t| || !White(t[i], tabs) then i else SkipBlanks(t, tabs, i + 1)
  }

  /** Length of the run of blanks t starts with. */
  function Lead(t: string, tabs: bool): (n: nat)
    ensures n <= |t|
  {
    SkipBlanks(t, tabs, 0)
  }

  lemma LeadIs(t: string, tabs: bool, n: nat)
    requires n <= |t| && Blanks(t, tabs, 0, n) && (n < |t| ==> !White(t[n], tabs))
    ensures Lead(t, tabs) == n
  {
  }

  /** The length that is left of the first n characters without the blanks at their end. */
  function DropBlanks(t: string, tabs: bool, n: nat): (m: nat)
    requires n <= |t|
    ensures m <= n && (forall k :: m <= k < n ==> White(t[k], tabs)) && (0 < m ==> !White(t[m - 1], tabs))
  {
    if 0 < n && White(t[n - 1], tabs) then DropBlanks(t, tabs, n - 1) else n
  }

  /** t without the blanks at its end. */
  function RTrim(t: string, tabs: bool): (r: string)
    ensures r <= t
  {
    t[..DropBlanks(t, tabs, |t|)]
  }

  lemma RTrimIs(t: string, tabs: bool, n: nat)
    requires n <= |t| && Blanks(t, tabs, n, |t|) && (0 < n ==> !White(t[n - 1], tabs))
    ensures RTrim(t, tabs) == t[..n]
  {
    assert DropBlanks(t, tabs, |t|) == n;
  }

  /** t without the blanks at either edge. */
  function Strip(t: string, tabs: bool): string {
    RTrim(t[Lead(t, tabs)..], tabs)
  }

  // ---- Strings in buffers ----

  /** The string at the start of a buffer. */
  function Text(buf: seq<char>): (s: string)
    ensures s <= buf && NUL !in s && (|s| < |buf| ==> buf[|s|] == NUL)
  {
    if buf == [] || buf[0] == NUL then "" else [buf[0]] + Text(buf[1..])
  }

  lemma {:induction false} TextIs(buf: seq<char>, s: string)
    requires s <= buf && NUL !in s && (|s| < |buf| ==> buf[|s|] == NUL)
    ensures Text(buf) == s
  {
    var t := Text(buf);
    assert forall i :: 0 <= i < |s| ==> s[i] == buf[i];
    assert forall i :: 0 <= i < |t| ==> t[i] == buf[i];
    assert |s| == |t|;
  }

  /** Writing a terminator into a buffer cuts the string off there. */
  lemma TextCut(buf: seq<char>, k: nat)
    requires k < |buf|
    ensures Text(buf[k := NUL]) == if k < |Text(buf)| then Text(buf)[..k] else Text(buf)
  {
    var t := Text(buf);
    assert forall i :: 0 <= i < |t| ==> t[i] == buf[i];
    TextIs(buf[k := NUL], if k < |t| then t[..k] else t);
  }

  /** strlen */
  method Strlen(buf: array<char>, at: nat) returns (n: nat)
    requires at <= buf.Length && |Text(buf[at..])| < buf.Length - at
    ensures n == |Text(buf[at..])|
  {
    ghost var s := Text(buf[at..]);
    n := 0;
    while buf[at + n] != NUL
      invariant n <= |s|
      decreases |s| - n
    {
      assert buf[at..][|s|] == NUL;
      n := n + 1;
    }
    assert forall i :: 0 <= i < |s| ==> s[i] == buf[at + i];
  }

  /** strlen of a whole buffer. */
  method Length(buf: array<char>) returns (n: nat)
    requires |Text(buf[..])| < buf.Length
    ensures n == |Text(buf[..])|
  {
    assert buf[0..] == buf[..];
    n := Strlen(buf, 0);
  }

  /** Writing a terminator ends the string there, and leaves what stands behind it. */
  method Terminate(buf: array<char>, k: nat)
    requires k < buf.Length
    modifies buf
    ensures Text(buf[..]) == old(var t := Text(buf[..]); if k < |t| then t[..k] else t)
    ensures buf[k + 1..] == old(buf[k + 1..])
  {
    ghost var before := buf[..];
    TextCut(before, k);
    buf[k] := NUL;
    assert buf[..] == before[k := NUL];
  }

  /** The same for the string at an offset. */
  method TerminateAt(buf: array<char>, at: nat, k: nat)
    requires at + k < buf.Length
    modifies buf
    ensures Text(buf[at..]) == old(var t := Text(buf[at..]); if k < |t| then t[..k] else t)
  {
    ghost var before := buf[at..];
    TextCut(before, k);
    buf[at + k] := NUL;
    assert buf[at..] == before[k := NUL];
  }

  lemma TextDrop(buf: seq<char>, k: nat)
    requires k <= |Text(buf)|
    ensures Text(buf[k..]) == Text(buf)[k..]
  {
    TextIs(buf[k..], Text(buf)[k..]);
  }

  /** strcpy to an offset of a buffer. */
  method Strcpy(dst: array<char>, at: nat, s: string)
    requires at + |s| < dst.Length && NUL !in s
    modifies dst
    ensures Text(dst[at..]) == s
    ensures forall k :: 0 <= k < dst.Length && !(at <= k <= at + |s|) ==> dst[k] == old(dst[k])
  {
    var i := 0;
    while i < |s|
      invariant i <= |s|
      invariant forall k :: 0 <= k < i ==> dst[at + k] == s[k]
      invariant forall k :: 0 <= k < dst.Length && !(at <= k < at + i) ==> dst[k] == old(dst[k])
    {
      dst[at + i] := s[i];
      i := i + 1;
    }
    dst[at + i] := NUL;
    TextIs(dst[at..], s);
  }

  /** strcat */
  method Strcat(dst: array<char>, s: string)
    requires |Text(dst[..])| + |s| < dst.Length && NUL !in s
    modifies dst
    ensures Text(dst[..]) == old(Text(dst[..])) + s
  {
    ghost var t := Text(dst[..]);
    assert forall k :: 0 <= k < |t| ==> dst[k] == t[k];
    var at := Length(dst);
    Strcpy(dst, at, s);
    TextSplit(dst[..], t, s);
  }

  lemma TextSplit(buf: seq<char>, t: string, s: string)
    requires |t| <= |buf| && t == buf[..|t|] && NUL !in t && s == Text(buf[|t|..])
    ensures Text(buf) == t + s
  {
    assert forall k :: 0 <= k < |s| ==> s[k] == buf[|t|..][k] == buf[|t| + k];
    TextIs(buf, t + s);
  }
}
