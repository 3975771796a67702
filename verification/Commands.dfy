/**
 The command table of the shell (pksh.c): completion of command names, which goes through the table in
 successive calls that share a static index, the look-up of a name, and the line interpreter, which cuts
 the command word and its argument out of a line.
*/
module Commands {
  import opened Lists
  import opened Strings

  /** strncmp(name, text, n) == 0 */
  predicate SamePrefix(name: string, text: string, n: nat) {
    (if |name| < n then name else name[..n]) == (if |text| < n then text else text[..n])
  }

  /** The names from index `from` on that agree with the first n characters of the text. */
  function Matches(names: seq<string>, text: string, n: nat, from: nat): seq<string>
    requires from <= |names|
    decreases |names| - from
  {
    if from == |names| then []
    else (if SamePrefix(names[from], text, n) then [names[from]] else []) + Matches(names, text, n, from + 1)
  }

  /** Completing a text offers exactly the names that start with it. */
  lemma {:induction false} MatchesAre(names: seq<string>, text: string, from: nat, x: string)
    requires from <= |names|
    ensures x in Matches(names, text, |text|, from) <==> x in names[from..] && text <= x
    decreases |names| - from
  {
    if from < |names| {
      MatchesAre(names, text, from + 1, x);
      assert names[from..] == [names[from]] + names[from + 1..];
    }
  }

  /** Index of the first command of that name. */
  function IndexOf(names: seq<string>, name: string): (r: Option<nat>)
    ensures r.Some? ==> r.value < |names| && names[r.value] == name && name !in names[..r.value]
    ensures r.None? ==> name !in names
  {
    if names == [] then None
    else if names[0] == name then Some(0)
    else
      var r := IndexOf(names[1..], name);
      if r.None? then None else
        assert names[..r.value + 1] == [names[0]] + names[1..][..r.value];
        Some(r.value + 1)
  }

  /** First position from i on that holds a blank or ends the text. */
  function WordEnd(t: string, i: nat): (e: nat)
    requires i <= |t|
    ensures i <= e <= |t| && (forall k :: i <= k < e ==> !White(t[k], true)) && (e < |t| ==> White(t[e], true))
    decreases |t| - i
  {
    if i == |t| || White(t[i], true) then i else WordEnd(t, i + 1)
  }

  /** What a line does: run a command of the table with an argument, or go to the system's shell. */
  datatype Action = Run(index: nat, arg: string) | System(line: string)

  function Word(t: string): string {
    var i := Lead(t, true);
    t[i..WordEnd(t, i)]
  }

  /** What stands behind the blank that ends the word. */
  function Rest(t: string): string {
    var e := WordEnd(t, Lead(t, true));
    if e == |t| then "" else t[e + 1..]
  }

  function Argument(t: string): string {
    Rest(t)[Lead(Rest(t), true)..]
  }

  function Dispatch(names: seq<string>, t: string): Action {
    var c := IndexOf(names, Word(t));
    if c.None? then System(t) else Run(c.value, Argument(t))
  }

  class CommandTable {
    const names: seq<string>
    var listIndex: nat       // static in command_generator
    var len: nat             // likewise

    constructor (names: seq<string>)
      ensures this.names == names
    {
      this.names, listIndex, len := names, 0, 0;
    }

    /** command_generator: the next match; `again` is the state readline passes, false on the first call. */
    method CommandGenerator(text: string, again: bool) returns (r: Option<string>)
      requires again ==> listIndex <= |names|
      modifies this
      ensures listIndex <= |names| && len == if again then old(len) else |text|
      ensures var rest := Matches(names, text, len, if again then old(listIndex) else 0);
              rest == (if r.None? then [] else [r.value]) + Matches(names, text, len, listIndex)
      ensures r.None? ==> listIndex == |names|
      ensures r.Some? && again ==> old(listIndex) < listIndex
    {
      if !again {
        listIndex := 0;
        len := |text|;
      }
      ghost var start, goal := listIndex, Matches(names, text, len, listIndex);
      while listIndex < |names|
        invariant start <= listIndex <= |names| && len == if again then old(len) else |text|
        invariant Matches(names, text, len, listIndex) == goal
        decreases |names| - listIndex
      {
        var name := names[listIndex];
        listIndex := listIndex + 1;
        if SamePrefix(name, text, len) {
          return Some(name);
        }
      }
      r := None;
    }

    /** The calls readline makes for one text, until there are no more matches. */
    method Completions(text: string) returns (all: seq<string>)
      modifies this
      ensures all == Matches(names, text, |text|, 0)
    {
      all := [];
      var r := CommandGenerator(text, false);
      while r.Some?
        invariant listIndex <= |names| && len == |text|
        invariant r.Some? ==> all + [r.value] + Matches(names, text, len, listIndex) == Matches(names, text, |text|, 0)
        invariant r.None? ==> all == Matches(names, text, |text|, 0)
        decreases r.Some?, |names| - listIndex
      {
        all := all + [r.value];
        ghost var rest := Matches(names, text, len, listIndex);
        r := CommandGenerator(text, true);
        assert r.None? ==> rest == [];
      }
    }

    /** find_command */
    method FindCommand(name: string) returns (r: Option<nat>)
      ensures r == IndexOf(names, name)
    {
      var i := 0;
      while i < |names|
        invariant i <= |names| && name !in names[..i]
      {
        if names[i] == name {
          return Some(i);
        }
        assert names[..i + 1] == names[..i] + [names[i]];
        i := i + 1;
      }
      r := None;
    }

    /** Ends the command word inside the line; `next` is where the look for the argument starts. */
    method CutWord(line: array<char>) returns (at: nat, next: nat)
      requires |Text(line[..])| < line.Length
      modifies line
      ensures at < line.Length && Text(line[at..]) == old(Word(Text(line[..])))
      ensures var t := old(Text(line[..]));
              && next < line.Length && |Text(line[next..])| < line.Length - next
              && Text(line[next..]) == Rest(t)
    {
      ghost var t := Text(line[..]);
      var end;
      at, end := ScanWord(line, t);
      next := end;
      if line[end] != NUL {
        TextDrop(line[..], end + 1);
        Terminate(line, end);
        next := end + 1;
      } else {
        assert end == |t| && t[..end] == t;
        TextDrop(line[..], end);
      }
      assert Text(line[..]) == t[..end] && t[..end][at..] == Word(t);
      TextDrop(line[..], at);
    }

    /** execute_line. The line is cut in place; what goes to the system is the copy made before. */
    method ExecuteLine(line: array<char>) returns (a: Action)
      requires |Text(line[..])| < line.Length
      modifies line
      ensures a == Dispatch(names, old(Text(line[..])))
    {
      var copy := Text(line[..]);
      var at, next := CutWord(line);
      var command := FindCommand(Text(line[at..]));
      if command.None? {
        return System(copy);
      }
      var arg := SkipWhite(line, next);
      a := Run(command.value, arg);
    }

    /** The first two loops of execute_line: over leading blanks, then over the word. */
    method ScanWord(line: array<char>, ghost t: string) returns (at: nat, end: nat)
      requires t == Text(line[..]) && |t| < line.Length
      ensures at == Lead(t, true) && end == WordEnd(t, at) && (line[end] == NUL <==> end == |t|)
    {
      assert line[|t|] == NUL && forall k :: 0 <= k < |t| ==> line[k] == t[k] != NUL;
      at := 0;
      while line[at] != NUL && White(line[at], true)
        invariant at <= |t| && SkipBlanks(t, true, at) == SkipBlanks(t, true, 0)
        decreases |t| - at
      {
        at := at + 1;
      }
      end := at;
      while line[end] != NUL && !White(line[end], true)
        invariant at <= end <= |t| && WordEnd(t, end) == WordEnd(t, at)
        decreases |t| - end
      {
        end := end + 1;
      }
    }

    /** The last loop of execute_line. */
    method SkipWhite(line: array<char>, from: nat) returns (arg: string)
      requires from < line.Length && |Text(line[from..])| < line.Length - from
      ensures arg == (var t := Text(line[from..]); t[Lead(t, true)..])
    {
      ghost var t := Text(line[from..]);
      assert line[from + |t|] == NUL && forall k :: 0 <= k < |t| ==> line[from + k] == t[k] != NUL;
      var i := 0;
      while White(line[from + i], true)
        invariant i <= |t| && SkipBlanks(t, true, i) == SkipBlanks(t, true, 0)
        decreases |t| - i
      {
        i := i + 1;
      }
      assert line[from..][i..] == line[from + i..];
      TextDrop(line[from..], i);
      arg := Text(line[from + i..]);
    }
  }

  /** Every completion offered for a text is a command: a line made of it, any blanks in front, and an
      argument behind any blanks runs the first command of that name with that argument. */
  lemma CompletionsRun(names: seq<string>, text: string, x: string, front: string, gap: string, arg: string)
    requires x in Matches(names, text, |text|, 0) && x != "" && forall i :: 0 <= i < |x| ==> !White(x[i], true)
    requires Blanks(front, true, 0, |front|) && Blanks(gap, true, 0, |gap|)
    requires if arg == "" then true else gap != "" && !White(arg[0], true)
    ensures var a := Dispatch(names, front + x + gap + arg);
            a.Run? && names[a.index] == x && x !in names[..a.index] && a.arg == arg
  {
    MatchesAre(names, text, 0, x);
    LinePartsAre(front, x, gap, arg);
  }

  /** A line whose first word is no command goes to the system's shell as it was typed, blanks and all. */
  lemma OthersGoToSystem(names: seq<string>, front: string, x: string, gap: string, arg: string)
    requires x != "" && x !in names && forall i :: 0 <= i < |x| ==> !White(x[i], true)
    requires Blanks(front, true, 0, |front|) && Blanks(gap, true, 0, |gap|)
    requires if arg == "" then true else gap != "" && !White(arg[0], true)
    ensures Dispatch(names, front + x + gap + arg) == System(front + x + gap + arg)
  {
    LinePartsAre(front, x, gap, arg);
  }

  /** And so does a line of nothing but blanks. */
  lemma BlankGoesToSystem(names: seq<string>, t: string)
    requires Blanks(t, true, 0, |t|) && "" !in names
    ensures Dispatch(names, t) == System(t)
  {
    LeadIs(t, true, |t|);
  }

  lemma LinePartsAre(front: string, x: string, gap: string, arg: string)
    requires x != "" && forall i :: 0 <= i < |x| ==> !White(x[i], true)
    requires Blanks(front, true, 0, |front|) && Blanks(gap, true, 0, |gap|)
    requires if arg == "" then true else gap != "" && !White(arg[0], true)
    ensures Word(front + x + gap + arg) == x && Argument(front + x + gap + arg) == arg
  {
    var t := front + x + gap + arg;
    var i, e, n := |front|, |front| + |x|, |front| + |x| + |gap|;
    assert forall k :: 0 <= k < i ==> t[k] == front[k];
    assert forall k :: i <= k < e ==> t[k] == x[k - i];
    assert forall k :: e <= k < n ==> t[k] == gap[k - e];
    assert arg != "" ==> t[n] == arg[0];
    LeadIs(t, true, i);
    assert e < |t| ==> e < n && White(t[e], true);
    assert WordEnd(t, i) == e;
    assert t[i..e] == x && t[n..] == arg;
    if e < |t| {
      assert forall k :: 0 <= k < |t| - e - 1 ==> Rest(t)[k] == t[e + 1 + k];
      LeadIs(Rest(t), true, n - e - 1);
      assert Rest(t)[n - e - 1..] == t[n..];
    }
  }
}
