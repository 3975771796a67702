/**
 File name completion (rl_common.c): the in-place filter readline calls on its candidates, the
 suffix list that configures it, and path_split, which builds that list and the search path.

 A C string on the heap is a non-zero number, 0 is the null pointer, and `freed` counts how often
 each has been passed to free.
*/
module Completion {
  import opened Lists
  import opened Strings

  // ---- Fields ----

  /** Length of the part of s before its first colon. */
  function Span(s: string): (n: nat)
    ensures n <= |s| && (forall i :: 0 <= i < n ==> s[i] != ':') && (n < |s| ==> s[n] == ':')
  {
    if s == "" || s[0] == ':' then 0 else 1 + Span(s[1..])
  }

  /** The colon-separated fields of s, empty ones included. */
  function Fields(s: string): seq<string>
    decreases |s|
  {
    var n := Span(s);
    if n == |s| then [s] else [s[..n]] + Fields(s[n + 1..])
  }

  function NonEmpty(fields: seq<string>): seq<string> {
    if fields == [] then []
    else (if fields[0] == "" then [] else [fields[0]]) + NonEmpty(fields[1..])
  }

  function Reverse<T>(s: seq<T>): (r: seq<T>)
    ensures |r| == |s|
    ensures forall i :: 0 <= i < |s| ==> r[i] == s[|s| - 1 - i]
  {
    if s == [] then [] else Reverse(s[1..]) + [s[0]]
  }

  lemma NonEmptyMember(fields: seq<string>, f: string)
    ensures f in NonEmpty(fields) <==> f in fields && f != ""
  {
  }

  // ---- path_split ----

  /** The first half of strtok_r: skips separators. */
  method SkipSeparators(line: string, from: nat) returns (start: nat)
    requires from <= |line|
    ensures from <= start <= |line| && (start < |line| ==> line[start] != ':')
    ensures NonEmpty(Fields(line[start..])) == NonEmpty(Fields(line[from..]))
  {
    start := from;
    while start < |line| && line[start] == ':'
      invariant from <= start <= |line|
      invariant NonEmpty(Fields(line[start..])) == NonEmpty(Fields(line[from..]))
    {
      SkipColon(line[start..]);
      assert line[start..][1..] == line[start + 1..];
      start := start + 1;
    }
  }

  /** strtok_r: skips separators, then takes everything up to the next one. */
  method NextToken(line: string, from: nat) returns (token: Option<string>, next: nat)
    requires from <= |line|
    ensures from <= next <= |line|
    ensures token.None? ==> NonEmpty(Fields(line[from..])) == []
    ensures token.Some? ==>
              && from < next && token.value != ""
              && NonEmpty(Fields(line[from..])) == [token.value] + NonEmpty(Fields(line[next..]))
  {
    var start := SkipSeparators(line, from);
    if start == |line| {
      assert line[start..] == "" && Fields("") == [""] && Fields("")[1..] == [];
      return None, start;
    }
    next := start;
    while next < |line| && line[next] != ':'
      invariant start <= next <= |line|
      invariant forall i :: start <= i < next ==> line[i] != ':'
    {
      next := next + 1;
    }
    token := Some(line[start..next]);
    TakeField(line, start, next);
  }

  lemma SkipColon(s: string)
    requires s != "" && s[0] == ':'
    ensures NonEmpty(Fields(s)) == NonEmpty(Fields(s[1..]))
  {
    assert Span(s) == 0 && s[..0] == "";
    assert Fields(s)[1..] == Fields(s[1..]);
  }

  lemma TakeLast(s: string)
    requires s != "" && Span(s) == |s|
    ensures NonEmpty(Fields(s)) == [s]
  {
    assert Fields(s)[1..] == [];
  }

  lemma TakeFirst(s: string, n: nat)
    requires 0 < n < |s| && Span(s) == n
    ensures NonEmpty(Fields(s)) == [s[..n]] + NonEmpty(Fields(s[n..]))
  {
    assert Fields(s)[1..] == Fields(s[n + 1..]);
    SkipColon(s[n..]);
    assert s[n..][1..] == s[n + 1..];
  }

  lemma SpanIs(s: string, n: nat)
    requires n <= |s| && (forall i :: 0 <= i < n ==> s[i] != ':') && (n < |s| ==> s[n] == ':')
    ensures Span(s) == n
  {
  }

  lemma TakeField(line: string, start: nat, next: nat)
    requires start < next <= |line| && (next < |line| ==> line[next] == ':')
    requires forall i :: start <= i < next ==> line[i] != ':'
    ensures NonEmpty(Fields(line[start..])) == [line[start..next]] + NonEmpty(Fields(line[next..]))
  {
    var s, n := line[start..], next - start;
    SpanIs(s, n);
    assert s[..n] == line[start..next] && s[n..] == line[next..];
    if n == |s| {
      TakeLast(s);
      assert s[..n] == s && s[n..] == "" && Fields("") == [""] && Fields("")[1..] == [];
    } else {
      TakeFirst(s, n);
    }
  }

  /** The non-empty fields, last first: each one is put in front of the list. */
  method PathSplit(line: string) returns (list: List)
    ensures ToSeq(list) == Reverse(NonEmpty(Fields(line)))
  {
    list := Nil;
    ghost var rest := NonEmpty(Fields(line));
    ghost var goal := Reverse(rest);
    assert line[0..] == line;
    var dir, at := NextToken(line, 0);
    ghost var before := 0;
    while dir.Some?
      invariant before <= at <= |line| && (dir.Some? ==> before < at)
      invariant rest == if dir.Some? then [dir.value] + NonEmpty(Fields(line[at..])) else []
      invariant Reverse(rest) + ToSeq(list) == goal
      decreases |line| - before
    {
      rest := NonEmpty(Fields(line[at..]));
      PushField(dir.value, rest, list);
      list := Cons(dir.value, list);
      before := at;
      dir, at := NextToken(line, at);
    }
  }

  /** Moving the first of the remaining fields to the front of the list keeps what they end up as. */
  lemma PushField(d: string, rest: seq<string>, list: List)
    ensures Reverse([d] + rest) + ToSeq(list) == Reverse(rest) + ToSeq(Cons(d, list))
  {
    assert ([d] + rest)[1..] == rest;
    assert Reverse(rest) + ([d] + ToSeq(list)) == (Reverse(rest) + [d]) + ToSeq(list);
  }

  // ---- The filter ----

  /** No suffixes, or one of them occurs in the name. */
  predicate Accepted(name: string, suffixes: seq<string>) {
    suffixes == [] || exists i :: 0 <= i < |suffixes| && Contains(name, suffixes[i])
  }

  /** The world the filter looks at: what the strings say and which names are directories. */
  datatype World = World(text: nat -> string, isDir: string -> bool)

  predicate Keeps(w: World, suffixes: seq<string>, p: nat) {
    Accepted(w.text(p), suffixes) || w.isDir(w.text(p))
  }

  function Kept(w: World, suffixes: seq<string>, ps: seq<nat>): seq<nat> {
    if ps == [] then []
    else (if Keeps(w, suffixes, ps[0]) then [ps[0]] else []) + Kept(w, suffixes, ps[1..])
  }

  /** The entries of a null-terminated array. */
  function Entries(names: seq<nat>): (es: seq<nat>)
    ensures |es| <= |names|
    ensures forall i :: 0 <= i < |es| ==> es[i] == names[i] != 0
    ensures |es| < |names| ==> names[|es|] == 0
  {
    if names == [] || names[0] == 0 then [] else [names[0]] + Entries(names[1..])
  }

  lemma EntriesAre(names: seq<nat>, es: seq<nat>)
    requires |es| < |names| && names[|es|] == 0
    requires forall i :: 0 <= i < |es| ==> es[i] == names[i] != 0
    ensures Entries(names) == es
  {
  }

  /** What the array holds after the filter: head is the common prefix readline has computed. */
  function Filtered(w: World, suffixes: seq<string>, es: seq<nat>): seq<nat>
    requires es != []
  {
    var kept := Kept(w, suffixes, es[1..]);
    if |es| == 1 then es
    else if |kept| <= 1 then kept
    else [es[0]] + kept
  }

  /** The array starts with head and the kept entries. */
  ghost predicate Starts(newnames: array<nat>, head: nat, kept: seq<nat>)
    reads newnames
  {
    && 1 + |kept| <= newnames.Length && newnames[0] == head
    && forall i :: 0 <= i < |kept| ==> newnames[1 + i] == kept[i]
  }

  class Filter {
    var suffixList: List
    const world: World
    var freed: multiset<nat>

    constructor (world: World)
      ensures this.world == world && suffixList == Nil && freed == multiset{}
    {
      this.world, suffixList, freed := world, Nil, multiset{};
    }

    /** common_set_suffix */
    method SetSuffix(l: List)
      modifies this`suffixList
      ensures suffixList == l
    {
      suffixList := l;
    }

    method Free(p: nat)
      modifies this`freed
      ensures freed == old(freed) + multiset{p}
    {
      freed := freed + multiset{p};
    }

    /** accept_suffix: 0 means accepted. */
    method AcceptSuffix(name: string) returns (r: int)
      ensures r == if Accepted(name, ToSeq(suffixList)) then 0 else 1
    {
      var sfl := suffixList;
      if sfl.Nil? {
        return 0;
      }
      ghost var all, k := ToSeq(suffixList), 0;
      while sfl.Cons?
        invariant k <= |all| && ToSeq(sfl) == all[k..]
        invariant forall i :: 0 <= i < k ==> !Contains(name, all[i])
        decreases sfl
      {
        assert all[k] == sfl.dir;
        if Contains(name, sfl.dir) {
          return 0;
        }
        sfl := sfl.next;
        k := k + 1;
      }
      r := 1;
    }

    /** The first loop: counts the entries after the first. */
    method CountNames(names: array<nat>) returns (n: nat)
      requires |Entries(names[..])| >= 1 && |Entries(names[..])| < names.Length
      ensures n == |Entries(names[..])|
    {
      ghost var es := Entries(names[..]);
      n := 1;
      while names[n] != 0
        invariant 1 <= n <= |es|
        decreases |es| - n
      {
        assert names[|es|] == 0;
        n := n + 1;
      }
    }

    /** Whether an entry survives; one that does not is freed. */
    method Consider(p: nat) returns (keep: bool)
      modifies this`freed
      ensures keep == Keeps(world, ToSeq(suffixList), p)
      ensures freed == if keep then old(freed) else old(freed) + multiset{p}
    {
      var accepted := AcceptSuffix(world.text(p));
      keep := accepted == 0 || world.isDir(world.text(p));
      if !keep {
        Free(p);
      }
    }

    /** Body of the second loop: an accepted entry moves to the new array, any other is freed. */
    method CollectOne(p: nat, newnames: array<nat>, nidx: nat, ghost head: nat, ghost kept: seq<nat>) returns (next: nat)
      requires nidx == 1 + |kept| < newnames.Length && Starts(newnames, head, kept)
      modifies this`freed, newnames
      ensures var kept' := if Keeps(world, ToSeq(suffixList), p) then kept + [p] else kept;
              && next == 1 + |kept'| && Starts(newnames, head, kept')
      ensures freed == if Keeps(world, ToSeq(suffixList), p) then old(freed) else old(freed) + multiset{p}
    {
      var keep := Consider(p);
      next := nidx;
      if keep {
        newnames[nidx] := p;
        next := nidx + 1;
      }
    }

    method CollectNext(p: nat, newnames: array<nat>, nidx: nat, ghost es: seq<nat>, ghost idx: nat, ghost kept: seq<nat>,
                       ghost start: multiset<nat>) returns (next: nat, ghost kept': seq<nat>)
      requires nidx == 1 + |kept| <= idx < |es| < newnames.Length && p == es[idx]
      requires Collected(world, ToSeq(suffixList), es, idx, kept, start, freed) && Starts(newnames, es[0], kept)
      modifies this`freed, newnames
      ensures next == 1 + |kept'| <= idx + 1
      ensures Collected(world, ToSeq(suffixList), es, idx + 1, kept', start, freed) && Starts(newnames, es[0], kept')
    {
      ghost var before := freed;
      next := CollectOne(p, newnames, nidx, es[0], kept);
      CollectStep(world, ToSeq(suffixList), es, idx, kept, start, before, freed);
      kept' := if Keeps(world, ToSeq(suffixList), p) then kept + [p] else kept;
    }

    /** The second loop: collects the survivors in a new array, behind the common prefix. */
    method Collect(names: array<nat>, newnames: array<nat>, ghost es: seq<nat>) returns (nidx: nat)
      requires names != newnames && newnames.Length == |es| + 1
      requires 1 <= |es| < names.Length && names[|es|] == 0 && forall i :: 0 <= i < |es| ==> names[i] == es[i] != 0
      modifies this`freed, newnames
      ensures var kept := Kept(world, ToSeq(suffixList), es[1..]);
              && nidx == 1 + |kept| && Starts(newnames, es[0], kept) && nidx < newnames.Length && newnames[nidx] == 0
              && freed + multiset(kept) == old(freed) + multiset(es[1..])
    {
      ghost var sfx, kept, start := ToSeq(suffixList), [], freed;
      newnames[0] := names[0];
      nidx := 1;
      var idx := 1;
      while names[idx] != 0
        invariant 1 <= idx <= |es| && nidx == 1 + |kept| <= idx
        invariant Collected(world, sfx, es, idx, kept, start, freed) && Starts(newnames, es[0], kept)
        decreases |es| - idx
      {
        assert idx < |es|;
        nidx, kept := CollectNext(names[idx], newnames, nidx, es, idx, kept, start);
        idx := idx + 1;
      }
      assert es[1..idx] == es[1..];
      newnames[nidx] := 0;
    }

    /** filename_completion_ignore. The new contents are the filtered ones, and every string that was
        in the array is afterwards either there once or freed once. */
    method FilenameCompletionIgnore(names: array<nat>) returns (ret: int)
      requires 1 <= |Entries(names[..])| < names.Length
      modifies this`freed, names
      ensures var before, after := Entries(old(names[..])), Entries(names[..]);
              && after == Filtered(world, ToSeq(suffixList), before)
              && freed + multiset(after) == old(freed) + multiset(before)
              && ret == (if |after| > 1 then 0 else -1)
    {
      ghost var es, sfx := Entries(names[..]), ToSeq(suffixList);
      if names[1] == 0 {
        return -1;
      }
      var n := CountNames(names);
      var newnames := new nat[n + 1](_ => 0);
      ghost var kept := Kept(world, sfx, es[1..]);
      KeptAreNames(world, sfx, es[1..]);
      var nidx := Collect(names, newnames, es);
      ghost var collected := freed;
      ret := Install(names, newnames, nidx, es[0], kept);
      Accounted(es, kept, old(freed), collected);
    }

    /** The three endings: no survivor, one, or several. */
    method Install(names: array<nat>, newnames: array<nat>, nidx: nat, ghost head: nat, ghost kept: seq<nat>) returns (ret: int)
      requires names != newnames && nidx == 1 + |kept| < newnames.Length && nidx < names.Length
      requires Starts(newnames, head, kept) && newnames[nidx] == 0
      requires head != 0 && 0 !in kept && names[0] == head && names.Length >= 2
      modifies this`freed, names
      ensures Entries(names[..]) == if |kept| <= 1 then kept else [head] + kept
      ensures freed == if |kept| <= 1 then old(freed) + multiset{head} else old(freed)
      ensures ret == if |kept| > 1 then 0 else -1
    {
      if nidx == 1 {
        Free(names[0]);
        names[0] := 0;
        EntriesAre(names[..], kept);
        return -1;
      }
      if nidx == 2 {
        Free(names[0]);
        names[0] := newnames[1];
        names[1] := 0;
        EntriesAre(names[..], kept);
        return -1;
      }
      CopyBack(names, newnames, [head] + kept);
      EntriesAre(names[..], [head] + kept);
      ret := 0;
    }

    /** The last loop: copies the survivors back and ends the array after them. */
    method CopyBack(names: array<nat>, newnames: array<nat>, ghost es: seq<nat>)
      requires names != newnames && 1 <= |es| < newnames.Length && |es| < names.Length
      requires (forall i :: 0 <= i < |es| ==> newnames[i] == es[i] != 0) && newnames[|es|] == 0
      requires names[0] == es[0]
      modifies names
      ensures (forall i :: 0 <= i < |es| ==> names[i] == es[i]) && names[|es|] == 0
    {
      var nidx := 1;
      while newnames[nidx] != 0
        invariant 1 <= nidx <= |es|
        invariant forall i :: 0 <= i < nidx ==> names[i] == es[i]
        decreases |es| - nidx
      {
        names[nidx] := newnames[nidx];
        nidx := nidx + 1;
      }
      names[nidx] := 0;
    }
  }

  /** Before the endings the survivors and the freed account for all but the prefix; afterwards the
      prefix is accounted for too, freed or in front of the survivors. */
  lemma Accounted(es: seq<nat>, kept: seq<nat>, start: multiset<nat>, freed: multiset<nat>)
    requires es != [] && freed + multiset(kept) == start + multiset(es[1..])
    ensures freed + multiset{es[0]} + multiset(kept) == start + multiset(es)
    ensures freed + multiset([es[0]] + kept) == start + multiset(es)
  {
    HeadAndRest(es);
    HeadAndRest([es[0]] + kept);
    assert ([es[0]] + kept)[1..] == kept;
    Tally(start, freed, multiset(kept), multiset(es[1..]), es[0]);
  }

  lemma HeadAndRest(es: seq<nat>)
    requires es != []
    ensures multiset(es) == multiset{es[0]} + multiset(es[1..])
  {
    assert es == [es[0]] + es[1..];
  }

  /** A counted string keeps the books balanced whether it is freed or kept. */
  lemma Tally(start: multiset<nat>, freed: multiset<nat>, kept: multiset<nat>, seen: multiset<nat>, p: nat)
    requires freed + kept == start + seen
    ensures (freed + multiset{p}) + kept == start + (seen + multiset{p})
    ensures freed + (kept + multiset{p}) == start + (seen + multiset{p})
  {
    assert (freed + multiset{p}) + kept == (freed + kept) + multiset{p};
    assert freed + (kept + multiset{p}) == (freed + kept) + multiset{p};
    assert start + (seen + multiset{p}) == (start + seen) + multiset{p};
  }

  /** The state after the entries before idx: the survivors, and every one of them kept or freed. */
  ghost predicate Collected(w: World, suffixes: seq<string>, es: seq<nat>, idx: nat, kept: seq<nat>,
                            start: multiset<nat>, freed: multiset<nat>)
  {
    && 1 <= idx <= |es| && kept == Kept(w, suffixes, es[1..idx])
    && freed + multiset(kept) == start + multiset(es[1..idx])
  }

  lemma CollectStep(w: World, suffixes: seq<string>, es: seq<nat>, idx: nat, kept: seq<nat>,
                    start: multiset<nat>, before: multiset<nat>, freed: multiset<nat>)
    requires idx < |es| && Collected(w, suffixes, es, idx, kept, start, before)
    requires freed == if Keeps(w, suffixes, es[idx]) then before else before + multiset{es[idx]}
    ensures Collected(w, suffixes, es, idx + 1, if Keeps(w, suffixes, es[idx]) then kept + [es[idx]] else kept, start, freed)
  {
    assert es[1..idx + 1] == es[1..idx] + [es[idx]];
    KeptInOrder(w, suffixes, es[1..idx], [es[idx]]);
    assert [es[idx]][1..] == [];
    Tally(start, before, multiset(kept), multiset(es[1..idx]), es[idx]);
  }

  /** Exactly the acceptable names survive. */
  lemma {:induction false} KeptAreNames(w: World, suffixes: seq<string>, ps: seq<nat>)
    ensures forall p :: p in Kept(w, suffixes, ps) <==> p in ps && Keeps(w, suffixes, p)
    ensures |Kept(w, suffixes, ps)| <= |ps|
  {
    if ps != [] {
      KeptAreNames(w, suffixes, ps[1..]);
    }
  }

  /** They keep their order: filtering two lists one behind the other is filtering each. */
  lemma {:induction false} KeptInOrder(w: World, suffixes: seq<string>, a: seq<nat>, b: seq<nat>)
    ensures Kept(w, suffixes, a + b) == Kept(w, suffixes, a) + Kept(w, suffixes, b)
  {
    if a == [] {
      assert a + b == b;
    } else {
      assert (a + b)[1..] == a[1..] + b;
      KeptInOrder(w, suffixes, a[1..], b);
    }
  }

  /** A list all of whose members are kept is kept as it is. */
  lemma {:induction false} KeptAll(w: World, suffixes: seq<string>, ps: seq<nat>)
    requires forall i :: 0 <= i < |ps| ==> Keeps(w, suffixes, ps[i])
    ensures Kept(w, suffixes, ps) == ps
  {
    if ps != [] {
      KeptAll(w, suffixes, ps[1..]);
    }
  }

  /** A sole candidate stays, acceptable or not; otherwise nothing is left exactly if no candidate is acceptable. */
  lemma SoleCandidateStays(w: World, suffixes: seq<string>, es: seq<nat>)
    requires es != []
    ensures |es| == 1 ==> Filtered(w, suffixes, es) == es
    ensures Filtered(w, suffixes, es) == [] <==> |es| > 1 && forall i :: 1 <= i < |es| ==> !Keeps(w, suffixes, es[i])
  {
    KeptAreNames(w, suffixes, es[1..]);
    if Kept(w, suffixes, es[1..]) != [] {
      assert Kept(w, suffixes, es[1..])[0] in es[1..];
    }
    forall i | 1 <= i < |es| && Keeps(w, suffixes, es[i]) ensures Kept(w, suffixes, es[1..]) != [] {
      assert es[i] == es[1..][i - 1];
      assert es[i] in Kept(w, suffixes, es[1..]);
    }
  }

  /** With at least one survivor a second run of the filter changes nothing. */
  lemma FilterIdempotent(w: World, suffixes: seq<string>, es: seq<nat>)
    requires es != [] && Filtered(w, suffixes, es) != []
    ensures Filtered(w, suffixes, Filtered(w, suffixes, es)) == Filtered(w, suffixes, es)
  {
    var kept := Kept(w, suffixes, es[1..]);
    if |es| > 1 && |kept| > 1 {
      KeptAreNames(w, suffixes, es[1..]);
      KeptAll(w, suffixes, kept);
      assert ([es[0]] + kept)[1..] == kept;
    }
  }

  lemma AcceptedBySome(name: string, fields: seq<string>)
    ensures Accepted(name, Reverse(fields)) <==> fields == [] || exists f :: f in fields && Contains(name, f)
  {
    var rev := Reverse(fields);
    if f :| f in fields && Contains(name, f) {
      var i :| 0 <= i < |fields| && fields[i] == f;
      assert rev[|fields| - 1 - i] == f;
    }
    if i :| 0 <= i < |rev| && Contains(name, rev[i]) {
      assert rev[i] == fields[|fields| - 1 - i];
    }
  }

  /** With the suffixes configured as the string s, a name survives exactly if it is a directory, or
      s has no non-empty field, or one of them occurs in the name; the order path_split leaves the
      fields in does not matter. */
  lemma SuffixConfiguration(w: World, l: List, s: string, p: nat)
    requires ToSeq(l) == Reverse(NonEmpty(Fields(s)))
    ensures Keeps(w, ToSeq(l), p) <==>
              || w.isDir(w.text(p))
              || (forall f :: f in Fields(s) ==> f == "")
              || (exists f :: f in Fields(s) && f != "" && Contains(w.text(p), f))
  {
    var fields, name := NonEmpty(Fields(s)), w.text(p);
    AcceptedBySome(name, fields);
    forall f ensures f in fields <==> f in Fields(s) && f != "" {
      NonEmptyMember(Fields(s), f);
    }
    if fields != [] {
      assert fields[0] in fields;
    }
  }
}
