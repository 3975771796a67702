/** The search path from its configured text to the file a PACKET_OPEN request ends up with. */
module SearchPath {
  import opened Bytes
  import opened Lists
  import Completion
  import Naplink

  function InDir(open: string -> int, dir: string, path: string): int {
    open(dir + "/" + path)
  }

  /** The bare name wins over every directory, a later directory over an earlier one. */
  ghost predicate LaterWins(open: string -> int, path: string, dirs: seq<string>, rv: int) {
    && (open(path) != -1 ==> rv == open(path))
    && (forall i :: 0 <= i < |dirs| && open(path) == -1 && InDir(open, dirs[i], path) != -1
                    && (forall j :: i < j < |dirs| ==> InDir(open, dirs[j], path) == -1)
                    ==> rv == InDir(open, dirs[i], path))
    && (rv == -1 <==> open(path) == -1 && forall i :: 0 <= i < |dirs| ==> InDir(open, dirs[i], path) == -1)
  }

  /** Trying the bare name and then the directories from the back, from the one before `n` on. */
  function TryBackwards(open: string -> int, path: string, dirs: seq<string>, n: nat): int
    requires n <= |dirs|
  {
    if n == 0 then -1
    else if InDir(open, dirs[n - 1], path) != -1 then InDir(open, dirs[n - 1], path)
    else TryBackwards(open, path, dirs, n - 1)
  }

  lemma {:induction false} BackwardsIs(open: string -> int, path: string, dirs: seq<string>, n: nat)
    requires n <= |dirs|
    ensures var rv := TryBackwards(open, path, dirs, n);
            && (forall i :: 0 <= i < n && InDir(open, dirs[i], path) != -1
                            && (forall j :: i < j < n ==> InDir(open, dirs[j], path) == -1)
                            ==> rv == InDir(open, dirs[i], path))
            && (rv == -1 <==> forall i :: 0 <= i < n ==> InDir(open, dirs[i], path) == -1)
  {
    if n > 0 {
      BackwardsIs(open, path, dirs, n - 1);
    }
  }

  lemma {:induction false} CandidatesBackwards(open: string -> int, path: string, dirs: seq<string>, names: seq<string>, n: nat)
    requires n <= |dirs| && |names| == n
    requires forall k :: 0 <= k < n ==> names[k] == dirs[n - 1 - k] + "/" + path
    ensures Naplink.TryAll(open, names) == TryBackwards(open, path, dirs, n)
  {
    if n > 0 {
      CandidatesBackwards(open, path, dirs, names[1..], n - 1);
    }
  }

  /** With the path configured as the string s, empty fields are never tried and the reply is -1
      exactly if nothing can be opened. */
  lemma LaterDirectoriesWin(e: Naplink.Engine, s: string, b: seq<byte>, os: Naplink.Os)
    requires ToSeq(e.paths) == Completion.Reverse(Completion.NonEmpty(Completion.Fields(s)))
    requires Naplink.CStringAt(b, 4) != Naplink.TTY
    ensures LaterWins(Naplink.Opener(os, Naplink.HostFlags(Naplink.FieldAt(b, 0))), Naplink.CStringAt(b, 4),
                      Completion.NonEmpty(Completion.Fields(s)), Naplink.OpenResult(e, b, os))
  {
    var dirs, path := Completion.NonEmpty(Completion.Fields(s)), Naplink.CStringAt(b, 4);
    var open := Naplink.Opener(os, Naplink.HostFlags(Naplink.FieldAt(b, 0)));
    var names := Naplink.Candidates(path, ToSeq(e.paths));
    CandidatesBackwards(open, path, dirs, names[1..], |dirs|);
    BackwardsIs(open, path, dirs, |dirs|);
    assert names[0] == path;
  }
}
