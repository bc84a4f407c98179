/** Removing finished child processes from the list that is being iterated (BSSBase.cleanup,
    lib/BSSCommon.py). */
module Reaper {

  /** list.remove: the first occurrence goes. */
  function RemoveFirst(pids: seq<int>, pid: int): seq<int> {
    if pids == [] then [] else if pids[0] == pid then pids[1..] else [pids[0]] + RemoveFirst(pids[1..], pid)
  }

  function Live(pids: seq<int>, alive: set<int>): seq<int> {
    if pids == [] then [] else (if pids[0] in alive then [pids[0]] else []) + Live(pids[1..], alive)
  }

  /** How many entries of the list are finished. */
  function Finished(pids: seq<int>, alive: set<int>): nat {
    if pids == [] then 0 else (if pids[0] in alive then 0 else 1) + Finished(pids[1..], alive)
  }

  /** One pass: a finished entry goes, and the iterator then steps over the entry behind it. */
  function Sweep(pids: seq<int>, alive: set<int>): seq<int> {
    if pids == [] then []
    else if pids[0] in alive then [pids[0]] + Sweep(pids[1..], alive)
    else if |pids| == 1 then []
    else [pids[1]] + Sweep(pids[2..], alive)
  }

  predicate Distinct(pids: seq<int>) {
    forall i, j :: 0 <= i < j < |pids| ==> pids[i] != pids[j]
  }

  lemma {:induction false} RemoveFirstAt(pids: seq<int>, i: nat)
    requires i < |pids| && Distinct(pids)
    ensures RemoveFirst(pids, pids[i]) == pids[..i] + pids[i + 1..]
  {
    if i > 0 {
      RemoveFirstAt(pids[1..], i - 1);
      assert pids[1..][..i - 1] == pids[1..i];
    }
  }

  lemma {:induction false} RemoveFirstKeepsLive(pids: seq<int>, pid: int, alive: set<int>)
    requires pid !in alive
    ensures Live(RemoveFirst(pids, pid), alive) == Live(pids, alive)
    ensures pid in pids ==> |RemoveFirst(pids, pid)| == |pids| - 1
  {
    if pids != [] && pids[0] != pid {
      RemoveFirstKeepsLive(pids[1..], pid, alive);
    }
  }

  /** The outcome of a pass that has come to index i. */
  ghost function Outcome(pids: seq<int>, i: nat, alive: set<int>): seq<int> {
    if i <= |pids| then pids[..i] + Sweep(pids[i..], alive) else pids
  }

  lemma OutcomePastLive(pids: seq<int>, i: nat, alive: set<int>)
    requires i < |pids| && pids[i] in alive
    ensures Outcome(pids, i, alive) == Outcome(pids, i + 1, alive)
  {
    var rest := pids[i..];
    assert rest[1..] == pids[i + 1..];
    assert pids[..i + 1] == pids[..i] + [pids[i]];
  }

  lemma OutcomePastFinished(pids: seq<int>, after: seq<int>, i: nat, alive: set<int>)
    requires i < |pids| && pids[i] !in alive
    requires after == pids[..i] + pids[i + 1..]
    ensures Outcome(pids, i, alive) == Outcome(after, i + 1, alive)
  {
    var rest := pids[i..];
    if i + 1 < |pids| {
      assert rest[2..] == after[i + 1..];
      assert after[..i + 1] == pids[..i] + [rest[1]];
      var tail := Sweep(rest[2..], alive);
      assert Sweep(rest, alive) == [rest[1]] + tail;
      assert pids[..i] + ([rest[1]] + tail) == (pids[..i] + [rest[1]]) + tail;
    }
  }

  lemma LiveCons(pid: int, rest: seq<int>, alive: set<int>)
    ensures Live([pid] + rest, alive) == (if pid in alive then [pid] else []) + Live(rest, alive)
  {
    assert ([pid] + rest)[1..] == rest;
  }

  /** Children that are all running at a clean-up survive it, in order. */
  lemma {:induction false} LiveOfLive(pids: seq<int>, alive: set<int>, some: set<int>)
    requires some <= alive
    ensures Live(Live(pids, alive), some) == Live(pids, some)
  {
    if pids == [] {
      assert Live(pids, alive) == [];
    } else {
      var pid, rest := pids[0], pids[1..];
      assert pids == [pid] + rest;
      LiveOfLive(rest, alive, some);
      LiveCons(pid, rest, alive);
      LiveCons(pid, rest, some);
      LiveCons(pid, Live(rest, alive), some);
      hide Live;
      assert [] + Live(rest, alive) == Live(rest, alive);
      assert pid !in alive ==> [] + Live(rest, some) == Live(rest, some);
    }
  }

  lemma {:induction false} LiveOfConcat(a: seq<int>, b: seq<int>, alive: set<int>)
    ensures Live(a + b, alive) == Live(a, alive) + Live(b, alive)
  {
    if a == [] {
      assert a + b == b;
    } else {
      var pid, rest := a[0], a[1..];
      assert a == [pid] + rest && a + b == [pid] + (rest + b);
      LiveOfConcat(rest, b, alive);
      LiveCons(pid, rest + b, alive);
      LiveCons(pid, rest, alive);
      hide Live;
      var own := if pid in alive then [pid] else [];
      assert own + (Live(rest, alive) + Live(b, alive)) == own + Live(rest, alive) + Live(b, alive);
    }
  }

  class Children {
    var pids: seq<int>

    constructor (pids: seq<int>)
      ensures this.pids == pids
    {
      this.pids := pids;
    }

    method Add(more: seq<int>)
      modifies this
      ensures pids == old(pids) + more
    {
      pids := pids + more;
    }

    /** One pass; alive holds the pids for which waitpid reports a running child. */
    method Cleanup(alive: set<int>)
      modifies this
      ensures Live(pids, alive) == Live(old(pids), alive)
      ensures Distinct(old(pids)) ==> pids == Sweep(old(pids), alive)
    {
      ghost var start := pids;
      ghost var distinct := Distinct(pids);
      var i := 0;
      assert pids[..0] + Sweep(pids[0..], alive) == Sweep(pids, alive) by { assert pids[0..] == pids; }
      while i < |pids|
        invariant 0 <= i <= |pids| + 1
        invariant Live(pids, alive) == Live(start, alive)
        invariant distinct ==> Distinct(pids) && Outcome(pids, i, alive) == Sweep(start, alive)
        decreases |pids| - i
      {
        var pid := pids[i];
        if pid !in alive {
          if distinct {
            RemoveFirstAt(pids, i);
            OutcomePastFinished(pids, RemoveFirst(pids, pid), i, alive);
          }
          RemoveFirstKeepsLive(pids, pid, alive);
          pids := RemoveFirst(pids, pid);
        } else {
          OutcomePastLive(pids, i, alive);
        }
        i := i + 1;
      }
    }
  }

  /** A pass keeps every live child in order and leaves at most half of the finished ones. */
  lemma {:induction false} SweepHalves(pids: seq<int>, alive: set<int>)
    ensures Live(Sweep(pids, alive), alive) == Live(pids, alive)
    ensures Finished(Sweep(pids, alive), alive) <= Finished(pids, alive) / 2
  {
    if pids == [] {
    } else if pids[0] in alive {
      SweepHalves(pids[1..], alive);
    } else if |pids| > 1 {
      assert pids[1..][1..] == pids[2..];
      SweepHalves(pids[2..], alive);
    }
  }

  /** The bound is reached: of f finished children and nothing else, exactly f / 2 stay. */
  lemma {:induction false} SweepOfFinished(pids: seq<int>, alive: set<int>)
    requires Finished(pids, alive) == |pids|
    ensures |Sweep(pids, alive)| == Finished(Sweep(pids, alive), alive) == |pids| / 2
  {
    FinishedAtMostLength(pids, alive);
    if |pids| > 1 {
      FinishedAtMostLength(pids[1..], alive);
      FinishedAtMostLength(pids[1..][1..], alive);
      assert pids[1..][1..] == pids[2..];
      SweepOfFinished(pids[2..], alive);
    }
  }

  lemma FinishedAtMostLength(pids: seq<int>, alive: set<int>)
    ensures Finished(pids, alive) <= |pids|
  {
  }

  function Sweeps(k: nat, pids: seq<int>, alive: set<int>): seq<int> {
    if k == 0 then pids else Sweeps(k - 1, Sweep(pids, alive), alive)
  }

  function Pow2(k: nat): nat {
    if k == 0 then 1 else 2 * Pow2(k - 1)
  }

  lemma {:induction false} NoneFinished(pids: seq<int>, alive: set<int>)
    requires Finished(pids, alive) == 0
    ensures Live(pids, alive) == pids
  {
    if pids != [] {
      NoneFinished(pids[1..], alive);
    }
  }

  /** While no further child finishes, k passes with 2^k > f leave exactly the live children. */
  lemma {:induction false} EnoughSweeps(k: nat, pids: seq<int>, alive: set<int>)
    requires Finished(pids, alive) < Pow2(k)
    ensures Sweeps(k, pids, alive) == Live(pids, alive)
  {
    if k == 0 {
      NoneFinished(pids, alive);
    } else {
      SweepHalves(pids, alive);
      EnoughSweeps(k - 1, Sweep(pids, alive), alive);
    }
  }

  lemma {:induction false} SweepIsSubset(pids: seq<int>, alive: set<int>)
    ensures forall pid :: pid in Sweep(pids, alive) ==> pid in pids
  {
    if pids == [] {
    } else if pids[0] in alive {
      SweepIsSubset(pids[1..], alive);
    } else if |pids| > 1 {
      SweepIsSubset(pids[2..], alive);
    }
  }

  /** A pass over distinct pids leaves distinct pids, so that the next pass is a skipping pass again. */
  lemma {:induction false} SweepKeepsDistinct(pids: seq<int>, alive: set<int>)
    requires Distinct(pids)
    ensures Distinct(Sweep(pids, alive))
  {
    if pids == [] {
    } else if pids[0] in alive {
      SweepKeepsDistinct(pids[1..], alive);
      SweepIsSubset(pids[1..], alive);
      PrependedIsDistinct(pids[0], Sweep(pids[1..], alive));
    } else if |pids| > 1 {
      SweepKeepsDistinct(pids[2..], alive);
      SweepIsSubset(pids[2..], alive);
      PrependedIsDistinct(pids[1], Sweep(pids[2..], alive));
    }
  }

  lemma PrependedIsDistinct(pid: int, pids: seq<int>)
    requires Distinct(pids) && pid !in pids
    ensures Distinct([pid] + pids)
  {
  }

  /** The cleanups of k turns in which no further child starts or finishes: once 2^k exceeds the number
      of finished children, exactly the live ones are left. */
  method CleanupRepeatedly(children: Children, k: nat, alive: set<int>)
    requires Distinct(children.pids)
    modifies children
    ensures children.pids == Sweeps(k, old(children.pids), alive)
    ensures Finished(old(children.pids), alive) < Pow2(k) ==> children.pids == Live(old(children.pids), alive)
  {
    ghost var pids := children.pids;
    for i := 0 to k
      invariant Distinct(children.pids)
      invariant Sweeps(k - i, children.pids, alive) == Sweeps(k, pids, alive)
    {
      SweepKeepsDistinct(children.pids, alive);
      children.Cleanup(alive);
    }
    if Finished(pids, alive) < Pow2(k) {
      EnoughSweeps(k, pids, alive);
    }
  }
}
