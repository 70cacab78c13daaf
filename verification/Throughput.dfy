/** How much one cycle of the drain loop of src/app/TelemSwc gets done. */
module Throughput {
  import opened Base
  import opened FsFrame
  import opened FsAbs
  import opened StoreForward
  import opened TelemSwc

  ghost predicate Ready(w: World) {
    Inv(w) && w.phase.Idle?
  }

  /** The outcome of one pass, and the state after it. */
  ghost function PassOf(w: World, a: Answer): (r: (World, Outcome))
    requires Ready(w)
    ensures Ready(r.0)
  {
    var phase := Step(w, ReadEvent(a.io)).phase;
    PassRuns(w, a);
    (Run(w, PassEvents(phase, a)), PassOutcome(phase, a))
  }

  /** One pass for each answer, whatever the passes come to. */
  ghost function After(w: World, answers: seq<Answer>): World
    requires Ready(w)
    decreases |answers|
  {
    if answers == [] then w else After(PassOf(w, answers[0]).0, answers[1..])
  }

  ghost function Outcomes(w: World, answers: seq<Answer>): (os: seq<Outcome>)
    requires Ready(w)
    ensures |os| == |answers|
    decreases |answers|
  {
    if answers == [] then []
    else var (v, o) := PassOf(w, answers[0]); [o] + Outcomes(v, answers[1..])
  }

  function Count(os: seq<Outcome>, o: Outcome): nat {
    if os == [] then 0 else (if os[0] == o then 1 else 0) + Count(os[1..], o)
  }

  /** No pass has ended the cycle: none stopped, and there were fewer than four records and two skips. */
  predicate GoesOn(os: seq<Outcome>, published: nat, skipped: nat) {
    Stopped !in os && published + Count(os, Published) < 4 && skipped + Count(os, Skipped) < 2
  }

  /** The passes of a cycle: it goes on before the last of them, and ends with it. */
  predicate IsCycle(os: seq<Outcome>, published: nat, skipped: nat) {
    os != [] && GoesOn(os[..|os| - 1], published, skipped) && !GoesOn(os, published, skipped)
  }

  lemma CycleIsOne(o: Outcome, published: nat, skipped: nat)
    requires published < 4 && skipped < 2
    requires o == Stopped || (o == Published && published == 3) || (o == Skipped && skipped == 1)
    ensures IsCycle([o], published, skipped)
  {
    assert [o][..0] == [] && [o][1..] == [];
    if o == Stopped { assert Stopped in [o]; }
  }

  lemma CycleIsMore(o: Outcome, rest: seq<Outcome>, published: nat, skipped: nat)
    requires o != Stopped
    requires IsCycle(rest, published + (if o == Published then 1 else 0), skipped + (if o == Skipped then 1 else 0))
    ensures IsCycle([o] + rest, published, skipped)
  {
    var os := [o] + rest;
    GoesOnCons(o, rest, published, skipped);
    GoesOnCons(o, rest[..|rest| - 1], published, skipped);
    assert os[..|os| - 1] == [o] + rest[..|rest| - 1];
  }

  lemma GoesOnCons(o: Outcome, rest: seq<Outcome>, published: nat, skipped: nat)
    requires o != Stopped
    ensures GoesOn([o] + rest, published, skipped)
       <==> GoesOn(rest, published + (if o == Published then 1 else 0), skipped + (if o == Skipped then 1 else 0))
  {
    assert ([o] + rest)[1..] == rest;
  }

  lemma {:induction false} CycleFrom(w: World, answers: seq<Answer>, published: nat, skipped: nat) returns (n: nat)
    requires Ready(w) && |answers| == READS_PER_CYCLE && published < 4 && skipped < 2
    ensures published + skipped + n <= 5
    ensures var used := answers[published + skipped..published + skipped + n];
            Cycle(w, answers, published, skipped) == After(w, used) && IsCycle(Outcomes(w, used), published, skipped)
    decreases 6 - published - skipped
  {
    hide Inv, Step, Run, PassEvents, PassOutcome, IsCycle;
    var i := published + skipped;
    var (v, o) := PassOf(w, answers[i]);
    CycleUnfolds(w, answers, published, skipped);
    if o == Stopped || (o == Published && published == 3) || (o == Skipped && skipped == 1) {
      n := 1;
      assert answers[i..i + 1] == [answers[i]];
      OnePass(w, answers[i]);
      CycleIsOne(o, published, skipped);
    } else {
      var p, s := published + (if o == Published then 1 else 0), skipped + (if o == Skipped then 1 else 0);
      var k := CycleFrom(v, answers, p, s);
      n := 1 + k;
      var used := answers[i + 1..i + 1 + k];
      assert answers[i..i + n] == [answers[i]] + used;
      MorePasses(w, answers[i], used);
      CycleIsMore(o, Outcomes(v, used), published, skipped);
    }
  }

  lemma CycleUnfolds(w: World, answers: seq<Answer>, published: nat, skipped: nat)
    requires Ready(w) && |answers| == READS_PER_CYCLE && published < 4 && skipped < 2
    ensures var (v, o) := PassOf(w, answers[published + skipped]);
            Cycle(w, answers, published, skipped)
            == if o == Stopped || (o == Published && published == 3) || (o == Skipped && skipped == 1) then v
               else if o == Published then Cycle(v, answers, published + 1, skipped)
               else Cycle(v, answers, published, skipped + 1)
  {
    hide Inv, Step, Run, PassEvents, PassOutcome;
  }

  lemma OnePass(w: World, a: Answer)
    requires Ready(w)
    ensures After(w, [a]) == PassOf(w, a).0 && Outcomes(w, [a]) == [PassOf(w, a).1]
  {
    hide Inv, PassOf;
    assert [a][1..] == [];
  }

  lemma MorePasses(w: World, a: Answer, rest: seq<Answer>)
    requires Ready(w)
    ensures var (v, o) := PassOf(w, a);
            After(w, [a] + rest) == After(v, rest) && Outcomes(w, [a] + rest) == [o] + Outcomes(v, rest)
  {
    hide Inv, PassOf;
    assert ([a] + rest)[1..] == rest;
  }

  /**
   * A cycle makes one pass after the other until one stops, the fourth record has gone out or the second damaged line
   * has been passed over, whichever comes first, and ends there; that takes at most five passes.
   */
  lemma CycleIsMaximal(w: World, answers: seq<Answer>) returns (n: nat)
    requires Ready(w) && |answers| == READS_PER_CYCLE
    ensures 1 <= n <= 5 && Cycle(w, answers, 0, 0) == After(w, answers[..n])
    ensures var os := Outcomes(w, answers[..n]);
            && (forall k :: 0 <= k < n - 1 ==> os[k] != Stopped)
            && Count(os[..n - 1], Published) < 4 && Count(os[..n - 1], Skipped) < 2
            && (os[n - 1] == Stopped || Count(os, Published) == 4 || Count(os, Skipped) == 2)
  {
    hide Inv, Step, Run, PassEvents, PassOutcome, PassOf, After;
    n := CycleFrom(w, answers, 0, 0);
    var os := Outcomes(w, answers[..n]);
    assert os == Outcomes(w, answers[0..n]);
    CountSnoc(os[..n - 1], os[n - 1], Published);
    CountSnoc(os[..n - 1], os[n - 1], Skipped);
    assert os == os[..n - 1] + [os[n - 1]];
    forall k | 0 <= k < n - 1
      ensures os[k] != Stopped
    {
      assert os[k] in os[..n - 1];
    }
  }

  lemma {:induction false} CountSnoc(os: seq<Outcome>, last: Outcome, o: Outcome)
    ensures Count(os + [last], o) == Count(os, o) + (if last == o then 1 else 0)
  {
    if os == [] {
      assert [] + [last] == [last] && [last][1..] == [];
    } else {
      assert (os + [last])[1..] == os[1..] + [last] && (os + [last])[0] == os[0];
      CountSnoc(os[1..], last, o);
    }
  }

  /**
   * What a pass comes to: a record goes out exactly when one is read and the publish accepted, and the pass counts as
   * published when the advance was stored as well; it is a skip exactly when the line read is damaged.
   */
  lemma OutcomeTells(w: World, a: Answer)
    requires Ready(w)
    ensures var (v, o) := PassOf(w, a); var status := Read(w.fs, 2304, a.io).status;
            && |v.h.accepted| == |w.h.accepted| + (if status == E_OK && a.accepted then 1 else 0)
            && (o == Published <==> status == E_OK && a.accepted && a.stored)
            && (o == Skipped <==> status == E_CRC_FAIL)
  {
    hide Inv, Read, Run, Advanced, Allowed;
    PassRuns(w, a);
  }
}
