/** The lock-free lazy caches of the JNI glue, under every interleaving of any number of threads.

`LazyGetClass` looks a class up once and caches the global reference in an atomic cell. A thread
that loses the race releases the reference it made. Each atomic access, the lookup and the release
in the destructor are separate steps; a schedule is any sequence of thread numbers.
*/
module LazyClass {

  import opened Common

  // Where a thread is inside LazyGetClass.
  datatype Thread =
    | Start
    | Missed                              // loaded null, about to look the class up
    | Holding(ref: nat)                   // owns a global reference, about to compare-and-swap
    | Losing(ref: nat, found: nat)        // lost the race, about to release its own reference
    | Done(result: nat)
  {
    predicate Holds(r: nat) {
      (Holding? || Losing?) && ref == r
    }

    // Own steps left, at most.
    function Rank(): nat {
      match this
      case Start => 4
      case Missed => 3
      case Holding(_) => 2
      case Losing(_, _) => 1
      case Done(_) => 0
    }
  }

  // The shared cell, the global references alive in the VM, the number made and the number of
  // writes to the cell.
  datatype State = State(threads: seq<Thread>, cell: Option<nat>, live: set<nat>, made: nat, writes: nat)

  function Init(n: nat): (s: State) {
    State(seq(n, _ => Start), None, {}, 0, 0)
  }

  function Step(s: State, t: nat): (s': State)
    requires t < |s.threads|
  {
    match s.threads[t]
    case Start =>
      s.(threads := s.threads[t := if s.cell.Some? then Done(s.cell.value) else Missed])
    case Missed =>
      s.(threads := s.threads[t := Holding(s.made)], live := s.live + {s.made}, made := s.made + 1)
    case Holding(r) =>
      if s.cell.None? then
        s.(threads := s.threads[t := Done(r)], cell := Some(r), writes := s.writes + 1)
      else
        s.(threads := s.threads[t := Losing(r, s.cell.value)])
    case Losing(r, found) =>
      s.(threads := s.threads[t := Done(found)], live := s.live - {r})
    case Done(_) => s
  }

  predicate ValidSchedule(n: nat, schedule: seq<nat>) {
    forall i :: 0 <= i < |schedule| ==> schedule[i] < n
  }

  function Run(n: nat, schedule: seq<nat>): (s: State)
    requires ValidSchedule(n, schedule)
    ensures |s.threads| == n
  {
    if schedule == [] then Init(n)
    else Step(Run(n, schedule[..|schedule| - 1]), schedule[|schedule| - 1])
  }

  ghost predicate Held(s: State, r: nat) {
    exists i :: 0 <= i < |s.threads| && s.threads[i].Holds(r)
  }

  // References are held by one thread each and never by the cell as well, the live ones are exactly
  // those held or cached, and every result is the cached reference.
  ghost predicate Inv(s: State) {
    && s.writes == (if s.cell.Some? then 1 else 0)
    && (forall r :: r in s.live <==> s.cell == Some(r) || Held(s, r))
    && (forall r :: r in s.live ==> r < s.made)
    && (forall i :: 0 <= i < |s.threads| && (s.threads[i].Holding? || s.threads[i].Losing?) ==>
          s.cell != Some(s.threads[i].ref))
    && (forall i, j :: 0 <= i < j < |s.threads| && (s.threads[i].Holding? || s.threads[i].Losing?) ==>
          !s.threads[j].Holds(s.threads[i].ref))
    && (forall i :: 0 <= i < |s.threads| && s.threads[i].Done? ==> s.cell == Some(s.threads[i].result))
    && (forall i :: 0 <= i < |s.threads| && s.threads[i].Losing? ==> s.cell == Some(s.threads[i].found))
  }

  // Who holds a reference after a step.
  lemma StepHeld(s: State, t: nat, r: nat)
    requires t < |s.threads|
    ensures Held(Step(s, t), r) <==>
      Step(s, t).threads[t].Holds(r) || exists i :: 0 <= i < |s.threads| && i != t && s.threads[i].Holds(r)
  {
    var s' := Step(s, t);
    assert forall i :: 0 <= i < |s.threads| && i != t ==> s'.threads[i] == s.threads[i];
  }

  lemma StepKeepsLive(s: State, t: nat, r: nat)
    requires Inv(s) && t < |s.threads|
    ensures var s' := Step(s, t); r in s'.live <==> s'.cell == Some(r) || Held(s', r)
  {
    var thread := s.threads[t];
    StepHeld(s, t, r);
    if thread.Holding? || thread.Losing? {
      assert thread.Holds(thread.ref);
    }
  }

  lemma StepKeepsInv(s: State, t: nat)
    requires Inv(s) && t < |s.threads|
    ensures Inv(Step(s, t))
  {
    var s' := Step(s, t);
    assert forall i :: 0 <= i < |s.threads| && i != t ==> s'.threads[i] == s.threads[i];
    if s.threads[t].Holding? || s.threads[t].Losing? {
      assert s.threads[t].Holds(s.threads[t].ref);
    }
    if s.threads[t].Missed? {
      assert forall i :: 0 <= i < |s.threads| ==> !s.threads[i].Holds(s.made);
    }
    forall r: nat ensures r in s'.live <==> s'.cell == Some(r) || Held(s', r) {
      StepKeepsLive(s, t, r);
    }
  }

  lemma {:induction false} RunKeepsInv(n: nat, schedule: seq<nat>)
    requires ValidSchedule(n, schedule)
    ensures Inv(Run(n, schedule))
    decreases |schedule|
  {
    if schedule != [] {
      RunKeepsInv(n, schedule[..|schedule| - 1]);
      StepKeepsInv(Run(n, schedule[..|schedule| - 1]), schedule[|schedule| - 1]);
    }
  }

  // Any number of threads, any interleaving: the cell is written at most once, every thread that
  // has returned got the reference stored there, and that reference is alive.
  lemma ReturnsAgree(n: nat, schedule: seq<nat>, t: nat)
    requires ValidSchedule(n, schedule) && t < n
    ensures var s := Run(n, schedule);
      && s.writes <= 1
      && (s.threads[t].Done? ==> s.cell == Some(s.threads[t].result) && s.threads[t].result in s.live)
  {
    RunKeepsInv(n, schedule);
  }

  // Once a value is in the cell it stays there.
  lemma {:induction false} CellIsStable(n: nat, before: seq<nat>, after: seq<nat>)
    requires ValidSchedule(n, before + after)
    ensures ValidSchedule(n, before)
    ensures Run(n, before).cell.Some? ==> Run(n, before + after).cell == Run(n, before).cell
    decreases |after|
  {
    assert forall i :: 0 <= i < |before| ==> (before + after)[i] == before[i];
    if after == [] {
      assert before + after == before;
    } else {
      var all := before + after;
      assert all[..|all| - 1] == before + after[..|after| - 1];
      CellIsStable(n, before, after[..|after| - 1]);
    }
  }

  // When all threads have returned, exactly one global reference is left: the cached one. Every
  // reference a losing thread made has been released.
  lemma OneReferenceSurvives(n: nat, schedule: seq<nat>)
    requires n > 0 && ValidSchedule(n, schedule)
    requires forall i :: 0 <= i < n ==> Run(n, schedule).threads[i].Done?
    ensures Run(n, schedule).cell.Some? && Run(n, schedule).writes == 1
    ensures Run(n, schedule).live == {Run(n, schedule).cell.value}
  {
    RunKeepsInv(n, schedule);
    var s := Run(n, schedule);
    assert s.threads[0].Done?;
    assert forall r :: !Held(s, r);
  }

  function Count(schedule: seq<nat>, t: nat): (c: nat) {
    if schedule == [] then 0
    else Count(schedule[..|schedule| - 1], t) + (if schedule[|schedule| - 1] == t then 1 else 0)
  }

  lemma {:induction false} StepsBoundRank(n: nat, schedule: seq<nat>, t: nat)
    requires ValidSchedule(n, schedule) && t < n
    ensures Run(n, schedule).threads[t].Rank() + Count(schedule, t) <= 4 || Run(n, schedule).threads[t].Done?
    decreases |schedule|
  {
    if schedule != [] {
      StepsBoundRank(n, schedule[..|schedule| - 1], t);
    }
  }

  // No thread waits for another: four own steps finish the call, whatever the others do.
  lemma WaitFree(n: nat, schedule: seq<nat>, t: nat)
    requires ValidSchedule(n, schedule) && t < n
    requires Count(schedule, t) >= 4
    ensures Run(n, schedule).threads[t].Done?
  {
    StepsBoundRank(n, schedule, t);
  }

  /* MethodID::LazyGet: load, look up, plain store. There is no compare-and-swap. */

  datatype Getter = Idle | Looking | Storing | Returned(id: nat)

  datatype Methods = Methods(getters: seq<Getter>, slot: Option<nat>)

  // `lookup[t]` is the identifier the VM gives thread t.
  function GetStep(lookup: seq<nat>, m: Methods, t: nat): (m': Methods)
    requires t < |m.getters| == |lookup|
  {
    match m.getters[t]
    case Idle => m.(getters := m.getters[t := if m.slot.Some? then Returned(m.slot.value) else Looking])
    case Looking => m.(getters := m.getters[t := Storing])
    case Storing => Methods(m.getters[t := Returned(lookup[t])], Some(lookup[t]))
    case Returned(_) => m
  }

  function GetRun(lookup: seq<nat>, schedule: seq<nat>): (m: Methods)
    requires ValidSchedule(|lookup|, schedule)
    ensures |m.getters| == |lookup|
  {
    if schedule == [] then Methods(seq(|lookup|, _ => Idle), None)
    else GetStep(lookup, GetRun(lookup, schedule[..|schedule| - 1]), schedule[|schedule| - 1])
  }

  ghost predicate Agree(lookup: seq<nat>) {
    forall i, j :: 0 <= i < |lookup| && 0 <= j < |lookup| ==> lookup[i] == lookup[j]
  }

  ghost predicate SameReturns(m: Methods) {
    forall i, j :: 0 <= i < |m.getters| && 0 <= j < |m.getters| && m.getters[i].Returned? && m.getters[j].Returned? ==>
      m.getters[i].id == m.getters[j].id
  }

  lemma {:induction false} ReturnsComeFromLookups(lookup: seq<nat>, schedule: seq<nat>)
    requires ValidSchedule(|lookup|, schedule)
    ensures var m := GetRun(lookup, schedule);
      && (m.slot.Some? ==> m.slot.value in lookup)
      && (forall i :: 0 <= i < |m.getters| && m.getters[i].Returned? ==> m.getters[i].id in lookup)
    decreases |schedule|
  {
    if schedule != [] {
      ReturnsComeFromLookups(lookup, schedule[..|schedule| - 1]);
    }
  }

  // Without the compare-and-swap all threads get the same identifier under every interleaving
  // exactly when the VM answers every lookup alike.
  lemma StoreIsEnoughIffLookupsAgree(lookup: seq<nat>)
    ensures Agree(lookup) <==>
            forall schedule | ValidSchedule(|lookup|, schedule) :: SameReturns(GetRun(lookup, schedule))
  {
    if Agree(lookup) {
      forall schedule | ValidSchedule(|lookup|, schedule)
        ensures SameReturns(GetRun(lookup, schedule))
      {
        ReturnsComeFromLookups(lookup, schedule);
      }
    } else {
      var i, j :| 0 <= i < |lookup| && 0 <= j < |lookup| && lookup[i] != lookup[j];
      var m := RaceOfTwo(lookup, i, j);
    }
  }

  lemma GetRunSnoc(lookup: seq<nat>, schedule: seq<nat>, t: nat)
    requires ValidSchedule(|lookup|, schedule) && t < |lookup|
    ensures ValidSchedule(|lookup|, schedule + [t])
    ensures GetRun(lookup, schedule + [t]) == GetStep(lookup, GetRun(lookup, schedule), t)
  {
    assert (schedule + [t])[..|schedule|] == schedule;
  }

  // Where a getter is after this many own steps, if it found the slot empty.
  function Stage(id: nat, steps: nat): (g: Getter) {
    if steps == 0 then Idle else if steps == 1 then Looking else if steps == 2 then Storing else Returned(id)
  }

  // Both load null before either stores.
  lemma RaceOfTwo(lookup: seq<nat>, i: nat, j: nat) returns (schedule: seq<nat>)
    requires i < |lookup| && j < |lookup| && lookup[i] != lookup[j]
    ensures ValidSchedule(|lookup|, schedule) && !SameReturns(GetRun(lookup, schedule))
  {
    schedule := [];
    for round := 0 to 3
      invariant ValidSchedule(|lookup|, schedule)
      invariant GetRun(lookup, schedule).getters[i] == Stage(lookup[i], round)
      invariant GetRun(lookup, schedule).getters[j] == Stage(lookup[j], round)
      invariant round < 3 ==> GetRun(lookup, schedule).slot == None
    {
      hide GetRun;
      GetRunSnoc(lookup, schedule, i);
      GetRunSnoc(lookup, schedule + [i], j);
      schedule := schedule + [i] + [j];
    }
  }
}
