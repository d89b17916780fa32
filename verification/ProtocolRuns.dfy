/** Building runs: joining schedules, a fresh system up to the moment its flight is led, and
    submitting all of a flight's tasks while one of them, or none, keeps its slot. */
module ProtocolRuns {
  import opened Prelude
  import opened Rules
  import opened Classification
  import opened Protocol

  /** A schedule in which only the runner's own parties move. */
  ghost predicate SystemOnly(steps: seq<Step>) {
    forall k :: 0 <= k < |steps| ==> !IsEnvironment(steps[k])
  }

  lemma {:induction false} ScheduleAppend(w: World, s: State, first: seq<Step>, second: seq<Step>)
    requires Schedule(w, s, first) && Schedule(w, After(w, s, first), second)
    ensures Schedule(w, s, first + second)
    ensures After(w, s, first + second) == After(w, After(w, s, first), second)
    decreases |first|
  {
    if first == [] {
      assert first + second == second;
    } else {
      assert (first + second)[1..] == first[1..] + second;
      ScheduleAppend(w, Apply(w, s, first[0]), first[1..], second);
    }
  }

  lemma SystemJoin(w: World, s: State, first: seq<Step>, mid: State, second: seq<Step>) returns (steps: seq<Step>)
    requires Schedule(w, s, first) && SystemOnly(first) && After(w, s, first) == mid
    requires Schedule(w, mid, second) && SystemOnly(second)
    ensures Schedule(w, s, steps) && SystemOnly(steps) && After(w, s, steps) == After(w, mid, second)
  {
    ScheduleAppend(w, s, first, second);
    steps := first + second;
  }

  /** Prefixing one step to a schedule. */
  lemma Then(w: World, s: State, step: Step, rest: seq<Step>)
    requires Admissible(w, step) && Enabled(w, s, step) && Schedule(w, Apply(w, s, step), rest)
    ensures Schedule(w, s, [step] + rest) && After(w, s, [step] + rest) == After(w, Apply(w, s, step), rest)
  {
    assert ([step] + rest)[1..] == rest;
  }

  /** One step of the runner's own in front of a run from the state it leads to. */
  lemma SystemThen(w: World, s: State, step: Step, next: State, rest: seq<Step>) returns (steps: seq<Step>)
    requires Enabled(w, s, step) && !IsEnvironment(step) && Apply(w, s, step) == next
    requires Schedule(w, next, rest) && SystemOnly(rest)
    ensures Schedule(w, s, steps) && SystemOnly(steps) && |steps| == |rest| + 1
    ensures After(w, s, steps) == After(w, next, rest)
  {
    Then(w, s, step, rest);
    steps := [step] + rest;
  }

  lemma SystemStepKeepsEnvironment(w: World, s: State, step: Step)
    requires Enabled(w, s, step) && !IsEnvironment(step)
    ensures var s' := Apply(w, s, step);
            s'.cancelled == s.cancelled && s'.poolOpen == s.poolOpen && |s'.calls| == |s.calls|
  {
  }

  lemma {:induction false} SystemStepsKeepEnvironment(w: World, s: State, steps: seq<Step>)
    requires Schedule(w, s, steps) && SystemOnly(steps)
    ensures After(w, s, steps).cancelled == s.cancelled && After(w, s, steps).poolOpen == s.poolOpen
    ensures |After(w, s, steps).calls| == |s.calls|
    decreases |steps|
  {
    if steps != [] {
      SystemStepKeepsEnvironment(w, s, steps[0]);
      SystemStepsKeepEnvironment(w, Apply(w, s, steps[0]), steps[1..]);
    }
  }

  /** A fresh system serving one request, up to the moment its flight is led. */
  lemma LeadFresh(w: World, rules: seq<Rule>, data: Bytes) returns (s: State, steps: seq<Step>)
    requires w.concurrent && Coherent(w.truth, rules) && MissingSet(rules, data, map[]) != []
    ensures Initial(w, s) && Schedule(w, s, steps)
    ensures var end := After(w, s, steps);
            && |end.flights| == 1 && Alone(end, end.flights[0])
            && end.flights[0].missing == MissingSet(rules, data, map[]) && end.flights[0].key == data
            && |end.calls| == 1 && end.calls[0].rules == rules && end.calls[0].data == data
            && end.calls[0].leads && end.calls[0].flight == Some(0) && end.calls[0].phase == Waiting
            && end.cancelled == {}
  {
    s := State(map[], [], [], map[], {}, true);
    var s1 := Apply(w, s, Start(rules, data));
    var s2 := Apply(w, s1, Read(0, true));
    assert s2.calls[0].Missing() == MissingSet(rules, data, map[]);
    var s3 := Apply(w, s2, Lead(0));
    steps := [Start(rules, data), Read(0, true), Lead(0)];
    assert Schedule(w, s2, [Lead(0)]) && After(w, s2, [Lead(0)]) == s3;
    assert steps[1..] == [Read(0, true), Lead(0)] && steps[1..][1..] == [Lead(0)];
    assert Schedule(w, s1, steps[1..]) && After(w, s1, steps[1..]) == s3;
  }

  /** The messages of the first j tasks, in order, except task i's. */
  function Others(fl: Flight, i: nat, j: nat): (items: seq<Item>)
    requires j <= |fl.missing|
    ensures |items| == if i < j then j - 1 else j
    ensures forall n :: 0 <= n < |items| ==> items[n] == WorkerItem(fl, if n < i then n else n + 1)
  {
    if j == 0 then [] else Others(fl, i, j - 1) + if j - 1 == i then [] else [WorkerItem(fl, j - 1)]
  }

  function Tasks(i: nat, j: nat): (workers: seq<Worker>)
    ensures |workers| == j
    ensures forall n :: 0 <= n < j ==> workers[n] == if n == i then Queued else Sent(false)
  {
    seq(j, n => if n == i then Queued else Sent(false))
  }

  /** The flight after j submissions when task i alone holds a slot and every other has sent. */
  function Overtaking(fl: Flight, i: nat, j: nat): Flight
    requires j <= |fl.missing|
  {
    fl.(stage := if j == |fl.missing| then Collecting else Evaluating, workers := Tasks(i, j), channel := Others(fl, i, j))
  }

  lemma {:induction false} AtMostOneTask(i: nat, j: nat)
    ensures Active(Tasks(i, j)) <= if i < j then 1 else 0
    decreases j
  {
    if j > 0 {
      assert Tasks(i, j)[..j - 1] == Tasks(i, j - 1);
      AtMostOneTask(i, j - 1);
    }
  }

  /** A single request for which one flight was just led, nobody was cancelled and the pool is open. */
  ghost predicate Alone(s: State, fl: Flight) {
    && |s.flights| == 1 && fl.leader == 0 && 0 !in s.cancelled && s.poolOpen
    && fl.stage == Evaluating && fl.workers == [] && fl.channel == [] && fl.received == 0
    && fl.results == map[] && fl.winner == None && fl.missing != []
  }

  /** A slot for the running task beside the held one, if task i is held at all. */
  predicate Roomy(w: World, fl: Flight, i: nat) {
    w.poolSize >= 2 || (w.poolSize == 1 && i >= |fl.missing|)
  }

  function With(s: State, fl: Flight): State { s.(flights := [fl]) }

  /** Submitting the held task, and submitting, running and sending any other. */
  lemma OvertakingFlights(fl: Flight, i: nat, j: nat)
    requires fl.stage == Evaluating && fl.workers == [] && fl.channel == [] && j < |fl.missing|
    ensures var submitted := Submitted(Overtaking(fl, i, j));
            && |submitted.workers| == j + 1 && submitted.workers[j] == Queued
            && (j == i ==> submitted == Overtaking(fl, i, j + 1))
            && (j != i ==>
                  Sending(submitted.(workers := submitted.workers[j := Matching]), j) == Overtaking(fl, i, j + 1))
  {
    var submitted, next := Submitted(Overtaking(fl, i, j)), Overtaking(fl, i, j + 1);
    if j == i {
      assert submitted.workers == next.workers;
    } else {
      var sent := Sending(submitted.(workers := submitted.workers[j := Matching]), j);
      assert sent.workers == next.workers;
      assert sent.channel == next.channel;
    }
  }

  lemma SubmitNext(w: World, s: State, fl: Flight, i: nat, j: nat) returns (steps: seq<Step>)
    requires w.concurrent && Alone(s, fl) && Roomy(w, fl, i) && j < |fl.missing|
    ensures Schedule(w, With(s, Overtaking(fl, i, j)), steps)
    ensures After(w, With(s, Overtaking(fl, i, j)), steps) == With(s, Overtaking(fl, i, j + 1))
    ensures SystemOnly(steps)
  {
    var now := Overtaking(fl, i, j);
    AtMostOneTask(i, j);
    assert [now][..0] == [];
    assert Busy([now]) == Active(now.workers);
    OvertakingFlights(fl, i, j);
    var submitted := Submitted(now);
    assert Apply(w, With(s, now), Submit(0)) == With(s, submitted);
    if j != i { RunTaskSchedule(w, s, submitted, j); }
    var rest: seq<Step> := if j == i then [] else RunTask(j);
    Then(w, With(s, now), Submit(0), rest);
    steps := [Submit(0)] + rest;
  }

  function RunTask(j: nat): seq<Step> { [Check(0, j)] + ([Send(0, j)] + []) }

  /** A queued task looks at its open context, matches and sends. */
  lemma RunTaskSchedule(w: World, s: State, fl: Flight, j: nat)
    requires fl.leader == 0 && 0 !in s.cancelled && fl.winner == None && !BodyOver(fl.stage)
    requires j < |fl.workers| && j < |fl.missing| && fl.workers[j] == Queued && |fl.channel| < |fl.missing|
    ensures Schedule(w, With(s, fl), RunTask(j))
    ensures After(w, With(s, fl), RunTask(j)) == With(s, Sending(fl.(workers := fl.workers[j := Matching]), j))
  {
    var matching := fl.(workers := fl.workers[j := Matching]);
    assert Apply(w, With(s, fl), Check(0, j)) == With(s, matching);
    assert Apply(w, With(s, matching), Send(0, j)) == With(s, Sending(matching, j));
    Then(w, With(s, matching), Send(0, j), []);
    Then(w, With(s, fl), Check(0, j), [Send(0, j)] + []);
  }

  /** The runner's own parties lead from one state to another. */
  ghost predicate LeadsTo(w: World, s: State, steps: seq<Step>, end: State) {
    Schedule(w, s, steps) && SystemOnly(steps) && After(w, s, steps) == end
  }

  lemma SubmitThenRest(w: World, s: State, fl: Flight, i: nat, j: nat, rest: seq<Step>, end: State) returns (steps: seq<Step>)
    requires w.concurrent && Alone(s, fl) && Roomy(w, fl, i) && j < |fl.missing|
    requires LeadsTo(w, With(s, Overtaking(fl, i, j + 1)), rest, end)
    ensures LeadsTo(w, With(s, Overtaking(fl, i, j)), steps, end)
  {
    var first := SubmitNext(w, s, fl, i, j);
    steps := SystemJoin(w, With(s, Overtaking(fl, i, j)), first, With(s, Overtaking(fl, i, j + 1)), rest);
  }

  lemma {:induction false} SubmitAll(w: World, s: State, fl: Flight, i: nat, j: nat) returns (steps: seq<Step>)
    requires w.concurrent && Alone(s, fl) && Roomy(w, fl, i) && j <= |fl.missing|
    ensures LeadsTo(w, With(s, Overtaking(fl, i, j)), steps, With(s, Overtaking(fl, i, |fl.missing|)))
    decreases |fl.missing| - j
  {
    if j == |fl.missing| {
      steps := [];
    } else {
      var rest := SubmitAll(w, s, fl, i, j + 1);
      steps := SubmitThenRest(w, s, fl, i, j, rest, With(s, Overtaking(fl, i, |fl.missing|)));
    }
  }
}
