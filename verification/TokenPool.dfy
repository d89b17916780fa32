/** Pooled token processing as a transition system: tokens are submitted in order until the pool
    rejects one; a task looks at the context, returns at once if it is done and calls the runner
    otherwise; tasks finish in any order and append under the mutex; and the appended actions are
    sorted by start. */
module TokenPool {
  import opened Prelude
  import opened Rules
  import opened Tokenizer
  import opened Rewriting

  /** What became of the Process call for a token. */
  datatype Reply = Unanswered | Answered(rule: Option<Rule>)

  /** One Anonymize call on the pooled path, with the replies its runner gave and the slots its
      token pool has for this call. */
  datatype Job = Job(content: Bytes, tokens: seq<Token>, replies: seq<Reply>, poolSize: nat)

  /** Tasks that have not looked at the context yet, that called the runner, that are still in that
      call, and that came back with a rule. */
  datatype State = State(
    submitted: nat, stopped: bool, queued: set<nat>, called: set<nat>, running: set<nat>, found: set<nat>,
    actions: seq<Action>, entities: set<Entity>, cancelled: bool, poolOpen: bool)

  datatype Step =
    | Submit
    | Reject
    | Look(task: nat)
    | Finish(task: nat)
    | Cancel
    | ClosePool

  ghost predicate ValidJob(job: Job) {
    Ordered(job.content, job.tokens) && |job.replies| == |job.tokens|
  }

  function Match(job: Job, i: nat): Option<Rule>
    requires i < |job.replies|
  {
    match job.replies[i]
    case Unanswered => None
    case Answered(rule) => rule
  }

  function JobAnswers(job: Job): (answers: Answers)
    ensures |answers| == |job.replies|
    ensures forall i :: 0 <= i < |answers| ==> answers[i] == Match(job, i)
  {
    seq(|job.replies|, i requires 0 <= i < |job.replies| => Match(job, i))
  }

  ghost predicate Enabled(job: Job, s: State, step: Step)
    requires ValidJob(job)
  {
    match step
    case Submit =>
      !s.stopped && s.poolOpen && s.submitted < |job.tokens| && |s.queued| + |s.running| < job.poolSize
    case Reject => !s.stopped && !s.poolOpen && s.submitted < |job.tokens|
    case Look(i) => i in s.queued
    case Finish(i) => i in s.running && i < |job.tokens| && job.replies[i].Answered?
    case Cancel => true
    case ClosePool => true
  }

  ghost function Apply(job: Job, s: State, step: Step): State
    requires ValidJob(job) && Enabled(job, s, step)
  {
    match step
    case Submit => s.(submitted := s.submitted + 1, queued := s.queued + {s.submitted})
    case Reject => s.(stopped := true)
    case Look(i) =>
      var looked := s.(queued := s.queued - {i});
      if s.cancelled then looked else looked.(called := s.called + {i}, running := s.running + {i})
    case Finish(i) =>
      var done := s.(running := s.running - {i});
      if Match(job, i).None? then done
      else
        var rule := Match(job, i).value;
        done.(found := s.found + {i}, actions := s.actions + [Action(job.tokens[i], rule.settings)],
              entities := s.entities + {rule.Entity()})
    case Cancel => s.(cancelled := true)
    case ClosePool => s.(poolOpen := false)
  }

  ghost const INITIAL := State(0, false, {}, {}, {}, {}, [], {}, false, true)

  ghost predicate Schedule(job: Job, s: State, steps: seq<Step>)
    requires ValidJob(job)
    decreases |steps|
  {
    steps == [] || (Enabled(job, s, steps[0]) && Schedule(job, Apply(job, s, steps[0]), steps[1..]))
  }

  ghost function After(job: Job, s: State, steps: seq<Step>): State
    requires ValidJob(job) && Schedule(job, s, steps)
    decreases |steps|
  {
    if steps == [] then s else After(job, Apply(job, s, steps[0]), steps[1..])
  }

  /** The wait group is empty and the token loop has ended. */
  ghost predicate Finished(job: Job, s: State) {
    s.queued == {} && s.running == {} && (s.stopped || s.submitted >= |job.tokens|)
  }

  /** Any result of sorting the appended actions by start. */
  ghost predicate SortedByStart(actions: seq<Action>, sorted: seq<Action>) {
    multiset(sorted) == multiset(actions) && WeaklyOrdered(sorted)
  }

  // ---- the actions of a set of tokens, in token order ----

  ghost predicate AllMatched(job: Job, chosen: set<nat>) {
    forall i :: i in chosen ==> i < |job.replies| && Match(job, i).Some?
  }

  ghost function Selected(job: Job, chosen: set<nat>, n: nat): seq<Action>
    requires ValidJob(job) && n <= |job.tokens| && AllMatched(job, chosen)
  {
    if n == 0 then []
    else if n - 1 in chosen then
      Selected(job, chosen, n - 1) + [Action(job.tokens[n - 1], Match(job, n - 1).value.settings)]
    else Selected(job, chosen, n - 1)
  }

  lemma {:induction false} SelectedInOrder(job: Job, chosen: set<nat>, n: nat)
    requires ValidJob(job) && n <= |job.tokens| && AllMatched(job, chosen)
    ensures var selected := Selected(job, chosen, n);
            && StrictlyOrdered(selected)
            && (n == 0 ==> selected == [])
            && (n > 0 ==> forall k :: 0 <= k < |selected| ==> selected[k].token.start <= job.tokens[n - 1].start)
  {
    if n > 0 {
      SelectedInOrder(job, chosen, n - 1);
      if n > 1 { assert job.tokens[n - 2].start < job.tokens[n - 1].start; }
    }
  }

  ghost predicate StrictlyOrdered(actions: seq<Action>) {
    forall i, j :: 0 <= i < j < |actions| ==> actions[i].token.start < actions[j].token.start
  }

  lemma {:induction false} SelectedAdd(job: Job, chosen: set<nat>, t: nat, n: nat)
    requires ValidJob(job) && n <= |job.tokens| && t < |job.tokens| && Match(job, t).Some? && t !in chosen
    requires AllMatched(job, chosen)
    ensures multiset(Selected(job, chosen + {t}, n))
         == multiset(Selected(job, chosen, n))
            + if t < n then multiset{Action(job.tokens[t], Match(job, t).value.settings)} else multiset{}
  {
    if n > 0 {
      SelectedAdd(job, chosen, t, n - 1);
      var before, after := Selected(job, chosen, n - 1), Selected(job, chosen + {t}, n - 1);
      if n - 1 == t {
        assert Selected(job, chosen + {t}, n) == after + [Action(job.tokens[t], Match(job, t).value.settings)];
      } else if n - 1 in chosen {
        var last := Action(job.tokens[n - 1], Match(job, n - 1).value.settings);
        assert Selected(job, chosen, n) == before + [last] && Selected(job, chosen + {t}, n) == after + [last];
      }
    }
  }

  /** It is what a loop over the first n tokens collects when only the chosen ones' answers count. */
  lemma {:induction false} SelectedIsKept(job: Job, chosen: set<nat>, n: nat)
    requires ValidJob(job) && n <= |job.tokens| && AllMatched(job, chosen)
    ensures Selected(job, chosen, n) == MatchedActions(Kept(JobAnswers(job), chosen), job.tokens, n)
  {
    if n > 0 { SelectedIsKept(job, chosen, n - 1); }
  }

  lemma {:induction false} SelectedNone(job: Job, n: nat)
    requires ValidJob(job) && n <= |job.tokens|
    ensures Selected(job, {}, n) == []
  {
    if n > 0 { SelectedNone(job, n - 1); }
  }

  // ---- sorting ----

  lemma SplitHead(a: seq<Action>)
    requires a != []
    ensures multiset(a) == multiset{a[0]} + multiset(a[1..])
  {
    assert a == [a[0]] + a[1..];
  }

  lemma SameHead(a: seq<Action>, b: seq<Action>)
    requires a != [] && multiset(a) == multiset(b) && StrictlyOrdered(a) && WeaklyOrdered(b)
    ensures b != [] && a[0] == b[0]
  {
    assert a[0] in multiset(b);
    assert b[0] in multiset(a);
    var i :| 0 <= i < |a| && a[i] == b[0];
    var j :| 0 <= j < |b| && b[j] == a[0];
  }

  lemma SameTails(a: seq<Action>, b: seq<Action>)
    requires a != [] && b != [] && a[0] == b[0] && multiset(a) == multiset(b)
    ensures multiset(a[1..]) == multiset(b[1..])
  {
    SplitHead(a);
    SplitHead(b);
    assert multiset(a[1..]) == multiset(a) - multiset{a[0]};
    assert multiset(b[1..]) == multiset(b) - multiset{b[0]};
  }

  lemma SameHeadAndTail(a: seq<Action>, b: seq<Action>)
    requires a != [] && b != [] && a[0] == b[0] && a[1..] == b[1..]
    ensures a == b
  {
    assert a == [a[0]] + a[1..] && b == [b[0]] + b[1..];
  }

  ghost predicate WeaklyOrdered(actions: seq<Action>) {
    forall i, j :: 0 <= i < j < |actions| ==> actions[i].token.start <= actions[j].token.start
  }

  /** A strictly ordered list is the only sorted arrangement of its elements. */
  lemma {:induction false} SortIsUnique(a: seq<Action>, b: seq<Action>)
    requires multiset(a) == multiset(b) && StrictlyOrdered(a) && WeaklyOrdered(b)
    ensures a == b
    decreases |a|
  {
    if a == [] {
      if b != [] { SplitHead(b); }
    } else {
      SameHead(a, b);
      SameTails(a, b);
      SortIsUnique(a[1..], b[1..]);
      SameHeadAndTail(a, b);
    }
  }

  // ---- what every schedule keeps ----

  ghost predicate TasksOk(job: Job, s: State)
    requires ValidJob(job)
  {
    && s.submitted <= |job.tokens|
    && (forall i :: i in s.queued ==> i < s.submitted && i !in s.called)
    && s.running <= s.called && s.found <= s.called && s.running !! s.found
    && (forall i :: i in s.called ==> i < s.submitted)
    && (forall i :: i in s.called && i !in s.running ==> job.replies[i].Answered? && (Match(job, i).Some? <==> i in s.found))
    && (!s.cancelled ==> forall i :: 0 <= i < s.submitted ==> i in s.queued || i in s.called)
    && |s.queued| + |s.running| <= job.poolSize
    && (s.stopped ==> !s.poolOpen)
  }

  ghost predicate Inv(job: Job, s: State)
    requires ValidJob(job)
  {
    && TasksOk(job, s) && AllMatched(job, s.found)
    && multiset(s.actions) == multiset(Selected(job, s.found, |job.tokens|))
    && (forall e :: e in s.entities <==> exists i :: i in s.found && Match(job, i).value.Entity() == e)
  }

  lemma SubmitKeepsTasks(job: Job, s: State)
    requires ValidJob(job) && TasksOk(job, s) && Enabled(job, s, Submit)
    ensures TasksOk(job, Apply(job, s, Submit))
  {
  }

  lemma LookKeepsTasks(job: Job, s: State, i: nat)
    requires ValidJob(job) && TasksOk(job, s) && Enabled(job, s, Look(i))
    ensures TasksOk(job, Apply(job, s, Look(i)))
  {
    assert |s.queued - {i}| == |s.queued| - 1;
    assert i !in s.running && |s.running + {i}| == |s.running| + 1;
  }

  lemma FinishKeepsTasks(job: Job, s: State, i: nat)
    requires ValidJob(job) && TasksOk(job, s) && Enabled(job, s, Finish(i))
    ensures TasksOk(job, Apply(job, s, Finish(i)))
  {
    assert |s.running - {i}| == |s.running| - 1;
  }

  lemma StepKeepsTasks(job: Job, s: State, step: Step)
    requires ValidJob(job) && TasksOk(job, s) && Enabled(job, s, step)
    ensures TasksOk(job, Apply(job, s, step))
  {
    match step
    case Submit => SubmitKeepsTasks(job, s);
    case Look(i) => LookKeepsTasks(job, s, i);
    case Finish(i) => FinishKeepsTasks(job, s, i);
    case _ =>
  }

  lemma FinishKeepsInv(job: Job, s: State, i: nat)
    requires ValidJob(job) && Inv(job, s) && Enabled(job, s, Finish(i)) && Match(job, i).Some?
    ensures Inv(job, Apply(job, s, Finish(i)))
  {
    var s' := Apply(job, s, Finish(i));
    FinishKeepsTasks(job, s, i);
    SelectedAdd(job, s.found, i, |job.tokens|);
    var action := Action(job.tokens[i], Match(job, i).value.settings);
    assert multiset(s'.actions) == multiset(s.actions) + multiset{action};
    forall e ensures e in s'.entities <==> exists k :: k in s'.found && Match(job, k).value.Entity() == e {
      if e == Match(job, i).value.Entity() {
        assert i in s'.found;
      } else if k :| k in s.found && Match(job, k).value.Entity() == e {
        assert k in s'.found;
      }
    }
  }

  lemma StepKeepsInv(job: Job, s: State, step: Step)
    requires ValidJob(job) && Inv(job, s) && Enabled(job, s, step)
    ensures Inv(job, Apply(job, s, step))
  {
    if step.Finish? && Match(job, step.task).Some? { FinishKeepsInv(job, s, step.task); } else { StepKeepsTasks(job, s, step); }
  }

  lemma {:induction false} ScheduleKeepsInv(job: Job, s: State, steps: seq<Step>)
    requires ValidJob(job) && Inv(job, s) && Schedule(job, s, steps)
    ensures Inv(job, After(job, s, steps))
    decreases |steps|
  {
    if steps != [] {
      StepKeepsInv(job, s, steps[0]);
      ScheduleKeepsInv(job, Apply(job, s, steps[0]), steps[1..]);
    }
  }

  lemma ReachableInv(job: Job, steps: seq<Step>)
    requires ValidJob(job) && Schedule(job, INITIAL, steps)
    ensures Inv(job, After(job, INITIAL, steps))
  {
    SelectedNone(job, |job.tokens|);
    ScheduleKeepsInv(job, INITIAL, steps);
  }

  /** Whatever the completion order, cancellation or closure: the found tokens are those whose task
      called the runner and was answered with a rule, and the sorted actions and the entities are
      what a loop collects from the answers of the tokens that were called; they are the whole
      loop's exactly when every matched token was called. */
  lemma PooledActions(job: Job, steps: seq<Step>, sorted: seq<Action>)
    requires ValidJob(job) && Schedule(job, INITIAL, steps)
    requires Finished(job, After(job, INITIAL, steps)) && SortedByStart(After(job, INITIAL, steps).actions, sorted)
    ensures var end, answers, n := After(job, INITIAL, steps), JobAnswers(job), |job.tokens|;
            && (forall i :: i in end.called ==> i < end.submitted <= n && job.replies[i].Answered?)
            && (forall i :: i in end.found <==> i in end.called && answers[i].Some?)
            && sorted == MatchedActions(Kept(answers, end.called), job.tokens, n)
            && end.entities == MatchedEntities(Kept(answers, end.called), n)
            && (sorted == MatchedActions(answers, job.tokens, n)
                <==> forall i :: 0 <= i < n && answers[i].Some? ==> i in end.called)
  {
    ReachableInv(job, steps);
    var end := After(job, INITIAL, steps);
    SelectedInOrder(job, end.found, |job.tokens|);
    SortIsUnique(Selected(job, end.found, |job.tokens|), sorted);
    SelectedIsKept(job, end.found, |job.tokens|);
    EntitiesOfFound(job, end);
    KeptIsAll(JobAnswers(job), job.tokens, end.called, |job.tokens|);
    assert Kept(JobAnswers(job), end.found) == Kept(JobAnswers(job), end.called);
  }

  lemma EntitiesOfFound(job: Job, s: State)
    requires ValidJob(job) && Inv(job, s)
    ensures s.entities == MatchedEntities(Kept(JobAnswers(job), s.found), |job.tokens|)
  {
    var kept := Kept(JobAnswers(job), s.found);
    var expected := MatchedEntities(kept, |job.tokens|);
    forall e ensures e in s.entities <==> e in expected {
      if e in s.entities {
        var i :| i in s.found && Match(job, i).value.Entity() == e;
        assert 0 <= i < |kept| && kept[i].Some?;
      }
      if e in expected {
        var i :| 0 <= i < |kept| && kept[i].Some? && kept[i].value.Entity() == e;
        assert i in s.found;
      }
    }
  }

  /** And the rewritten output replaces exactly the tokens whose call answered a rule. */
  lemma PooledRewrite(job: Job, steps: seq<Step>, sorted: seq<Action>)
    requires ValidJob(job) && Schedule(job, INITIAL, steps) && AllAnswered(job.tokens, JobAnswers(job))
    requires Finished(job, After(job, INITIAL, steps)) && SortedByStart(After(job, INITIAL, steps).actions, sorted)
    ensures var kept := Kept(JobAnswers(job), After(job, INITIAL, steps).called);
            && AllAnswered(job.tokens, kept) && Due(job.content, sorted, 0, 0)
            && Rewrite(job.content, sorted, 0, 0) == Reference(kept, job.content, job.tokens, 0, 0)
  {
    PooledActions(job, steps, sorted);
    RewriteIsReference(Kept(JobAnswers(job), After(job, INITIAL, steps).called), job.content, job.tokens, 0, 0);
  }

  /** Without cancellation nothing submitted is lost: every submitted token's call was answered,
      so the result is what a loop over those tokens collects. */
  lemma PooledIsLoop(job: Job, steps: seq<Step>, sorted: seq<Action>)
    requires ValidJob(job) && Schedule(job, INITIAL, steps)
    requires var end := After(job, INITIAL, steps);
             Finished(job, end) && !end.cancelled && SortedByStart(end.actions, sorted)
    ensures var end := After(job, INITIAL, steps);
            && end.submitted <= |job.tokens| && (!end.stopped ==> end.submitted == |job.tokens|)
            && (forall i :: 0 <= i < end.submitted ==> job.replies[i].Answered?)
            && (forall i :: 0 <= i < end.submitted ==> i in end.called)
            && sorted == MatchedActions(JobAnswers(job), job.tokens, end.submitted)
            && end.entities == MatchedEntities(JobAnswers(job), end.submitted)
  {
    ReachableInv(job, steps);
    PooledActions(job, steps, sorted);
    var end, answers := After(job, INITIAL, steps), JobAnswers(job);
    var kept := Kept(answers, end.called);
    PrefixIsAll(kept, job.tokens, end.submitted, |job.tokens|);
    SamePrefix(kept, answers, job.tokens, end.submitted);
    assert MatchedEntities(kept, |job.tokens|) == MatchedEntities(kept, end.submitted);
  }

  /** Pooled and sequential processing of the same answers write the same bytes. */
  lemma PooledOutputIsReference(job: Job, steps: seq<Step>, sorted: seq<Action>)
    requires ValidJob(job) && Schedule(job, INITIAL, steps) && AllAnswered(job.tokens, JobAnswers(job))
    requires var end := After(job, INITIAL, steps);
             Finished(job, end) && !end.cancelled && !end.stopped && SortedByStart(end.actions, sorted)
    ensures Due(job.content, sorted, 0, 0)
    ensures Rewrite(job.content, sorted, 0, 0) == Reference(JobAnswers(job), job.content, job.tokens, 0, 0)
  {
    PooledIsLoop(job, steps, sorted);
    RewriteIsReference(JobAnswers(job), job.content, job.tokens, 0, 0);
  }

  lemma {:induction false} ClosedPoolSubmitsNothing(job: Job, s: State, steps: seq<Step>)
    requires ValidJob(job) && Schedule(job, s, steps) && !s.poolOpen
    ensures After(job, s, steps).submitted == s.submitted
    decreases |steps|
  {
    if steps != [] { ClosedPoolSubmitsNothing(job, Apply(job, s, steps[0]), steps[1..]); }
  }

  /** An analyser stopped before the call anonymises nothing: the pool rejects the first token and
      the content goes out as it came in, whatever the rules match. */
  lemma StoppedAnalyzerCopiesInput(job: Job, steps: seq<Step>, sorted: seq<Action>)
    requires ValidJob(job) && Schedule(job, INITIAL, steps) && steps != [] && steps[0] == ClosePool
    requires var end := After(job, INITIAL, steps);
             Finished(job, end) && SortedByStart(end.actions, sorted)
    ensures sorted == [] && Due(job.content, sorted, 0, 0) && Rewrite(job.content, sorted, 0, 0) == job.content
  {
    ClosedPoolSubmitsNothing(job, Apply(job, INITIAL, ClosePool), steps[1..]);
    PooledActions(job, steps, sorted);
    assert After(job, INITIAL, steps).called == {};
    SelectedIsKept(job, {}, |job.tokens|);
    SelectedNone(job, |job.tokens|);
  }

  // ---- a cancelled call ----

  /** Once the context is done no further task calls the runner: the tokens called by then decide. */
  lemma {:induction false} CancelStopsCalls(job: Job, s: State, steps: seq<Step>)
    requires ValidJob(job) && Schedule(job, s, steps) && s.cancelled
    ensures After(job, s, steps).called == s.called && After(job, s, steps).cancelled
    decreases |steps|
  {
    if steps != [] { CancelStopsCalls(job, Apply(job, s, steps[0]), steps[1..]); }
  }

  lemma {:induction false} Joined(job: Job, s: State, first: seq<Step>, second: seq<Step>)
    requires ValidJob(job) && Schedule(job, s, first) && Schedule(job, After(job, s, first), second)
    ensures Schedule(job, s, first + second) && After(job, s, first + second) == After(job, After(job, s, first), second)
    decreases |first|
  {
    if first == [] {
      assert first + second == second;
    } else {
      assert (first + second)[1..] == first[1..] + second;
      Joined(job, Apply(job, s, first[0]), first[1..], second);
    }
  }

  /** The result of a call cancelled at some point is what a loop collects from the tokens called by
      then, whatever happens afterwards; cancelled from the start, it is nothing. */
  lemma CancelledResult(job: Job, before: seq<Step>, after: seq<Step>, sorted: seq<Action>)
    requires ValidJob(job) && Schedule(job, INITIAL, before) && After(job, INITIAL, before).cancelled
    requires Schedule(job, After(job, INITIAL, before), after)
    requires var end := After(job, After(job, INITIAL, before), after); Finished(job, end) && SortedByStart(end.actions, sorted)
    ensures var now := After(job, INITIAL, before);
            && sorted == MatchedActions(Kept(JobAnswers(job), now.called), job.tokens, |job.tokens|)
            && (now.called == {} ==> sorted == [])
  {
    var now := After(job, INITIAL, before);
    Joined(job, INITIAL, before, after);
    PooledActions(job, before + after, sorted);
    CancelStopsCalls(job, now, after);
    if now.called == {} {
      SelectedIsKept(job, {}, |job.tokens|);
      SelectedNone(job, |job.tokens|);
    }
  }

  /** Submitting the rest under a done context: each task returns at once. */
  lemma {:induction false} CancelledRest(job: Job, s: State) returns (steps: seq<Step>)
    requires ValidJob(job) && job.poolSize > 0 && s.submitted <= |job.tokens|
    requires s.cancelled && s.poolOpen && !s.stopped && s.queued == {} && s.running == {}
    ensures Schedule(job, s, steps)
    ensures After(job, s, steps) == s.(submitted := |job.tokens|)
    decreases |job.tokens| - s.submitted
  {
    if s.submitted == |job.tokens| {
      steps := [];
    } else {
      var i := s.submitted;
      var s1 := Apply(job, s, Submit);
      assert s1.queued == {i} && s1.queued - {i} == {};
      var s2 := Apply(job, s1, Look(i));
      var rest := CancelledRest(job, s2);
      assert ([Look(i)] + rest)[1..] == rest;
      steps := [Submit] + ([Look(i)] + rest);
      assert steps[1..] == [Look(i)] + rest;
    }
  }

  /** Such a run exists, on an open pool that refuses nothing, whatever the tokens are. */
  lemma CancelledFindsNothing(job: Job) returns (steps: seq<Step>)
    requires ValidJob(job) && job.poolSize > 0
    ensures Schedule(job, INITIAL, steps)
    ensures var end := After(job, INITIAL, steps);
            Finished(job, end) && end.poolOpen && !end.stopped && end.submitted == |job.tokens|
            && end.called == {} && end.found == {} && end.actions == [] && end.entities == {}
  {
    var rest := CancelledRest(job, Apply(job, INITIAL, Cancel));
    steps := [Cancel] + rest;
    assert steps[1..] == rest;
  }

  // ---- the wait group ----

  predicate IsEnvironment(step: Step) { step.Cancel? || step.ClosePool? }

  /** Submissions to come count three, tasks to look two, running ones one, and the end of the token
      loop one. */
  function Work(job: Job, s: State): nat {
    (if s.submitted <= |job.tokens| then 3 * (|job.tokens| - s.submitted) else 0)
    + 2 * |s.queued| + |s.running| + if s.stopped then 0 else 1
  }

  lemma SubmitWorks(job: Job, s: State)
    requires ValidJob(job) && TasksOk(job, s) && Enabled(job, s, Submit)
    ensures Work(job, Apply(job, s, Submit)) < Work(job, s)
  {
    assert |s.queued + {s.submitted}| == |s.queued| + 1;
  }

  lemma LookWorks(job: Job, s: State, i: nat)
    requires ValidJob(job) && TasksOk(job, s) && Enabled(job, s, Look(i))
    ensures Work(job, Apply(job, s, Look(i))) < Work(job, s)
  {
    assert |s.queued - {i}| == |s.queued| - 1;
    assert |s.running + {i}| == |s.running| + 1;
  }

  lemma StepWorks(job: Job, s: State, step: Step)
    requires ValidJob(job) && TasksOk(job, s) && Enabled(job, s, step) && !IsEnvironment(step)
    ensures Work(job, Apply(job, s, step)) < Work(job, s)
  {
    match step
    case Submit => SubmitWorks(job, s);
    case Look(i) => LookWorks(job, s, i);
    case Finish(i) => assert |s.running - {i}| == |s.running| - 1;
    case _ =>
  }

  /** Once every pooled call has answered, some step can be taken until the wait ends, on an open
      pool, a closed one, or under a done context. */
  lemma SomethingCanStep(job: Job, s: State) returns (step: Step)
    requires ValidJob(job) && Inv(job, s) && job.poolSize > 0 && !Finished(job, s)
    requires forall i :: i in s.running ==> job.replies[i].Answered?
    ensures Enabled(job, s, step) && !IsEnvironment(step)
  {
    if s.queued != {} {
      var i :| i in s.queued;
      step := Look(i);
    } else if s.running != {} {
      var i :| i in s.running;
      step := Finish(i);
    } else {
      step := if s.poolOpen then Submit else Reject;
    }
  }

  /** So the wait ends, within the remaining work. */
  lemma {:induction false} WaitEnds(job: Job, s: State) returns (steps: seq<Step>)
    requires ValidJob(job) && Inv(job, s) && job.poolSize > 0
    requires forall i :: 0 <= i < |job.replies| ==> job.replies[i].Answered?
    ensures Schedule(job, s, steps) && Finished(job, After(job, s, steps)) && |steps| <= Work(job, s)
    ensures forall k :: 0 <= k < |steps| ==> !IsEnvironment(steps[k])
    decreases Work(job, s)
  {
    if Finished(job, s) {
      steps := [];
    } else {
      var step := SomethingCanStep(job, s);
      StepWorks(job, s, step);
      StepKeepsInv(job, s, step);
      var rest := WaitEnds(job, Apply(job, s, step));
      steps := [step] + rest;
      assert steps[1..] == rest;
    }
  }

  /** Never more tasks in the pool than it has slots. */
  lemma SlotsAreBounded(job: Job, steps: seq<Step>)
    requires ValidJob(job) && Schedule(job, INITIAL, steps)
    ensures var end := After(job, INITIAL, steps); |end.queued + end.running| <= job.poolSize
  {
    ReachableInv(job, steps);
    var end := After(job, INITIAL, steps);
    assert |end.queued + end.running| <= |end.queued| + |end.running|;
  }
}
